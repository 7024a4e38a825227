module Options {
  /** A value that may be missing: `null`, `undefined`, SQL NULL. */
  datatype Option<+T> = None | Some(value: T)
}
