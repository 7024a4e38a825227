/** Positional number systems: a digit string and the number it denotes. */
module Digits {
  import Int32

  function Pow(base: nat, n: nat): nat {
    if n == 0 then 1 else base * Pow(base, n - 1)
  }

  /** The number a digit string denotes, most significant digit first. */
  function Value(ds: seq<nat>, base: nat): nat {
    if ds == [] then 0 else Value(ds[..|ds| - 1], base) * base + ds[|ds| - 1]
  }

  predicate AllBelow(ds: seq<nat>, base: nat) {
    forall i | 0 <= i < |ds| :: ds[i] < base
  }

  /** The k lowest digits of x, most significant first. */
  function ToDigits(x: nat, base: nat, k: nat): (ds: seq<nat>)
    requires base > 0
    ensures |ds| == k && AllBelow(ds, base)
    decreases k
  {
    if k == 0 then [] else ToDigits(x / base, base, k - 1) + [x % base]
  }

  /** x followed by n zero bits. */
  function AppendZeros(x: nat, n: nat): nat {
    if n == 0 then x else 2 * AppendZeros(x, n - 1)
  }

  /** x without its n lowest bits. */
  function DropBits(x: nat, n: nat): nat {
    if n == 0 then x else DropBits(x, n - 1) / 2
  }

  lemma ValueAppend(ds: seq<nat>, d: nat, base: nat)
    ensures Value(ds + [d], base) == Value(ds, base) * base + d
  {
    assert (ds + [d])[..|ds|] == ds;
  }

  lemma DivModOfSum(v: nat, base: nat, d: nat)
    requires d < base
    ensures (v * base + d) / base == v && (v * base + d) % base == d
  {
    Int32.DivModUnique(v * base + d, base, v, d);
  }

  /** Writing the value of a digit string with as many digits gives the string back. */
  lemma {:induction false} DigitsOfValue(ds: seq<nat>, base: nat)
    requires base > 0
    requires AllBelow(ds, base)
    ensures ToDigits(Value(ds, base), base, |ds|) == ds
    ensures Value(ds, base) < Pow(base, |ds|)
  {
    if ds == [] {
    } else {
      var init, last := ds[..|ds| - 1], ds[|ds| - 1];
      assert init + [last] == ds;
      DigitsOfValue(init, base);
      DivModOfSum(Value(init, base), base, last);
      BelowProduct(Value(init, base), last, base, Pow(base, |init|));
    }
  }

  lemma BelowProduct(v: nat, d: nat, base: nat, p: nat)
    requires v < p && d < base
    ensures v * base + d < base * p
  {
    MulMono(v + 1, p, base);
  }

  lemma MulMono(a: nat, b: nat, c: nat)
    requires a <= b
    ensures a * c <= b * c
  {
  }
}
