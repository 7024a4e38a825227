/** The avatar color hash (apps/mobile/lib/avatar-color.ts:7-14), palette from
    packages/ui-tokens/src/colors.ts:75-84. */
module AvatarColor {
  import opened Int32
  import opened Digits

  const PALETTE: seq<string> :=
    ["#5FB325", "#0B1E5B", "#F5A623", "#2277D6", "#E63946", "#B98CFF", "#5DD5E8", "#E85DCE"]

  /** Beyond 2^53 a JavaScript number may lose integers. */
  const TWO_53: int := 0x20_0000_0000_0000

  /** UTF-16 code units. */
  predicate IsCodeUnits(codes: seq<nat>) {
    forall i | 0 <= i < |codes| :: codes[i] < 0x1_0000
  }

  /** The base-31 polynomial of the code units, the hash without any truncation. */
  function Polynomial(codes: seq<nat>): nat {
    if codes == [] then 0 else Polynomial(codes[..|codes| - 1]) * 31 + codes[|codes| - 1]
  }

  function Abs(x: int): nat {
    if x < 0 then -x else x
  }

  /** `(hash << 5) - hash + code` before `hash |= 0`. */
  function Unmasked(hash: int, code: nat): int {
    Shl(hash, 5) - hash + code
  }

  /** One round of the loop multiplies by 31 and adds, modulo 2^32, and stays exact on the way. */
  lemma {:induction false} RoundIsPolynomialStep(p: int, code: nat)
    requires code < 0x1_0000
    ensures -TWO_53 < Unmasked(ToInt32(p), code) < TWO_53
    ensures Or(Unmasked(ToInt32(p), code), 0) == ToInt32(p * 31 + code)
  {
    hide Or, Shl, ToInt32;
    var h := ToInt32(p);
    Pow2Small();
    var c := ShlTurns(h, 5);
    var t := ToInt32Turns(h * 32);
    var t' := ToInt32Turns(p);
    ShlRange(h);
    var u := Unmasked(h, code);
    assert u == h * 31 + code + c * TWO_32;
    OrZero(u);
    ToInt32Shift(h * 31 + code, c);
    ToInt32Linear(31, p, code);
  }

  lemma ShlRange(h: int)
    ensures -TWO_31 <= Shl(h, 5) < TWO_31
  {
    var c := ToInt32Turns(ToInt32(h) * Pow2(5));
  }

  /** `x | 0` is the conversion to 32 bits. */
  lemma OrZero(x: int)
    ensures Or(x, 0) == ToInt32(x)
  {
    OrIsResidue(x, 0, 0);
    ToInt32Residue(x);
  }

  /** For every string the loop computes the signed 32-bit residue of the polynomial, and the index
      it takes from it is inside the palette, also where the hash is -2^31 and `Math.abs` leaves the
      signed 32-bit range. */
  method AvatarColorFor(codes: seq<nat>) returns (color: string)
    requires IsCodeUnits(codes)
    ensures color == ColorOf(Polynomial(codes)) && color in PALETTE
  {
    hide Or, Shl, ToInt32;
    var hash := 0;
    ZeroHash();
    for i := 0 to |codes|
      invariant hash == ToInt32(Polynomial(codes[..i]))
    {
      assert codes[..i + 1][..i] == codes[..i];
      RoundIsPolynomialStep(Polynomial(codes[..i]), codes[i]);
      hash := Shl(hash, 5) - hash + codes[i];
      assert -TWO_53 < hash < TWO_53;
      hash := Or(hash, 0);
    }
    assert codes[..|codes|] == codes;
    color := PALETTE[Abs(hash) % |PALETTE|];
  }

  /** The color for a hash before truncation. */
  function ColorOf(p: nat): string {
    PALETTE[Abs(ToInt32(p)) % |PALETTE|]
  }

  /** The color is picked by the absolute value, modulo 8, of the one number of the signed 32-bit range
      that differs from the polynomial by a multiple of 2^32. */
  lemma ColorIs(p: nat, h: int)
    requires -0x8000_0000 <= h <= 0x7FFF_FFFF && (h - p) % 0x1_0000_0000 == 0
    ensures ColorOf(p) == ["#5FB325", "#0B1E5B", "#F5A623", "#2277D6", "#E63946", "#B98CFF", "#5DD5E8", "#E85DCE"]
                          [(if h < 0 then -h else h) % 8]
  {
    ToInt32Is(p, h);
  }

  /** The polynomial: each code unit counts 31 to the power of how many follow it. */
  lemma {:induction false} PolynomialIs(first: nat, rest: seq<nat>)
    ensures Polynomial([]) == 0
    ensures Polynomial([first] + rest) == first * Pow(31, |rest|) + Polynomial(rest)
  {
    var codes := [first] + rest;
    if rest == [] {
      assert codes[..0] == [];
    } else {
      var n, last := |rest| - 1, rest[|rest| - 1];
      assert codes[..|codes| - 1] == [first] + rest[..n];
      PolynomialIs(first, rest[..n]);
      PowerStep(first, Pow(31, n), Polynomial(rest[..n]));
    }
  }

  lemma PowerStep(a: nat, p: nat, q: nat)
    ensures (a * p + q) * 31 == a * (31 * p) + q * 31
  {
  }

  lemma ZeroHash()
    ensures ToInt32(0) == 0
  {
  }
}
