/** The 32-bit integer operators of ECMAScript, written bit by bit on mathematical integers.

    Operands are read in two's complement: bit i of x is `x / 2^i % 2` with floor division, so
    negative numbers have infinitely many leading ones, of which an operator keeps 32. */
module Int32 {
  const WIDTH: nat := 32
  const TWO_31: int := 0x8000_0000
  const TWO_32: int := 0x1_0000_0000

  function Pow2(n: nat): (p: nat)
    ensures p >= 1
  {
    if n == 0 then 1 else 2 * Pow2(n - 1)
  }

  /** The signed 32-bit residue of x. */
  function ToInt32(x: int): int {
    var m := x % TWO_32;
    if m >= TWO_31 then m - TWO_32 else m
  }

  /** The low n bits of `x | y`, as an unsigned number. */
  function OrBits(x: int, y: int, n: nat): nat
    decreases n
  {
    if n == 0 then 0
    else (if x % 2 == 1 || y % 2 == 1 then 1 else 0) + 2 * OrBits(x / 2, y / 2, n - 1)
  }

  /** The low n bits of `x & y`, as an unsigned number. */
  function AndBits(x: int, y: int, n: nat): nat
    decreases n
  {
    if n == 0 then 0
    else (if x % 2 == 1 && y % 2 == 1 then 1 else 0) + 2 * AndBits(x / 2, y / 2, n - 1)
  }

  function Or(x: int, y: int): int {
    ToInt32(OrBits(x, y, WIDTH))
  }

  function And(x: int, y: int): int {
    ToInt32(AndBits(x, y, WIDTH))
  }

  /** `x << n`. */
  function Shl(x: int, n: nat): int
    requires n < 32
  {
    ToInt32(ToInt32(x) * Pow2(n))
  }

  /** `x >> n`: the sign-propagating right shift. */
  function Sar(x: int, n: nat): int
    requires n < 32
  {
    ToInt32(x) / Pow2(n)
  }

  lemma {:induction false} Pow2Add(m: nat, n: nat)
    ensures Pow2(m + n) == Pow2(m) * Pow2(n)
  {
    if m == 0 {
    } else {
      Pow2Add(m - 1, n);
      assert Pow2(m + n) == 2 * Pow2(m - 1 + n);
    }
  }

  lemma Pow2Small()
    ensures Pow2(2) == 4 && Pow2(4) == 16 && Pow2(5) == 32 && Pow2(6) == 64 && Pow2(8) == 256
    ensures Pow2(WIDTH) == TWO_32
  {
    assert Pow2(8) == 256;
    Pow2Add(8, 8);
    Pow2Add(16, 16);
  }

  /** Dividing by 2m is halving and then dividing by m. */
  lemma HalveMod(x: int, m: int)
    requires m > 0
    ensures x % (2 * m) == x % 2 + 2 * (x / 2 % m)
  {
    var q, r := x / 2 / m, x / 2 % m;
    var low := x % 2 + 2 * r;
    calc {
      x;
      2 * (x / 2) + x % 2;
      2 * (q * m + r) + x % 2;
      q * (2 * m) + low;
    }
    DivModUnique(x, 2 * m, q, low);
  }

  lemma MulAtLeast(k: int, d: int)
    requires k >= 1 && d > 0
    ensures k * d >= d
  {
    assert k * d == (k - 1) * d + d;
  }

  /** Quotient and remainder are determined by the division equation. */
  lemma DivModUnique(x: int, d: int, q: int, r: int)
    requires x == q * d + r
    requires 0 <= r < d
    ensures x / d == q && x % d == r
  {
    DivModUniqueAux(d, q, r, x / d, x % d);
  }

  lemma DivModUniqueAux(d: int, q: int, r: int, q': int, r': int)
    requires q * d + r == q' * d + r'
    requires 0 <= r < d && 0 <= r' < d
    ensures q == q' && r == r'
    decreases q < q'
  {
    assert (q - q') * d == r' - r;
    if q > q' {
      MulAtLeast(q - q', d);
    } else if q < q' {
      DivModUniqueAux(d, q', r', q, r);
    }
  }

  /** Adding a multiple of the modulus changes nothing. */
  lemma AddMultiple(x: int, k: int, d: int)
    requires d > 0
    ensures (x + k * d) / d == x / d + k
    ensures (x + k * d) % d == x % d
  {
    assert x + k * d == (x / d + k) * d + x % d by {
      assert x == x / d * d + x % d;
      assert (x / d + k) * d == x / d * d + k * d;
    }
    DivModUnique(x + k * d, d, x / d + k, x % d);
  }

  /** ToInt32 moves a number by c whole turns of 2^32. */
  lemma ToInt32Turns(x: int) returns (c: int)
    ensures ToInt32(x) == x + c * TWO_32
    ensures -TWO_31 <= ToInt32(x) < TWO_31
  {
    c := if x % TWO_32 >= TWO_31 then -(x / TWO_32) - 1 else -(x / TWO_32);
  }

  /** The one number of the signed 32-bit range that differs from x by whole turns. */
  lemma ToInt32Is(x: int, h: int)
    ensures h == ToInt32(x) <==> -0x8000_0000 <= h <= 0x7FFF_FFFF && (h - x) % 0x1_0000_0000 == 0
  {
  }

  lemma ToInt32Shift(x: int, k: int)
    ensures ToInt32(x + k * TWO_32) == ToInt32(x)
  {
    AddMultiple(x, k, TWO_32);
  }

  /** ToInt32 may be postponed to the end of a sum and of a product by a constant. */
  lemma ToInt32Linear(a: int, x: int, b: int)
    ensures ToInt32(a * ToInt32(x) + b) == ToInt32(a * x + b)
  {
    var k := ToInt32Turns(x);
    assert a * ToInt32(x) + b == a * x + b + (a * k) * TWO_32 by {
      assert a * (x + k * TWO_32) == a * x + (a * k) * TWO_32;
    }
    ToInt32Shift(a * x + b, a * k);
  }

  /** Where the operands have no bit in common, `|` is `+`. */
  lemma {:induction false} OrDisjoint(x: int, v: int, k: nat, n: nat)
    requires k <= n
    requires x % Pow2(k) == 0
    requires 0 <= v < Pow2(k)
    ensures OrBits(x, v, n) == (x + v) % Pow2(n)
    decreases n
  {
    if n == 0 {
    } else if k == 0 {
      OrDisjoint(x / 2, 0, 0, n - 1);
      HalveMod(x, Pow2(n - 1));
    } else {
      HalveMod(x, Pow2(k - 1));
      assert x / 2 % Pow2(k - 1) == 0 && x % 2 == 0;
      assert OrBits(x, v, n) == v % 2 + 2 * OrBits(x / 2, v / 2, n - 1);
      OrDisjoint(x / 2, v / 2, k - 1, n - 1);
      assert (x + v) / 2 == x / 2 + v / 2 && (x + v) % 2 == v % 2;
      HalveMod(x + v, Pow2(n - 1));
    }
  }

  lemma {:induction false} AndZero(x: int, n: nat)
    ensures AndBits(x, 0, n) == 0
    decreases n
  {
    if n > 0 { AndZero(x / 2, n - 1); }
  }

  lemma ResidueOfOne(x: int, q: nat)
    requires q == 1
    ensures x % q == 0
  {
  }

  /** A mask of k ones keeps the residue modulo 2^k. */
  lemma {:induction false} AndMask(x: int, k: nat, n: nat)
    requires k <= n
    ensures AndBits(x, Pow2(k) - 1, n) == x % Pow2(k)
    decreases n
  {
    hide AndBits;
    if k == 0 {
      AndZero(x, n);
      ResidueOfOne(x, Pow2(k));
    } else {
      hide Pow2;
      var p, q := Pow2(k - 1), Pow2(k);
      Pow2Step(k);
      AndMaskStep(x, p, q, n);
      AndMask(x / 2, k - 1, n - 1);
      ResidueStep(x, p, q);
    }
  }

  lemma Pow2Step(k: nat)
    requires k > 0
    ensures Pow2(k) == 2 * Pow2(k - 1)
  {
  }

  lemma ResidueStep(x: int, p: nat, q: nat)
    requires p > 0 && q == 2 * p
    ensures x % q == x % 2 + 2 * (x / 2 % p)
  {
    HalveMod(x, p);
  }

  lemma AndMaskStep(x: int, p: nat, q: nat, n: nat)
    requires p > 0 && n > 0 && q == 2 * p
    ensures AndBits(x, q - 1, n) == x % 2 + 2 * AndBits(x / 2, p - 1, n - 1)
  {
    assert (q - 1) / 2 == p - 1 && (q - 1) % 2 == 1;
  }

  /** 2^32 is divisible by every smaller power of two. */
  lemma PowDividesTurn(k: nat) returns (q: int)
    requires k <= WIDTH
    ensures TWO_32 == q * Pow2(k)
    ensures q == Pow2(WIDTH - k)
  {
    q := Pow2(WIDTH - k);
    Pow2Add(WIDTH - k, k);
    Pow2Small();
  }

  lemma MulAssoc(a: int, b: int, c: int)
    ensures a * b * c == a * (b * c)
  {
  }

  /** A left shift clears the low bits, and is a multiplication up to whole turns. */
  lemma ShlTurns(x: int, k: nat) returns (c: int)
    requires k < 32
    ensures Shl(x, k) == x * Pow2(k) + c * TWO_32
    ensures Shl(x, k) % Pow2(k) == 0
  {
    var p := Pow2(k);
    var c0 := ToInt32Turns(x);
    c := ToInt32Turns(ToInt32(x) * p);
    assert ToInt32(x) * p == x * p + (c0 * p) * TWO_32 by {
      Distribute(x, c0, p);
    }
    c := c0 * p + c;
    var q := PowDividesTurn(k);
    assert Shl(x, k) == 0 + (x + c * q) * p by {
      assert c * TWO_32 == c * q * p by { MulAssoc(c, q, p); }
    }
    AddMultiple(0, x + c * q, p);
  }

  lemma Distribute(x: int, c: int, p: int)
    ensures (x + c * TWO_32) * p == x * p + (c * p) * TWO_32
  {
  }

  lemma OrOfBits(y: int, v: int, r: nat)
    requires OrBits(y, v, WIDTH) == r
    ensures Or(y, v) == ToInt32(r)
  {
  }

  lemma OrIsResidue(y: int, v: int, k: nat)
    requires k < 32
    requires y % Pow2(k) == 0 && 0 <= v < Pow2(k)
    ensures Or(y, v) == ToInt32((y + v) % TWO_32)
  {
    OrDisjoint(y, v, k, WIDTH);
    Pow2Small();
    OrOfBits(y, v, (y + v) % TWO_32);
  }

  lemma ToInt32Residue(z: int)
    ensures ToInt32(z % TWO_32) == ToInt32(z)
  {
  }

  /** `(x << k) | v` on 32 bits is the residue of `x * 2^k + v`, whatever x is. */
  lemma {:induction false} ShlOr(x: int, k: nat, v: int, y: int)
    requires k < 32
    requires 0 <= v < Pow2(k)
    requires y == x * Pow2(k) + v
    ensures Or(Shl(x, k), v) == ToInt32(y)
  {
    hide Or, Shl, ToInt32;
    var c := ShlTurns(x, k);
    OrAfterTurns(Shl(x, k), y - v, c, k, v);
  }

  lemma OrAfterTurns(y: int, z: int, c: int, k: nat, v: int)
    requires k < 32
    requires y == z + c * TWO_32 && y % Pow2(k) == 0
    requires 0 <= v < Pow2(k)
    ensures Or(y, v) == ToInt32(z + v)
  {
    OrIsResidue(y, v, k);
    ToInt32Residue(y + v);
    ToInt32Shift(z + v, c);
  }

  /** `x & (2^k - 1)` is the residue modulo 2^k. */
  lemma AndLow(x: int, k: nat)
    requires k < 31
    ensures And(x, Pow2(k) - 1) == x % Pow2(k)
  {
    hide And, ToInt32;
    AndIsResidue(x, k, Pow2(k) - 1);
    HalfTurnBound(k);
    SmallIsFixed(x % Pow2(k));
  }

  lemma AndIsResidue(x: int, k: nat, mask: int)
    requires k < 31 && mask == Pow2(k) - 1
    ensures And(x, mask) == ToInt32(x % Pow2(k))
  {
    AndMask(x, k, WIDTH);
    AndOfBits(x, mask, x % Pow2(k));
  }

  lemma HalfTurnBound(k: nat)
    requires k < 31
    ensures Pow2(k) <= TWO_31
  {
    var q := PowDividesTurn(k);
    var h := Pow2(WIDTH - 1 - k);
    assert q == 2 * h;
    HalfBound(h, Pow2(k));
  }

  lemma HalfBound(h: int, p: int)
    requires h >= 1 && p >= 1 && TWO_32 == 2 * h * p
    ensures p <= TWO_31
  {
    MulAtLeast(h, p);
    MulAssoc(2, h, p);
  }

  lemma SmallIsFixed(r: int)
    requires 0 <= r < TWO_31
    ensures ToInt32(r) == r
  {
  }

  lemma AndOfBits(x: int, y: int, r: nat)
    requires AndBits(x, y, WIDTH) == r
    ensures And(x, y) == ToInt32(r)
  {
  }

  /** Bits below the 32nd survive the truncation of a wider number to 32 bits. */
  lemma {:induction false} SarAndLow(x: int, b: nat, k: nat)
    requires b + k < 32 && k < 31
    ensures And(Sar(ToInt32(x), b), Pow2(k) - 1) == x / Pow2(b) % Pow2(k)
  {
    ToInt32Linear(1, x, 0);
    var h := Sar(ToInt32(x), b);
    AndLow(h, k);
    LowBitsOfTurn(x, b, k);
  }

  lemma LowBitsOfTurn(x: int, b: nat, k: nat)
    requires b + k < 32
    ensures ToInt32(x) / Pow2(b) % Pow2(k) == x / Pow2(b) % Pow2(k)
  {
    var c := ToInt32Turns(x);
    var q := PowDividesTurn(k + b);
    Pow2Add(k, b);
    MulAssoc(c, q, Pow2(k) * Pow2(b));
    HighBitsDrop(x, c * q, Pow2(k), Pow2(b));
  }

  lemma HighBitsDrop(x: int, m: int, p: int, b: int)
    requires p > 0 && b > 0
    ensures (x + m * (p * b)) / b % p == x / b % p
  {
    MulAssoc(m, p, b);
    AddMultiple(x, m * p, b);
    AddMultiple(x / b, m, p);
  }
}
