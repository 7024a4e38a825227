/** Base64 text for binary payloads (apps/mobile/lib/base64.ts), section 4 of RFC 4648.

    Reference reading: a byte string is a number in base 256. Its encoding is that number,
    extended by zero bits to a whole number of sextets, written in base 64. */
module Base64 {
  import opened Digits
  import opened Int32
  import opened Options

  const UPPER: string := "ABCDEFGHIJKLMNOPQRSTUVWXYZ"
  const LOWER: string := "abcdefghijklmnopqrstuvwxyz"
  const NUMERALS: string := "0123456789"
  const ALPHABET: string := UPPER + LOWER + NUMERALS + "+/"

  /** `ALPHABET[i]`. */
  function Letter(i: nat): char
    requires i < 64
  {
    ALPHABET[i]
  }

  /** `ALPHABET.indexOf(c)`. */
  function IndexOf(c: char): (i: int)
    ensures i == -1 ==> c !in ALPHABET
    ensures i != -1 ==> 0 <= i < 64 && ALPHABET[i] == c
  {
    RunLengths();
    FirstIndex(ALPHABET, c)
  }

  function FirstIndex(s: string, c: char): (i: int)
    ensures i == -1 ==> c !in s
    ensures i != -1 ==> 0 <= i < |s| && s[i] == c && c !in s[..i]
  {
    if s == "" then -1
    else if s[0] == c then 0
    else
      var i := FirstIndex(s[1..], c);
      if i == -1 then -1 else i + 1
  }

  lemma UpperRun(i: nat)
    requires i < 26
    ensures UPPER[i] as int == 'A' as int + i
  {
  }

  lemma LowerRun(i: nat)
    requires i < 26
    ensures LOWER[i] as int == 'a' as int + i
  {
  }

  lemma NumeralRun(i: nat)
    requires i < 10
    ensures NUMERALS[i] as int == '0' as int + i
  {
  }

  lemma RunLengths()
    ensures |UPPER| == 26 && |LOWER| == 26 && |NUMERALS| == 10
  {
  }

  lemma AlphabetPosition(u: string, l: string, n: string, i: nat)
    requires |u| == 26 && |l| == 26 && |n| == 10 && i < 64
    ensures (u + l + n + "+/")[i] ==
            if i < 26 then u[i] else if i < 52 then l[i - 26] else if i < 62 then n[i - 52]
            else if i == 62 then '+' else '/'
  {
  }

  lemma LetterFromRun(v: nat)
    requires v < 64 && |UPPER| == 26 && |LOWER| == 26 && |NUMERALS| == 10
    ensures Letter(v) == if v < 26 then UPPER[v] else if v < 52 then LOWER[v - 26]
                         else if v < 62 then NUMERALS[v - 52] else if v == 62 then '+' else '/'
  {
    AlphabetPosition(UPPER, LOWER, NUMERALS, v);
  }

  /** The character of every sextet (table 1 of RFC 4648). */
  lemma LetterIs(v: nat)
    requires v < 64
    ensures Letter(v) as int
            == if v < 26 then 'A' as int + v
               else if v < 52 then 'a' as int + (v - 26)
               else if v < 62 then '0' as int + (v - 52)
               else if v == 62 then '+' as int else '/' as int
  {
    hide Letter;
    RunLengths();
    LetterFromRun(v);
    if v < 26 {
      UpperRun(v);
    } else if v < 52 {
      LowerRun(v - 26);
    } else if v < 62 {
      NumeralRun(v - 52);
    }
  }

  /** The sextet of every character, -1 for all characters outside the table. */
  lemma IndexOfIs(c: char)
    ensures IndexOf(c)
            == if 'A' <= c <= 'Z' then c as int - 'A' as int
               else if 'a' <= c <= 'z' then c as int - 'a' as int + 26
               else if '0' <= c <= '9' then c as int - '0' as int + 52
               else if c == '+' then 62 else if c == '/' then 63 else -1
  {
    hide IndexOf;
    var v := if 'A' <= c <= 'Z' then c as int - 'A' as int
             else if 'a' <= c <= 'z' then c as int - 'a' as int + 26
             else if '0' <= c <= '9' then c as int - '0' as int + 52
             else if c == '+' then 62 else if c == '/' then 63 else -1;
    RunLengths();
    if v != -1 {
      LetterIs(v);
      assert ALPHABET[v] == c;
    }
    if IndexOf(c) != -1 { LetterIs(IndexOf(c)); }
  }

  lemma IndexOfAlphabet(i: nat)
    requires i < 64
    ensures IndexOf(Letter(i)) == i
  {
    hide IndexOf, Letter;
    LetterIs(i);
    IndexOfIs(Letter(i));
  }

  // ---------------------------------------------------------------------------------------------
  // Encoding

  /** The number of sextets needed for n bytes, and the zero bits that fill the last one. */
  function SextetCount(n: nat): nat {
    (8 * n + 5) / 6
  }

  function FillBits(n: nat): nat {
    6 * SextetCount(n) - 8 * n
  }

  /** The text of k sextets is padded to a multiple of four characters. */
  function Padding(k: nat): string {
    seq((4 - k % 4) % 4, _ => '=')
  }

  function Text(sextets: seq<nat>): (s: string)
    requires AllBelow(sextets, 64)
  {
    seq(|sextets|, i requires 0 <= i < |sextets| => Letter(sextets[i]))
  }

  function Encode(bytes: seq<nat>): string {
    var k := SextetCount(|bytes|);
    Text(ToDigits(AppendZeros(Value(bytes, 256), FillBits(|bytes|)), 64, k)) + Padding(k)
  }

  /** The four sextets of a group of three bytes, as the encoder's operators compute them. */
  lemma GroupOperators(b0: nat, b1: nat, b2: nat)
    requires b0 < 256 && b1 < 256 && b2 < 256
    ensures Sar(b0, 2) == b0 / 4
    ensures Or(Shl(And(b0, 0x03), 4), 0) == b0 % 4 * 16
    ensures Or(Shl(And(b0, 0x03), 4), Sar(b1, 4)) == b0 % 4 * 16 + b1 / 16
    ensures Or(Shl(And(b1, 0x0f), 2), 0) == b1 % 16 * 4
    ensures Or(Shl(And(b1, 0x0f), 2), Sar(b2, 6)) == b1 % 16 * 4 + b2 / 64
    ensures And(b2, 0x3f) == b2 % 64
  {
    Pow2Small();
    AndLow(b0, 2);
    AndLow(b1, 4);
    AndLow(b2, 6);
    SarSmall(b0, 2);
    SarSmall(b1, 4);
    SarSmall(b2, 6);
    JoinSextet(b0 % 4, 0);
    JoinSextet(b0 % 4, b1 / 16);
    JoinSextet4(b1 % 16, 0);
    JoinSextet4(b1 % 16, b2 / 64);
  }

  lemma SarSmall(x: nat, n: nat)
    requires x < 256 && n < 32
    ensures Sar(x, n) == x / Pow2(n)
  {
    SmallIsFixed(x);
  }

  lemma JoinSextet(x: nat, v: nat)
    requires x < 4 && v < 16
    ensures Or(Shl(x, 4), v) == x * 16 + v
  {
    hide Or, Shl, ToInt32;
    Pow2Small();
    ShlOr(x, 4, v, x * 16 + v);
    SmallIsFixed(x * 16 + v);
  }

  lemma JoinSextet4(x: nat, v: nat)
    requires x < 16 && v < 4
    ensures Or(Shl(x, 2), v) == x * 4 + v
  {
    hide Or, Shl, ToInt32;
    Pow2Small();
    ShlOr(x, 2, v, x * 4 + v);
    SmallIsFixed(x * 4 + v);
  }

  /** Shifting a number left by whole sextets and adding g appends the sextets of g. */
  lemma AppendTwo(v: nat, k: nat, g: nat)
    requires g < 64 * 64
    ensures ToDigits(v * 4096 + g, 64, k + 2) == ToDigits(v, 64, k) + [g / 64, g % 64]
  {
    var x := v * 4096 + g;
    assert x / 64 == v * 64 + g / 64 && x / 64 / 64 == v;
    assert ToDigits(x, 64, k + 2) == ToDigits(x / 64, 64, k + 1) + [x % 64];
  }

  lemma AppendThree(v: nat, k: nat, g: nat)
    requires g < 64 * 64 * 64
    ensures ToDigits(v * 262144 + g, 64, k + 3)
            == ToDigits(v, 64, k) + [g / 4096, g / 64 % 64, g % 64]
  {
    var x := v * 262144 + g;
    assert x / 64 == v * 4096 + g / 64;
    AppendTwo(v, k, g / 64);
    assert ToDigits(x, 64, k + 3) == ToDigits(x / 64, 64, k + 2) + [x % 64];
  }

  lemma AppendFour(v: nat, k: nat, g: nat)
    requires g < 64 * 64 * 64 * 64
    ensures ToDigits(v * 16777216 + g, 64, k + 4)
            == ToDigits(v, 64, k) + [g / 262144, g / 4096 % 64, g / 64 % 64, g % 64]
  {
    var x := v * 16777216 + g;
    assert x / 64 == v * 262144 + g / 64;
    AppendThree(v, k, g / 64);
    assert ToDigits(x, 64, k + 4) == ToDigits(x / 64, 64, k + 3) + [x % 64];
  }

  lemma TextAppend(ds: seq<nat>, es: seq<nat>)
    requires AllBelow(ds, 64) && AllBelow(es, 64)
    ensures AllBelow(ds + es, 64)
    ensures Text(ds + es) == Text(ds) + Text(es)
  {
  }

  /** How much room m whole groups take, alone and followed by one or two bytes. */
  lemma WholeGroupCounts(m: nat)
    ensures SextetCount(3 * m) == 4 * m && FillBits(3 * m) == 0
    ensures Padding(4 * m) == ""
  {
    DivModUnique(8 * (3 * m) + 5, 6, 4 * m, 5);
    DivModUnique(4 * m, 4, m, 0);
  }

  lemma LastOneCounts(m: nat)
    ensures SextetCount(3 * m + 1) == 4 * m + 2 && FillBits(3 * m + 1) == 4
    ensures Padding(4 * m + 2) == "=="
  {
    DivModUnique(8 * (3 * m + 1) + 5, 6, 4 * m + 2, 1);
    DivModUnique(4 * m + 2, 4, m, 2);
  }

  lemma LastTwoCounts(m: nat)
    ensures SextetCount(3 * m + 2) == 4 * m + 3 && FillBits(3 * m + 2) == 2
    ensures Padding(4 * m + 3) == "="
  {
    DivModUnique(8 * (3 * m + 2) + 5, 6, 4 * m + 3, 3);
    DivModUnique(4 * m + 3, 4, m, 3);
  }

  lemma EncodeAs(p: seq<nat>, k: nat, f: nat, x: nat)
    requires SextetCount(|p|) == k && FillBits(|p|) == f
    requires AppendZeros(Value(p, 256), f) == x
    ensures Encode(p) == Text(ToDigits(x, 64, k)) + Padding(k)
  {
  }

  lemma EncodeWholeGroups(p: seq<nat>, m: nat)
    requires |p| == 3 * m
    ensures Encode(p) == Text(ToDigits(Value(p, 256), 64, 4 * m))
  {
    WholeGroupCounts(m);
    EncodeAs(p, 4 * m, 0, Value(p, 256));
  }

  lemma ValueOfTwo(p: seq<nat>, b0: nat, b1: nat)
    ensures Value(p + [b0, b1], 256) == Value(p, 256) * 65536 + (b0 * 256 + b1)
  {
    assert p + [b0, b1] == p + [b0] + [b1];
    ValueAppend(p, b0, 256);
    ValueAppend(p + [b0], b1, 256);
  }

  lemma ValueOfThree(p: seq<nat>, b0: nat, b1: nat, b2: nat)
    ensures Value(p + [b0, b1, b2], 256) == Value(p, 256) * 16777216 + (b0 * 65536 + b1 * 256 + b2)
  {
    assert p + [b0, b1, b2] == p + [b0, b1] + [b2];
    ValueOfTwo(p, b0, b1);
    ValueAppend(p + [b0, b1], b2, 256);
  }

  /** The sextets of a 24-bit group, byte by byte. */
  lemma GroupSextets(b0: nat, b1: nat, b2: nat, g: nat)
    requires b0 < 256 && b1 < 256 && b2 < 256
    requires g == b0 * 65536 + b1 * 256 + b2
    ensures g / 262144 == b0 / 4
    ensures g / 4096 % 64 == b0 % 4 * 16 + b1 / 16
    ensures g / 64 % 64 == b1 % 16 * 4 + b2 / 64
    ensures g % 64 == b2 % 64
  {
    var (h0, l0) := (b0 / 4, b0 % 4);
    var (h1, l1) := (b1 / 16, b1 % 16);
    var (h2, l2) := (b2 / 64, b2 % 64);
    assert g == h0 * 262144 + l0 * 65536 + h1 * 4096 + l1 * 256 + h2 * 64 + l2;
    assert g / 64 == h0 * 4096 + l0 * 1024 + h1 * 64 + l1 * 4 + h2;
    assert g / 4096 == h0 * 64 + l0 * 16 + h1;
  }

  lemma EncodeFullGroup(p: seq<nat>, m: nat, b0: nat, b1: nat, b2: nat)
    requires |p| == 3 * m
    requires b0 < 256 && b1 < 256 && b2 < 256
    ensures Encode(p + [b0, b1, b2])
            == Encode(p) + Text([b0 / 4, b0 % 4 * 16 + b1 / 16, b1 % 16 * 4 + b2 / 64, b2 % 64])
  {
    hide Encode, Text, Letter;
    var q := p + [b0, b1, b2];
    ValueOfThree(p, b0, b1, b2);
    EncodeWholeGroups(p, m);
    EncodeWholeGroups(q, m + 1);
    var g := b0 * 65536 + b1 * 256 + b2;
    AppendFour(Value(p, 256), 4 * m, g);
    GroupSextets(b0, b1, b2, g);
    TextAppend(ToDigits(Value(p, 256), 64, 4 * m),
               [b0 / 4, b0 % 4 * 16 + b1 / 16, b1 % 16 * 4 + b2 / 64, b2 % 64]);
  }

  lemma AppendZerosSmall(x: nat)
    ensures AppendZeros(x, 0) == x && AppendZeros(x, 2) == 4 * x && AppendZeros(x, 4) == 16 * x
  {
    assert AppendZeros(x, 2) == 2 * AppendZeros(x, 1);
    assert AppendZeros(x, 4) == 2 * AppendZeros(x, 3) && AppendZeros(x, 3) == 2 * AppendZeros(x, 2);
  }

  lemma ShortGroupSextets(b0: nat, b1: nat, g: nat)
    requires b0 < 256 && b1 < 256
    requires g == b0 * 1024 + b1 * 4
    ensures g / 4096 == b0 / 4
    ensures g / 64 % 64 == b0 % 4 * 16 + b1 / 16
    ensures g % 64 == b1 % 16 * 4
  {
    var (h0, l0) := (b0 / 4, b0 % 4);
    var (h1, l1) := (b1 / 16, b1 % 16);
    assert g == h0 * 4096 + l0 * 1024 + h1 * 64 + l1 * 4;
    assert g / 64 == h0 * 64 + l0 * 16 + h1;
  }

  lemma EncodeLastTwo(p: seq<nat>, m: nat, b0: nat, b1: nat)
    requires |p| == 3 * m
    requires b0 < 256 && b1 < 256
    ensures Encode(p + [b0, b1])
            == Encode(p) + (Text([b0 / 4, b0 % 4 * 16 + b1 / 16, b1 % 16 * 4]) + "=")
  {
    hide Encode, Text, Padding, Letter;
    var q, v, g := p + [b0, b1], Value(p, 256), b0 * 1024 + b1 * 4;
    ValueOfTwo(p, b0, b1);
    AppendZerosSmall(Value(q, 256));
    EncodeWholeGroups(p, m);
    LastTwoCounts(m);
    EncodeAs(q, 4 * m + 3, 2, v * 262144 + g);
    AppendThree(v, 4 * m, g);
    ShortGroupSextets(b0, b1, g);
    TextAppend(ToDigits(v, 64, 4 * m), [b0 / 4, b0 % 4 * 16 + b1 / 16, b1 % 16 * 4]);
  }

  lemma ByteSextets(b0: nat, g: nat)
    requires b0 < 256 && g == b0 * 16
    ensures g / 64 == b0 / 4 && g % 64 == b0 % 4 * 16
  {
  }

  lemma EncodeLastOne(p: seq<nat>, m: nat, b0: nat)
    requires |p| == 3 * m
    requires b0 < 256
    ensures Encode(p + [b0]) == Encode(p) + (Text([b0 / 4, b0 % 4 * 16]) + "==")
  {
    hide Encode, Text, Padding, Letter;
    var q, v := p + [b0], Value(p, 256);
    ValueAppend(p, b0, 256);
    AppendZerosSmall(Value(q, 256));
    EncodeWholeGroups(p, m);
    LastOneCounts(m);
    EncodeAs(q, 4 * m + 2, 4, v * 4096 + b0 * 16);
    AppendTwo(v, 4 * m, b0 * 16);
    ByteSextets(b0, b0 * 16);
    TextAppend(ToDigits(v, 64, 4 * m), [b0 / 4, b0 % 4 * 16]);
  }

  /** The bytes of a group that are there. */
  function Present(b0: nat, b1: Option<nat>, b2: Option<nat>): seq<nat> {
    [b0] + (if b1.Some? then [b1.value] else []) + (if b2.Some? then [b2.value] else [])
  }

  /** The four characters the encoder appends for one group continue the reference encoding. */
  lemma GroupCharacters(p: seq<nat>, m: nat, b0: nat, b1: Option<nat>, b2: Option<nat>,
                        x1: nat, x2: nat, x3: nat)
    requires |p| == 3 * m
    requires b0 < 256 && (b1.Some? ==> b1.value < 256) && (b2.Some? ==> b2.value < 256)
    requires b2.Some? ==> b1.Some?
    requires x1 == b0 % 4 * 16 + (if b1.Some? then b1.value / 16 else 0)
    requires b1.Some? ==> x2 == b1.value % 16 * 4 + (if b2.Some? then b2.value / 64 else 0)
    requires b2.Some? ==> x3 == b2.value % 64
    ensures Encode(p + Present(b0, b1, b2))
            == Encode(p) + [Letter(b0 / 4), Letter(x1), if b1.None? then '=' else Letter(x2),
                            if b2.None? then '=' else Letter(x3)]
  {
    hide Encode, Letter;
    if b2.Some? {
      EncodeFullGroup(p, m, b0, b1.value, b2.value);
      assert Present(b0, b1, b2) == [b0, b1.value, b2.value];
    } else if b1.Some? {
      EncodeLastTwo(p, m, b0, b1.value);
      assert Present(b0, b1, b2) == [b0, b1.value];
    } else {
      EncodeLastOne(p, m, b0);
      assert Present(b0, b1, b2) == [b0];
    }
  }

  /** The prefix before group m, followed by the bytes of that group, is the next prefix. */
  lemma NextPrefix(bytes: seq<nat>, i: nat, b0: nat, b1: Option<nat>, b2: Option<nat>)
    requires i < |bytes| && b0 == bytes[i]
    requires b1 == if i + 1 < |bytes| then Some(bytes[i + 1]) else None
    requires b2 == if i + 2 < |bytes| then Some(bytes[i + 2]) else None
    ensures (if i + 3 <= |bytes| then bytes[..i + 3] else bytes) == bytes[..i] + Present(b0, b1, b2)
  {
  }

  method BytesToBase64(bytes: seq<nat>) returns (result: string)
    requires AllBelow(bytes, 256)
    ensures result == Encode(bytes)
  {
    hide Or, Shl, And, Sar, Encode, Present, Letter;
    result := "";
    EncodeWholeGroups([], 0);
    var i := 0;
    ghost var m := 0;
    while i < |bytes|
      invariant i == 3 * m
      invariant result == Encode(if i <= |bytes| then bytes[..i] else bytes)
    {
      var b0 := bytes[i];
      var b1 := if i + 1 < |bytes| then Some(bytes[i + 1]) else None;
      var b2 := if i + 2 < |bytes| then Some(bytes[i + 2]) else None;

      GroupOperators(b0, if b1.Some? then b1.value else 0, if b2.Some? then b2.value else 0);
      var x1 := Or(Shl(And(b0, 0x03), 4), if b1.None? then 0 else Sar(b1.value, 4));
      var x2 := if b1.None? then 0 else Or(Shl(And(b1.value, 0x0f), 2), if b2.None? then 0 else Sar(b2.value, 6));
      var x3 := if b2.None? then 0 else And(b2.value, 0x3f);
      GroupCharacters(bytes[..i], m, b0, b1, b2, x1, x2, x3);
      NextPrefix(bytes, i, b0, b1, b2);
      result := result + [Letter(Sar(b0, 2)), Letter(x1), if b1.None? then '=' else Letter(x2),
                          if b2.None? then '=' else Letter(x3)];
      i := i + 3;
      m := m + 1;
    }
    assert bytes[..|bytes|] == bytes;
  }

  // ---------------------------------------------------------------------------------------------
  // Decoding

  /** The sextets a text carries: characters outside the alphabet carry none. */
  function Sextets(s: string): (vs: seq<nat>)
    ensures AllBelow(vs, 64)
  {
    if s == "" then []
    else
      var rest, v := Sextets(s[..|s| - 1]), IndexOf(s[|s| - 1]);
      if v == -1 then rest else rest + [v]
  }

  /** Of the 6k bits of k sextets, the whole octets and the bits left over. */
  function Octets(k: nat): nat {
    6 * k / 8
  }

  function Pending(k: nat): nat {
    6 * k % 8
  }

  /** Reference decoder: the whole octets at the front of the concatenated sextets. */
  function Decode(s: string): (bytes: seq<nat>)
    ensures AllBelow(bytes, 256)
  {
    var vs := Sextets(s);
    ToDigits(DropBits(Value(vs, 64), Pending(|vs|)), 256, Octets(|vs|))
  }

  /** The decoder's variables between two characters. */
  datatype Decoder = Decoder(buffer: int, bitsCollected: int, bytes: seq<int>)

  /** One alphabet character, on the 32-bit buffer the program has. */
  function Push32(d: Decoder, value: nat): Decoder
    requires 0 <= d.bitsCollected < 26
  {
    var buffer := Or(Shl(d.buffer, 6), value);
    if d.bitsCollected + 6 >= 8 then
      Decoder(buffer, d.bitsCollected - 2, d.bytes + [And(Sar(buffer, d.bitsCollected - 2), 0xff)])
    else
      Decoder(buffer, d.bitsCollected + 6, d.bytes)
  }

  /** The same on a buffer that never overflows. */
  function PushWide(d: Decoder, value: nat): Decoder
    requires 0 <= d.bitsCollected && 0 <= d.buffer
  {
    var buffer := d.buffer * 64 + value;
    if d.bitsCollected + 6 >= 8 then
      Decoder(buffer, d.bitsCollected - 2, d.bytes + [DropBits(buffer, d.bitsCollected - 2) % 256])
    else
      Decoder(buffer, d.bitsCollected + 6, d.bytes)
  }

  function Run32(vs: seq<nat>): (d: Decoder)
    ensures 0 <= d.bitsCollected < 8
  {
    if vs == [] then Decoder(0, 0, []) else Push32(Run32(vs[..|vs| - 1]), vs[|vs| - 1])
  }

  function RunWide(vs: seq<nat>): (d: Decoder)
    ensures 0 <= d.bitsCollected < 8 && 0 <= d.buffer
  {
    if vs == [] then Decoder(0, 0, []) else PushWide(RunWide(vs[..|vs| - 1]), vs[|vs| - 1])
  }

  lemma PendingCases(j: nat)
    ensures Pending(4 * j) == 0 && Octets(4 * j) == 3 * j
    ensures Pending(4 * j + 1) == 6 && Octets(4 * j + 1) == 3 * j
    ensures Pending(4 * j + 2) == 4 && Octets(4 * j + 2) == 3 * j + 1
    ensures Pending(4 * j + 3) == 2 && Octets(4 * j + 3) == 3 * j + 2
  {
    DivModUnique(6 * (4 * j), 8, 3 * j, 0);
    DivModUnique(6 * (4 * j + 1), 8, 3 * j, 6);
    DivModUnique(6 * (4 * j + 2), 8, 3 * j + 1, 4);
    DivModUnique(6 * (4 * j + 3), 8, 3 * j + 2, 2);
  }

  lemma PendingNext(k: nat)
    ensures Pending(k) in {0, 2, 4, 6}
    ensures Pending(k) == 0 ==> Pending(k + 1) == 6 && Octets(k + 1) == Octets(k)
    ensures Pending(k) != 0 ==> Pending(k + 1) == Pending(k) - 2 && Octets(k + 1) == Octets(k) + 1
  {
    PendingCases(k / 4);
    PendingCases(k / 4 + 1);
  }

  /** After k characters the unbounded decoder holds their number, 6k mod 8 pending bits, and the
      octets of everything but the pending bits. */
  lemma {:induction false} RunWideIsReference(vs: seq<nat>)
    requires AllBelow(vs, 64)
    ensures RunWide(vs) == Reference(Value(vs, 64), |vs|)
  {
    if vs == [] {
    } else {
      var init, v := vs[..|vs| - 1], vs[|vs| - 1];
      RunWideIsReference(init);
      PushWideIsReference(Value(init, 64), |init|, v);
    }
  }

  function Reference(n: nat, k: nat): Decoder {
    Decoder(n, Pending(k), ToDigits(DropBits(n, Pending(k)), 256, Octets(k)))
  }

  lemma PushWideIsReference(n: nat, k: nat, v: nat)
    requires v < 64
    ensures PushWide(Reference(n, k), v) == Reference(n * 64 + v, k + 1)
  {
    PendingNext(k);
    ShiftOut(n, v, Pending(k));
  }

  /** The bits above the pending ones are those of the number before the character came in. */
  lemma ShiftOut(n: nat, v: nat, b: nat)
    requires v < 64 && b in {0, 2, 4, 6}
    ensures b == 0 ==> DropBits(n * 64 + v, 6) == DropBits(n, 0)
    ensures b != 0 ==> DropBits(n * 64 + v, b - 2) / 256 == DropBits(n, b)
  {
    DropSmall(n * 64 + v);
    DropSmall(n);
  }

  lemma DropSmall(x: nat)
    ensures DropBits(x, 0) == x && DropBits(x, 2) == x / 4
    ensures DropBits(x, 4) == x / 16 && DropBits(x, 6) == x / 64
  {
    assert DropBits(x, 2) == DropBits(x, 1) / 2;
    assert DropBits(x, 4) == DropBits(x, 3) / 2 && DropBits(x, 3) == DropBits(x, 2) / 2;
    assert DropBits(x, 6) == DropBits(x, 5) / 2 && DropBits(x, 5) == DropBits(x, 4) / 2;
  }

  /** The 32-bit decoder pushes the same bytes as the unbounded one: whatever `buffer << 6` drops
      was already pushed. Between characters 0, 2, 4 or 6 bits are pending. */
  lemma {:induction false} Run32RefinesWide(vs: seq<nat>)
    requires AllBelow(vs, 64)
    ensures Run32(vs) == RunWide(vs).(buffer := ToInt32(RunWide(vs).buffer))
    ensures Run32(vs).bitsCollected in {0, 2, 4, 6}
    ensures |Run32(vs).bytes| == Octets(|vs|)
  {
    hide Push32, PushWide, Pending, Octets;
    RunWideIsReference(vs);
    PendingNext(|vs|);
    if vs == [] {
    } else {
      var init, v := vs[..|vs| - 1], vs[|vs| - 1];
      Run32RefinesWide(init);
      Push32RefinesWide(RunWide(init), v);
    }
  }

  lemma Push32RefinesWide(d: Decoder, v: nat)
    requires v < 64 && d.bitsCollected in {0, 2, 4, 6} && 0 <= d.buffer
    ensures Push32(d.(buffer := ToInt32(d.buffer)), v)
            == PushWide(d, v).(buffer := ToInt32(d.buffer * 64 + v))
    ensures PushWide(d, v).buffer == d.buffer * 64 + v
  {
    hide Or, Shl, And, Sar, ToInt32;
    var n := d.buffer * 64 + v;
    Pow2Small();
    ToInt32Linear(64, d.buffer, v);
    ShlOr(ToInt32(d.buffer), 6, v, ToInt32(d.buffer) * 64 + v);
    if d.bitsCollected >= 2 {
      PushedByte(n, d.bitsCollected - 2);
    }
  }

  lemma PushedByte(n: nat, b: nat)
    requires b in {0, 2, 4}
    ensures And(Sar(ToInt32(n), b), 0xff) == DropBits(n, b) % 256
  {
    Pow2Small();
    assert Pow2(0) == 1;
    SarAndLow(n, b, 8);
    DropSmall(n);
  }

  /** `base64.replace(/=+$/, "")`. */
  function StripPadding(s: string): string {
    if s != "" && s[|s| - 1] == '=' then StripPadding(s[..|s| - 1]) else s
  }

  lemma {:induction false} StripKeepsSextets(s: string)
    ensures Sextets(StripPadding(s)) == Sextets(s)
  {
    if s != "" && s[|s| - 1] == '=' {
      StripKeepsSextets(s[..|s| - 1]);
      NotInAlphabet('=');
    }
  }

  lemma NotInAlphabet(c: char)
    requires c == '='
    ensures IndexOf(c) == -1
  {
    IndexOfIs(c);
  }

  /** What one more character does to the decoder. */
  lemma RunOneMore(s: string, i: nat)
    requires i < |s|
    ensures var (d, v) := (Run32(Sextets(s[..i])), IndexOf(s[i]));
            Run32(Sextets(s[..i + 1])) == if v == -1 then d else Push32(d, v)
  {
    hide Push32, IndexOf;
    assert s[..i + 1][..i] == s[..i];
    var vs, v := Sextets(s[..i]), IndexOf(s[i]);
    if v != -1 {
      assert Sextets(s[..i + 1]) == vs + [v];
      assert (vs + [v])[..|vs|] == vs;
    }
  }

  method Base64ToBytes(base64: string) returns (bytes: seq<int>)
    ensures bytes == Decode(base64)
  {
    hide Or, Shl, And, Sar, Run32, Sextets, IndexOf, Decode, StripPadding;
    var clean := StripPadding(base64);
    bytes := [];
    var buffer := 0;
    var bitsCollected := 0;
    RunNothing();
    for i := 0 to |clean|
      invariant Decoder(buffer, bitsCollected, bytes) == Run32(Sextets(clean[..i]))
    {
      RunOneMore(clean, i);
      var value := IndexOf(clean[i]);
      if value == -1 { continue; }
      buffer := Or(Shl(buffer, 6), value);
      bitsCollected := bitsCollected + 6;
      if bitsCollected >= 8 {
        bitsCollected := bitsCollected - 8;
        bytes := bytes + [And(Sar(buffer, bitsCollected), 0xff)];
      }
    }
    assert clean[..|clean|] == clean;
    RunIsDecode(base64, clean);
  }

  lemma RunNothing()
    ensures Run32(Sextets("")) == Decoder(0, 0, [])
  {
  }

  lemma RunIsDecode(base64: string, clean: string)
    requires clean == StripPadding(base64)
    ensures Run32(Sextets(clean)).bytes == Decode(base64)
  {
    StripKeepsSextets(base64);
    Run32RefinesWide(Sextets(clean));
    RunWideIsReference(Sextets(clean));
  }

  // ---------------------------------------------------------------------------------------------
  // Theorems

  /** Characters outside the alphabet are ignored, wherever they stand. */
  lemma {:induction false} NoiseIsIgnored(a: string, c: char, b: string)
    requires c !in ALPHABET
    ensures Decode(a + [c] + b) == Decode(a + b)
  {
    NoiseCarriesNothing(a, c, b);
  }

  lemma {:induction false} NoiseCarriesNothing(a: string, c: char, b: string)
    requires c !in ALPHABET
    ensures Sextets(a + [c] + b) == Sextets(a + b)
  {
    if b == "" {
      assert (a + [c] + b)[..|a|] == a == a + b;
    } else {
      var b' := b[..|b| - 1];
      assert (a + [c] + b)[..|a + [c] + b| - 1] == a + [c] + b';
      assert (a + b)[..|a + b| - 1] == a + b';
      NoiseCarriesNothing(a, c, b');
    }
  }

  /** k alphabet characters decode to floor(6k / 8) bytes. */
  lemma {:induction false} DecodedLength(s: string)
    requires forall i | 0 <= i < |s| :: s[i] in ALPHABET
    ensures |Decode(s)| == 6 * |s| / 8
  {
    AllCarry(s);
  }

  lemma {:induction false} AllCarry(s: string)
    requires forall i | 0 <= i < |s| :: s[i] in ALPHABET
    ensures |Sextets(s)| == |s|
  {
    if s != "" { AllCarry(s[..|s| - 1]); }
  }

  lemma {:induction false} SextetsOfText(vs: seq<nat>)
    requires AllBelow(vs, 64)
    ensures Sextets(Text(vs)) == vs
  {
    if vs != [] {
      hide IndexOf, Letter;
      var init, v := vs[..|vs| - 1], vs[|vs| - 1];
      SextetsOfText(init);
      assert Text(vs)[..|vs| - 1] == Text(init);
      IndexOfAlphabet(v);
    }
  }

  lemma {:induction false} SextetsOfPadding(s: string, n: nat)
    ensures Sextets(s + seq(n, _ => '=')) == Sextets(s)
  {
    var t := s + seq(n, _ => '=');
    if n == 0 {
      assert t == s;
    } else {
      assert t[..|t| - 1] == s + seq(n - 1, _ => '=');
      SextetsOfPadding(s, n - 1);
      NotInAlphabet('=');
    }
  }

  lemma SextetsOfEncoding(vs: seq<nat>)
    requires AllBelow(vs, 64)
    ensures Sextets(Text(vs) + Padding(|vs|)) == vs
  {
    SextetsOfText(vs);
    SextetsOfPadding(Text(vs), (4 - |vs| % 4) % 4);
  }

  /** A number of at most k digits is the value of those k digits, in both bases used here. */
  lemma {:induction false} ValueOfDigits(x: nat, base: nat, k: nat)
    requires base == 64 || base == 256
    requires x < Pow(base, k)
    ensures Value(ToDigits(x, base, k), base) == x
  {
    if k == 0 {
    } else if base == 64 {
      ValueOfDigits(x / 64, 64, k - 1);
      ValueAppend(ToDigits(x / 64, 64, k - 1), x % 64, 64);
    } else {
      ValueOfDigits(x / 256, 256, k - 1);
      ValueAppend(ToDigits(x / 256, 256, k - 1), x % 256, 256);
    }
  }

  lemma {:induction false} DropUndoesAppend(x: nat, n: nat)
    ensures DropBits(AppendZeros(x, n), n) == x
  {
    if n > 0 {
      DropUndoesAppend(x, n - 1);
      DropOfDouble(AppendZeros(x, n - 1), n - 1);
    }
  }

  lemma {:induction false} DropOfDouble(x: nat, n: nat)
    ensures DropBits(2 * x, n + 1) == DropBits(x, n)
  {
    if n > 0 { DropOfDouble(x, n - 1); }
  }

  /** n bytes extended by the fill bits fit the sextets that carry them. */
  lemma EncodedNumberFits(v: nat, n: nat)
    requires v < Pow(256, n)
    ensures AppendZeros(v, FillBits(n)) < Pow(64, SextetCount(n))
  {
    hide SextetCount, FillBits;
    FitsGroup(v, n / 3);
    assert n == 3 * (n / 3) || n == 3 * (n / 3) + 1 || n == 3 * (n / 3) + 2;
  }

  lemma FitsGroup(v: nat, m: nat)
    ensures v < Pow(256, 3 * m) ==> AppendZeros(v, FillBits(3 * m)) < Pow(64, SextetCount(3 * m))
    ensures v < Pow(256, 3 * m + 1) ==>
              AppendZeros(v, FillBits(3 * m + 1)) < Pow(64, SextetCount(3 * m + 1))
    ensures v < Pow(256, 3 * m + 2) ==>
              AppendZeros(v, FillBits(3 * m + 2)) < Pow(64, SextetCount(3 * m + 2))
  {
    hide SextetCount, FillBits;
    PowOfGroups(m);
    AppendZerosSmall(v);
    WholeGroupCounts(m);
    LastOneCounts(m);
    LastTwoCounts(m);
    PowSteps(256, 3 * m);
    PowSteps(64, 4 * m);
  }

  lemma PowSteps(base: nat, n: nat)
    requires base == 64 || base == 256
    ensures Pow(base, n + 1) == base * Pow(base, n)
    ensures base == 256 ==> Pow(base, n + 2) == 65536 * Pow(base, n) && Pow(base, n + 3) == 16777216 * Pow(base, n)
    ensures base == 64 ==> Pow(base, n + 2) == 4096 * Pow(base, n) && Pow(base, n + 3) == 262144 * Pow(base, n)
    ensures base == 64 ==> Pow(base, n + 4) == 16777216 * Pow(base, n)
  {
    assert Pow(base, n + 2) == base * Pow(base, n + 1);
    assert Pow(base, n + 3) == base * Pow(base, n + 2);
    assert Pow(base, n + 4) == base * Pow(base, n + 3);
  }

  lemma {:induction false} PowOfGroups(m: nat)
    ensures Pow(256, 3 * m) == Pow(64, 4 * m)
  {
    if m > 0 {
      PowOfGroups(m - 1);
      PowSteps(256, 3 * (m - 1));
      PowSteps(64, 4 * (m - 1));
    }
  }

  /** The sextet count of n bytes leaves exactly the fill bits pending. */
  lemma CountsInvert(n: nat)
    ensures Pending(SextetCount(n)) == FillBits(n) && Octets(SextetCount(n)) == n
  {
    var m := n / 3;
    PendingCases(m);
    if n == 3 * m {
      WholeGroupCounts(m);
    } else if n == 3 * m + 1 {
      LastOneCounts(m);
    } else {
      LastTwoCounts(m);
    }
  }

  /** Decoding an encoding returns the bytes, for every byte sequence. */
  lemma {:induction false} RoundTrip(bytes: seq<nat>)
    requires AllBelow(bytes, 256)
    ensures Decode(Encode(bytes)) == bytes
  {
    var n, v := |bytes|, Value(bytes, 256);
    var x, k := AppendZeros(v, FillBits(n)), SextetCount(n);
    DigitsOfValue(bytes, 256);
    EncodedNumberFits(v, n);
    ValueOfDigits(x, 64, k);
    SextetsOfEncoding(ToDigits(x, 64, k));
    CountsInvert(n);
    DropUndoesAppend(v, FillBits(n));
  }

  /** The texts an encoder may produce (sections 3.2 and 3.5 of RFC 4648): no foreign characters,
      the right padding, no lone sextet, and zero bits after the last octet. */
  predicate Canonical(s: string) {
    var vs := Sextets(s);
    var p := Pending(|vs|);
    && p != 6
    && AppendZeros(DropBits(Value(vs, 64), p), p) == Value(vs, 64)
    && s == Text(vs) + Padding(|vs|)
  }

  /** Encoding a decoded text gives the text back exactly when the text is canonical. */
  lemma {:induction false} ReencodesIffCanonical(s: string)
    ensures Encode(Decode(s)) == s <==> Canonical(s)
  {
    var vs := Sextets(s);
    var p, n := Pending(|vs|), Octets(|vs|);
    var x := DropBits(Value(vs, 64), p);
    DecodedNumber(vs);
    CountsAgree(|vs|);
    DigitsOfValue(vs, 64);
    if p != 6 {
      if AppendZeros(x, p) == Value(vs, 64) {
        assert Encode(Decode(s)) == Text(vs) + Padding(|vs|);
      }
    }
    if Encode(Decode(s)) == s {
      var k := SextetCount(n);
      SextetsOfEncoding(ToDigits(AppendZeros(x, FillBits(n)), 64, k));
      assert |vs| == k && p == FillBits(n);
      EncodedNumberFits(x, n);
      ValueOfDigits(AppendZeros(x, p), 64, k);
    }
  }

  /** The decoded bytes, as a number, are the sextets without the pending bits. */
  lemma DecodedNumber(vs: seq<nat>)
    requires AllBelow(vs, 64)
    ensures var x := DropBits(Value(vs, 64), Pending(|vs|));
            && x < Pow(256, Octets(|vs|))
            && Value(ToDigits(x, 256, Octets(|vs|)), 256) == x
  {
    hide Pending, Octets, Value, ToDigits, Pow, DropBits;
    var k, j, r := |vs|, |vs| / 4, |vs| % 4;
    assert k == 4 * j + r;
    DigitsOfValue(vs, 64);
    KeptFits(Value(vs, 64), j, r);
    ValueOfDigits(DropBits(Value(vs, 64), Pending(k)), 256, Octets(k));
  }

  lemma KeptFits(v: nat, j: nat, r: nat)
    requires r < 4 && v < Pow(64, 4 * j + r)
    ensures DropBits(v, Pending(4 * j + r)) < Pow(256, Octets(4 * j + r))
  {
    hide Pending, Octets, Pow, DropBits;
    PendingCases(j);
    PowOfGroups(j);
    PowSteps(64, 4 * j);
    PowSteps(256, 3 * j);
    DropSmall(v);
    if r == 0 {
    } else if r == 1 {
    } else if r == 2 {
    }
  }

  /** A sextet count comes from a byte count unless its last sextet is alone. */
  lemma CountsAgree(k: nat)
    ensures Pending(k) != 6 <==> SextetCount(Octets(k)) == k
    ensures Pending(k) != 6 ==> FillBits(Octets(k)) == Pending(k)
  {
    hide Pending, Octets, SextetCount, FillBits;
    var j := k / 4;
    assert k == 4 * j || k == 4 * j + 1 || k == 4 * j + 2 || k == 4 * j + 3;
    PendingCases(j);
    WholeGroupCounts(j);
    LastOneCounts(j);
    LastTwoCounts(j);
  }

  /** Two bytes whose text uses both symbols of the alphabet, there and back. */
  lemma SymbolsExample()
    ensures Encode([]) == ""
    ensures Encode([251, 255]) == "+/8="
    ensures Decode("+/8=") == [251, 255]
  {
    hide Encode, Letter, Decode;
    EncodeWholeGroups([], 0);
    assert Text([]) == "";
    GroupCharacters([], 0, 251, Some(255), None, 63, 60, 0);
    assert [] + Present(251, Some(255), None) == [251, 255];
    LetterIs(62);
    LetterIs(63);
    LetterIs(60);
    RoundTrip([251, 255]);
  }
}
