/** The PIN checks of the server (backend/app/core/security.py:65-91) and of the mobile client
    (apps/mobile/lib/validation.ts:22-56), which are meant to mirror each other, and the two gates
    built from them (backend/app/domain/onboarding/service.py:374-380,
    apps/mobile/app/onboarding/set-code.tsx:21-24).

    The server's digits are those of Python 3.12, the interpreter of backend/Dockerfile:5, that is of
    version 15.0 of the Unicode Character Database. */
module Pins {
  import opened Options

  const COMMON_WEAK_PINS: set<string> := {
    "000000", "111111", "222222", "333333", "444444", "555555", "666666", "777777", "888888", "999999",
    "123456", "654321", "123123", "112233", "121212", "010203", "202020"
  }

  const PIN_LENGTH: nat := 6

  // ---------------------------------------------------------------------------------------------
  // Digits

  /** The zeros of the scripts with decimal digits; the digits 1 to 9 follow each zero. */
  predicate IsDecimalZero(code: int) {
    code in {
      0x30, 0x660, 0x6F0, 0x7C0, 0x966, 0x9E6, 0xA66, 0xAE6, 0xB66, 0xBE6, 0xC66, 0xCE6, 0xD66, 0xDE6,
      0xE50, 0xED0, 0xF20, 0x1040, 0x1090, 0x17E0, 0x1810, 0x1946, 0x19D0, 0x1A80, 0x1A90, 0x1B50,
      0x1BB0, 0x1C40, 0x1C50, 0xA620, 0xA8D0, 0xA900, 0xA9D0, 0xA9F0, 0xAA50, 0xABF0, 0xFF10, 0x104A0,
      0x10D30, 0x11066, 0x110F0, 0x11136, 0x111D0, 0x112F0, 0x11450, 0x114D0, 0x11650, 0x116C0, 0x11730,
      0x118E0, 0x11950, 0x11C50, 0x11D50, 0x11DA0, 0x11F50, 0x16A60, 0x16AC0, 0x16B50, 0x1D7CE, 0x1D7D8,
      0x1D7E2, 0x1D7EC, 0x1D7F6, 0x1E140, 0x1E2F0, 0x1E4F0, 0x1E950, 0x1FBF0
    }
  }

  /** The other characters with a digit value: superscripts, circled digits and the like. */
  predicate IsOtherDigit(code: int) {
    || 0xB2 <= code <= 0xB3 || code == 0xB9 || 0x1369 <= code <= 0x1371 || code == 0x19DA
    || code == 0x2070 || 0x2074 <= code <= 0x2079 || 0x2080 <= code <= 0x2089
    || 0x2460 <= code <= 0x2468 || 0x2474 <= code <= 0x247C || 0x2488 <= code <= 0x2490
    || code == 0x24EA || 0x24F5 <= code <= 0x24FD || code == 0x24FF
    || 0x2776 <= code <= 0x277E || 0x2780 <= code <= 0x2788 || 0x278A <= code <= 0x2792
    || 0x10A40 <= code <= 0x10A43 || 0x10E60 <= code <= 0x10E68 || 0x11052 <= code <= 0x1105A
    || 0x1F100 <= code <= 0x1F10A
  }

  /** The distance to the nearest zero at most 9 - d places further down, d being passed already. */
  function DecimalFrom(code: int, d: nat): (r: Option<nat>)
    requires d <= 9
    ensures r.Some? ==> d <= r.value <= 9
    decreases 9 - d
  {
    if IsDecimalZero(code - d) then Some(d)
    else if d == 9 then None
    else DecimalFrom(code, d + 1)
  }

  /** `int(c)`: the value of a decimal digit of any script; None is the ValueError. */
  function Int(c: char): (d: Option<nat>)
    ensures d.Some? ==> d.value <= 9
  {
    DecimalFrom(c as int, 0)
  }

  /** `c.isdigit()`: decimal digits and the others. */
  predicate IsDigit(c: char) {
    Int(c).Some? || IsOtherDigit(c as int)
  }

  predicate IsAsciiDigit(c: char) {
    '0' <= c <= '9'
  }

  predicate AllDigits(s: string) {
    forall i | 0 <= i < |s| :: IsDigit(s[i])
  }

  predicate AllDecimal(s: string) {
    forall i | 0 <= i < |s| :: Int(s[i]).Some?
  }

  predicate AsciiDigits(s: string) {
    forall i | 0 <= i < |s| :: IsAsciiDigit(s[i])
  }

  lemma AsciiIsDecimal(c: char)
    requires IsAsciiDigit(c)
    ensures Int(c) == Some(c as int - '0' as int)
  {
    LowZeros();
    hide IsDecimalZero;
    DecimalIs(c as int, 0, 0x30);
  }

  lemma LowZeros()
    ensures IsDecimalZero(0x30) && IsDecimalZero(0x660)
    ensures forall z :: IsDecimalZero(z) && z < 0x66A ==> z == 0x30 || z == 0x660
  {
  }

  lemma {:induction false} DecimalIs(code: int, d: nat, zero: int)
    requires IsDecimalZero(zero) && 0 <= d <= code - zero <= 9
    requires forall z :: IsDecimalZero(z) && zero - 9 <= z <= zero + 9 ==> z == zero
    ensures DecimalFrom(code, d) == Some(code - zero)
    decreases 9 - d
  {
    hide IsDecimalZero;
    if !IsDecimalZero(code - d) { DecimalIs(code, d + 1, zero); }
  }

  /** The values of the characters, each of them a decimal digit. */
  function Values(s: string): (ds: seq<nat>)
    requires AllDecimal(s)
    ensures |ds| == |s| && forall i | 0 <= i < |s| :: ds[i] <= 9 && Int(s[i]) == Some(ds[i])
  {
    if s == "" then [] else [Int(s[0]).value] + Values(s[1..])
  }

  // ---------------------------------------------------------------------------------------------
  // The server

  datatype Weakness = Raised | Weak(weak: bool)

  /** `len(pin) == PIN_LENGTH and pin.isdigit()`. */
  predicate ValidPinServer(pin: string) {
    |pin| == PIN_LENGTH && AllDigits(pin)
  }

  /** `[int(d) for d in pin]`: None once a character is not a decimal digit. */
  function Parse(pin: string): Option<seq<nat>> {
    if pin == "" then Some([])
    else if Int(pin[0]).None? then None
    else
      var rest := Parse(pin[1..]);
      if rest.None? then None else Some([Int(pin[0]).value] + rest.value)
  }

  /** `all(b - a == step for a, b in zip(digits, digits[1:]))`. */
  predicate PairsStep(digits: seq<nat>, step: int) {
    |digits| < 2 || (digits[1] as int - digits[0] as int == step && PairsStep(digits[1..], step))
  }

  function IsWeakPinServer(pin: string): Weakness {
    if pin in COMMON_WEAK_PINS then Weak(true)
    else
      match Parse(pin)
      case None => Raised
      case Some(digits) => Weak(PairsStep(digits, 1) || PairsStep(digits, -1))
  }

  datatype Verdict = NotSixDigits | TooEasy | Crashed | Accepted

  function ServerGate(pin: string): Verdict {
    if !ValidPinServer(pin) then NotSixDigits
    else
      match IsWeakPinServer(pin)
      case Raised => Crashed
      case Weak(weak) => if weak then TooEasy else Accepted
  }

  // The client

  /** `/^\d{6}$/`. */
  predicate ValidPinClient(pin: string) {
    |pin| == PIN_LENGTH && AsciiDigits(pin)
  }

  /** `digits.every((d, i) => i === 0 || d === digits[i - 1] + step)`. */
  predicate EveryStep(digits: seq<nat>, step: int) {
    forall i | 0 <= i < |digits| :: i == 0 || digits[i] == digits[i - 1] + step
  }

  /** `Number` of each character. */
  function Numbers(pin: string): (digits: seq<nat>)
    requires AsciiDigits(pin)
  {
    seq(|pin|, i requires 0 <= i < |pin| => pin[i] as int - '0' as int)
  }

  predicate IsWeakPinClient(pin: string)
    requires AsciiDigits(pin)
  {
    if pin in COMMON_WEAK_PINS then true
    else var digits := Numbers(pin); EveryStep(digits, 1) || EveryStep(digits, -1)
  }

  predicate ClientGate(pin: string) {
    ValidPinClient(pin) && !IsWeakPinClient(pin)
  }

  // ---------------------------------------------------------------------------------------------
  // What the two step checks mean

  /** Digit i is the first digit plus i steps. */
  predicate IsRun(digits: seq<nat>, step: int) {
    forall i | 0 <= i < |digits| :: digits[i] == digits[0] + i * step
  }

  predicate Sequential(digits: seq<nat>) {
    IsRun(digits, 1) || IsRun(digits, -1)
  }

  lemma {:induction false} PairsAreRun(digits: seq<nat>, step: int)
    requires step == 1 || step == -1
    ensures PairsStep(digits, step) <==> IsRun(digits, step)
  {
    if |digits| >= 2 {
      var rest := digits[1..];
      PairsAreRun(rest, step);
      if IsRun(digits, step) {
        forall i | 0 <= i < |rest| ensures rest[i] == rest[0] + i * step {
          assert rest[i] == digits[i + 1];
        }
      }
      if PairsStep(digits, step) {
        forall i | 0 <= i < |digits| ensures digits[i] == digits[0] + i * step {
          if i > 0 { assert digits[i] == rest[i - 1]; }
        }
      }
    }
  }

  lemma {:induction false} EveryIsRun(digits: seq<nat>, step: int, n: nat)
    requires step == 1 || step == -1
    requires EveryStep(digits, step) && n < |digits|
    ensures digits[n] == digits[0] + n * step
  {
    if n > 0 {
      EveryIsRun(digits, step, n - 1);
    }
  }

  lemma StepsAgree(digits: seq<nat>, step: int)
    requires step == 1 || step == -1
    ensures PairsStep(digits, step) <==> EveryStep(digits, step)
    ensures PairsStep(digits, step) <==> IsRun(digits, step)
  {
    PairsAreRun(digits, step);
    if EveryStep(digits, step) {
      forall n | 0 <= n < |digits| ensures digits[n] == digits[0] + n * step {
        EveryIsRun(digits, step, n);
      }
    }
    if IsRun(digits, step) {
      forall i | 1 <= i < |digits| ensures digits[i] == digits[i - 1] + step {
        assert digits[i] == digits[0] + i * step;
        assert digits[i - 1] == digits[0] + (i - 1) * step;
      }
    }
  }

  // ---------------------------------------------------------------------------------------------
  // The server on every string

  lemma {:induction false} ParseIff(pin: string)
    ensures Parse(pin).Some? <==> AllDecimal(pin)
    ensures AllDecimal(pin) ==> Parse(pin) == Some(Values(pin))
  {
    if pin != "" {
      ParseIff(pin[1..]);
      if AllDecimal(pin[1..]) && Int(pin[0]).Some? {
        forall i | 0 <= i < |pin| ensures Int(pin[i]).Some? {
          if i > 0 { assert pin[i] == pin[1..][i - 1]; }
        }
      }
    }
  }

  lemma ListedAreAscii(pin: string)
    requires pin in COMMON_WEAK_PINS
    ensures AsciiDigits(pin) && |pin| == PIN_LENGTH
  {
  }

  lemma AsciiAreDecimal(pin: string)
    requires AsciiDigits(pin)
    ensures AllDecimal(pin) && AllDigits(pin) && Values(pin) == Numbers(pin)
  {
    forall i | 0 <= i < |pin|
      ensures Int(pin[i]) == Some(pin[i] as int - '0' as int) && IsDigit(pin[i])
    {
      AsciiIsDecimal(pin[i]);
    }
  }

  /** `is_weak_pin` on any string: it raises exactly when the string is unlisted and holds a character
      that is not a decimal digit of some script, and otherwise tells listed strings and arithmetic
      runs of digit values from the rest. */
  lemma WeakServerIff(pin: string)
    ensures IsWeakPinServer(pin) == Raised <==> !AllDecimal(pin)
    ensures AllDecimal(pin) ==>
              IsWeakPinServer(pin) == Weak(pin in COMMON_WEAK_PINS || Sequential(Values(pin)))
  {
    hide Int, IsDigit;
    ParseIff(pin);
    if pin in COMMON_WEAK_PINS {
      ListedAreAscii(pin);
      AsciiAreDecimal(pin);
    }
    if AllDecimal(pin) {
      PairsAreRun(Values(pin), 1);
      PairsAreRun(Values(pin), -1);
    }
  }

  /** Server and client agree on every string of ASCII digits, of any length. */
  lemma ServerAndClientAgree(pin: string)
    requires AsciiDigits(pin)
    ensures IsWeakPinServer(pin) == Weak(IsWeakPinClient(pin))
    ensures IsWeakPinClient(pin) <==>
              || pin in COMMON_WEAK_PINS
              || (forall i | 0 <= i < |pin| :: pin[i] as int == pin[0] as int + i)
              || (forall i | 0 <= i < |pin| :: pin[i] as int == pin[0] as int - i)
  {
    RunOfText(pin, 1);
    RunOfText(pin, -1);
    hide Int, IsDigit, PairsStep, EveryStep, IsRun;
    AsciiAreDecimal(pin);
    WeakServerIff(pin);
    StepsAgree(Numbers(pin), 1);
    StepsAgree(Numbers(pin), -1);
  }

  lemma RunOfText(pin: string, step: int)
    requires AsciiDigits(pin) && (step == 1 || step == -1)
    ensures IsRun(Numbers(pin), step) <==> forall i | 0 <= i < |pin| :: pin[i] as int == pin[0] as int + i * step
  {
    var digits := Numbers(pin);
    assert forall i | 0 <= i < |pin| :: digits[i] == pin[i] as int - '0' as int;
  }

  // ---------------------------------------------------------------------------------------------
  // Where the two sides part

  /** The format checks disagree on a PIN exactly when it is six characters, each a digit to the
      server, one of them outside ASCII; whatever the client takes the server takes. */
  lemma FormatsDifferIff(pin: string)
    ensures (ValidPinServer(pin) != ValidPinClient(pin))
            <==> |pin| == 6 && AllDigits(pin) && !AsciiDigits(pin)
    ensures ValidPinClient(pin) ==> ValidPinServer(pin)
  {
    if AsciiDigits(pin) { AsciiAreDecimal(pin); }
  }

  /** The server's gate fails with an exception on a PIN exactly when the PIN passed its format check
      and holds a digit that is not decimal; it calls a PIN malformed exactly when it is not six digits. */
  lemma CrashesIff(pin: string)
    ensures ServerGate(pin) == Crashed
            <==> |pin| == 6 && AllDigits(pin) && exists i :: 0 <= i < |pin| && Int(pin[i]).None?
    ensures ServerGate(pin) == NotSixDigits <==> !(|pin| == 6 && AllDigits(pin))
  {
    WeakServerIff(pin);
  }

  /** The gates disagree on a PIN exactly when it is six decimal digits that are no arithmetic run,
      one of them outside ASCII: the server then takes what the client turns down. */
  lemma GatesDifferIff(pin: string)
    ensures (ServerGate(pin) == Accepted) != ClientGate(pin)
            <==> && |pin| == 6 && AllDecimal(pin) && !AsciiDigits(pin)
                 && !Sequential(Values(pin))
    ensures ClientGate(pin) ==> ServerGate(pin) == Accepted
  {
    hide Int, PairsStep, EveryStep, IsRun;
    WeakServerIff(pin);
    if AsciiDigits(pin) {
      AsciiAreDecimal(pin);
      ServerAndClientAgree(pin);
    } else if pin in COMMON_WEAK_PINS {
      ListedAreAscii(pin);
    }
  }

  /** The same digits written in ASCII. */
  function Spelled(digits: seq<nat>): (s: string)
    requires forall i | 0 <= i < |digits| :: digits[i] <= 9
    ensures AsciiDigits(s) && Numbers(s) == digits
  {
    seq(|digits|, i requires 0 <= i < |digits| => CharOf(digits[i]))
  }

  lemma SpelledAscii(pin: string)
    requires AsciiDigits(pin)
    ensures Spelled(Numbers(pin)) == pin
  {
  }

  /** The server judges a PIN by its digits, whatever their script, except that the list knows ASCII
      only: a listed PIN that is no run escapes exactly when it is written with some other digit. */
  lemma EscapesListIff(pin: string)
    requires AllDecimal(pin)
    ensures IsWeakPinServer(pin) != IsWeakPinServer(Spelled(Values(pin)))
            <==> && Spelled(Values(pin)) in COMMON_WEAK_PINS && !Sequential(Values(pin))
                 && !AsciiDigits(pin)
  {
    hide Int, IsRun;
    var s := Spelled(Values(pin));
    AsciiAreDecimal(s);
    WeakServerIff(pin);
    WeakServerIff(s);
    if AsciiDigits(pin) {
      AsciiAreDecimal(pin);
      SpelledAscii(pin);
    } else if pin in COMMON_WEAK_PINS {
      ListedAreAscii(pin);
    }
  }

  /** 314159 in Arabic-Indic digits. */
  const ARABIC_INDIC_PIN: string := "\U{663}\U{661}\U{664}\U{661}\U{665}\U{669}"

  /** Six superscript twos. */
  const SUPERSCRIPT_PIN: string := "\U{B2}\U{B2}\U{B2}\U{B2}\U{B2}\U{B2}"

  /** 111111 in Arabic-Indic digits. */
  const REPEATED_PIN: string := "\U{661}\U{661}\U{661}\U{661}\U{661}\U{661}"

  lemma ArabicIndicDigit(d: nat)
    requires d <= 9
    ensures Int((0x660 + d) as char) == Some(d)
  {
    LowZeros();
    hide IsDecimalZero;
    DecimalIs(0x660 + d, 0, 0x660);
  }

  lemma ArabicIndicDigits(pin: string, digits: seq<nat>)
    requires |pin| == |digits|
    requires forall i | 0 <= i < |pin| :: digits[i] <= 9 && pin[i] as int == 0x660 + digits[i]
    ensures AllDecimal(pin) && Values(pin) == digits
    ensures pin != "" ==> !AsciiDigits(pin)
  {
    hide Int;
    forall i | 0 <= i < |pin| ensures Int(pin[i]) == Some(digits[i]) && !IsAsciiDigit(pin[i]) {
      ArabicIndicDigit(digits[i]);
    }
  }

  lemma ArabicIndicPin(pin: string, digits: seq<nat>)
    requires |pin| == |digits| == PIN_LENGTH
    requires forall i | 0 <= i < |pin| :: digits[i] <= 9 && pin[i] as int == 0x660 + digits[i]
    requires digits[1] != digits[0] + 1 && digits[0] != digits[1] + 1
    ensures AllDecimal(pin) && Values(pin) == digits
    ensures !ValidPinClient(pin) && ServerGate(pin) == Accepted
  {
    hide ServerGate, AllDecimal, AsciiDigits, Values;
    ArabicIndicDigits(pin, digits);
    NoRun(digits, 1);
    NoRun(digits, -1);
    GatesDifferIff(pin);
  }

  lemma NoRun(digits: seq<nat>, step: int)
    requires |digits| >= 2 && digits[1] != digits[0] + step
    ensures !IsRun(digits, step)
  {
    assert digits[1] != digits[0] + 1 * step;
  }

  /** A PIN the server takes and the client turns down as malformed. */
  lemma AcceptedOnlyByServer()
    ensures ServerGate(ARABIC_INDIC_PIN) == Accepted && !ValidPinClient(ARABIC_INDIC_PIN)
  {
    hide ServerGate;
    ArabicIndicPin(ARABIC_INDIC_PIN, [3, 1, 4, 1, 5, 9]);
  }

  /** A PIN of one repeated digit that the server takes. */
  lemma RepeatedDigitAccepted()
    ensures AllDecimal(REPEATED_PIN) && Values(REPEATED_PIN) == [1, 1, 1, 1, 1, 1]
    ensures ServerGate(REPEATED_PIN) == Accepted
  {
    hide ServerGate, AllDecimal, Values;
    ArabicIndicPin(REPEATED_PIN, [1, 1, 1, 1, 1, 1]);
  }

  /** A PIN that passes the server's format check and makes its weakness check raise. */
  lemma CrashingPin()
    ensures ValidPinServer(SUPERSCRIPT_PIN)
    ensures IsWeakPinServer(SUPERSCRIPT_PIN) == Raised
    ensures ServerGate(SUPERSCRIPT_PIN) == Crashed
  {
    SuperscriptTwo();
    WeakServerIff(SUPERSCRIPT_PIN);
  }

  lemma SuperscriptTwo()
    ensures Int('\U{B2}') == None && IsDigit('\U{B2}')
  {
    LowZeros();
    hide IsDecimalZero;
    NoZeroNear(0xB2, 0);
  }

  lemma {:induction false} NoZeroNear(code: int, d: nat)
    requires d <= 9 && forall z :: code - 9 <= z <= code ==> !IsDecimalZero(z)
    ensures DecimalFrom(code, d) == None
    decreases 9 - d
  {
    hide IsDecimalZero;
    if d < 9 { NoZeroNear(code, d + 1); }
  }

  // ---------------------------------------------------------------------------------------------
  // The weak PINs

  /** Ten digits are the longest run, and a run is its first digit and its direction. */
  lemma RunsAreShort(digits: seq<nat>, step: int)
    requires forall i | 0 <= i < |digits| :: digits[i] <= 9
    requires (step == 1 || step == -1) && PairsStep(digits, step)
    ensures |digits| <= 10
    ensures |digits| == PIN_LENGTH && step == 1 ==> digits[0] <= 4
    ensures |digits| == PIN_LENGTH && step == -1 ==> digits[0] >= 5
  {
    PairsAreRun(digits, step);
    if digits != [] {
      assert digits[|digits| - 1] == digits[0] + (|digits| - 1) * step;
    }
  }

  /** The ascending and descending runs of PIN length. */
  const RUNS: set<string> := {
    "012345", "123456", "234567", "345678", "456789", "543210", "654321", "765432", "876543", "987654"
  }

  function CharOf(d: int): char
    requires 0 <= d <= 9
  {
    (d + '0' as int) as char
  }

  lemma RunText(pin: string, step: int)
    requires ValidPinClient(pin) && (step == 1 || step == -1) && IsRun(Numbers(pin), step)
    ensures pin in RUNS
  {
    var digits := Numbers(pin);
    var d := digits[0];
    forall i | 0 <= i < PIN_LENGTH ensures 0 <= d + i * step <= 9 && pin[i] == CharOf(d + i * step) {
      assert digits[i] == d + i * step;
    }
    assert d + 5 * step == digits[5];
    assert pin == [CharOf(d), CharOf(d + step), CharOf(d + 2 * step), CharOf(d + 3 * step),
                   CharOf(d + 4 * step), CharOf(d + 5 * step)];
    TextOfRun(d, step);
  }

  lemma TextOfRun(d: int, step: int)
    requires (step == 1 && 0 <= d <= 4) || (step == -1 && 5 <= d <= 9)
    ensures [CharOf(d), CharOf(d + step), CharOf(d + 2 * step), CharOf(d + 3 * step),
             CharOf(d + 4 * step), CharOf(d + 5 * step)] in RUNS
  {
    var text := [CharOf(d), CharOf(d + step), CharOf(d + 2 * step), CharOf(d + 3 * step),
                 CharOf(d + 4 * step), CharOf(d + 5 * step)];
    if step == 1 {
      assert d == 0 ==> text == "012345";
      assert d == 1 ==> text == "123456";
      assert d == 2 ==> text == "234567";
      assert d == 3 ==> text == "345678";
      assert d == 4 ==> text == "456789";
    } else {
      assert d == 5 ==> text == "543210";
      assert d == 6 ==> text == "654321";
      assert d == 7 ==> text == "765432";
      assert d == 8 ==> text == "876543";
      assert d == 9 ==> text == "987654";
    }
  }

  lemma RunsAreRuns(pin: string)
    requires pin in RUNS
    ensures AsciiDigits(pin) && Sequential(Numbers(pin))
  {
    hide Sequential, AsciiDigits;
    if pin == "012345" { ReadsAsRun(pin, 0, 1); }
    if pin == "123456" { ReadsAsRun(pin, 1, 1); }
    if pin == "234567" { ReadsAsRun(pin, 2, 1); }
    if pin == "345678" { ReadsAsRun(pin, 3, 1); }
    if pin == "456789" { ReadsAsRun(pin, 4, 1); }
    if pin == "543210" { ReadsAsRun(pin, 5, -1); }
    if pin == "654321" { ReadsAsRun(pin, 6, -1); }
    if pin == "765432" { ReadsAsRun(pin, 7, -1); }
    if pin == "876543" { ReadsAsRun(pin, 8, -1); }
    if pin == "987654" { ReadsAsRun(pin, 9, -1); }
  }

  lemma ReadsAsRun(pin: string, d: int, step: int)
    requires (step == 1 && 0 <= d <= 4) || (step == -1 && 5 <= d <= 9)
    requires |pin| == PIN_LENGTH
    requires pin[0] == CharOf(d) && pin[1] == CharOf(d + step) && pin[2] == CharOf(d + 2 * step)
    requires pin[3] == CharOf(d + 3 * step) && pin[4] == CharOf(d + 4 * step)
    requires pin[5] == CharOf(d + 5 * step)
    ensures AsciiDigits(pin) && Sequential(Numbers(pin))
  {
    assert IsRun(Numbers(pin), step);
  }

  /** The PINs both checks turn down among the valid ones, and what the client lets through. */
  lemma WeakPins(pin: string)
    ensures ValidPinClient(pin) ==>
              && IsWeakPinServer(pin) == Weak(pin in COMMON_WEAK_PINS || pin in RUNS)
              && IsWeakPinClient(pin) == (pin in COMMON_WEAK_PINS || pin in RUNS)
    ensures ClientGate(pin) <==>
              && |pin| == 6 && (forall i | 0 <= i < 6 :: '0' <= pin[i] <= '9')
              && pin !in {"000000", "111111", "222222", "333333", "444444", "555555", "666666", "777777", "888888",
                          "999999", "123123", "112233", "121212", "010203", "202020",
                          "012345", "123456", "234567", "345678", "456789",
                          "987654", "876543", "765432", "654321", "543210"}
  {
    hide IsWeakPinServer, IsWeakPinClient, Sequential;
    if ValidPinClient(pin) {
      WeakAscii(pin);
    }
  }

  lemma WeakAscii(pin: string)
    requires ValidPinClient(pin)
    ensures IsWeakPinServer(pin) == Weak(pin in COMMON_WEAK_PINS || pin in RUNS)
    ensures IsWeakPinClient(pin) == (pin in COMMON_WEAK_PINS || pin in RUNS)
  {
    hide IsWeakPinServer, IsWeakPinClient;
    ServerAndClientAgree(pin);
    RunOfText(pin, 1);
    RunOfText(pin, -1);
    if IsRun(Numbers(pin), 1) { RunText(pin, 1); }
    if IsRun(Numbers(pin), -1) { RunText(pin, -1); }
    if pin in RUNS { RunsAreRuns(pin); }
  }
}
