/** E.164 numbers from a country and a locally typed number (apps/mobile/lib/countries.ts:15-71). */
module Countries {
  datatype Country = Country(iso2: string, dialCode: string)

  const COUNTRIES: seq<Country> := [
    Country("ZA", "+27"), Country("AU", "+61"), Country("BW", "+267"), Country("BR", "+55"),
    Country("CA", "+1"), Country("CN", "+86"), Country("EG", "+20"), Country("SZ", "+268"),
    Country("FR", "+33"), Country("DE", "+49"), Country("GH", "+233"), Country("IN", "+91"),
    Country("ID", "+62"), Country("IE", "+353"), Country("IT", "+39"), Country("JP", "+81"),
    Country("KE", "+254"), Country("LS", "+266"), Country("MW", "+265"), Country("MX", "+52"),
    Country("MZ", "+258"), Country("NA", "+264"), Country("NL", "+31"), Country("NZ", "+64"),
    Country("NG", "+234"), Country("PK", "+92"), Country("PH", "+63"), Country("PT", "+351"),
    Country("SA", "+966"), Country("SG", "+65"), Country("ES", "+34"), Country("TZ", "+255"),
    Country("UG", "+256"), Country("AE", "+971"), Country("GB", "+44"), Country("US", "+1"),
    Country("ZM", "+260"), Country("ZW", "+263")
  ]

  predicate IsDigit(c: char) {
    '0' <= c <= '9'
  }

  predicate AllDigits(s: string) {
    forall i | 0 <= i < |s| :: IsDigit(s[i])
  }

  /** `s.replace(/\\D/g, "")`. */
  function Digits(s: string): (d: string)
    ensures AllDigits(d)
  {
    if s == "" then "" else (if IsDigit(s[0]) then [s[0]] else "") + Digits(s[1..])
  }

  /** `s.replace(/^0+/, "")`. */
  function StripZeros(s: string): (r: string)
    ensures r == "" || r[0] != '0'
    ensures AllDigits(s) ==> AllDigits(r)
  {
    if s != "" && s[0] == '0' then StripZeros(s[1..]) else s
  }

  /** The subscriber's digits without trunk zeros. */
  function National(localNumber: string): string {
    StripZeros(Digits(localNumber))
  }

  function ToE164(country: Country, localNumber: string): string {
    country.dialCode + National(localNumber)
  }

  lemma {:induction false} DigitsAppend(a: string, b: string)
    ensures Digits(a + b) == Digits(a) + Digits(b)
  {
    if a == "" {
      assert a + b == b;
    } else {
      assert (a + b)[1..] == a[1..] + b;
      DigitsAppend(a[1..], b);
    }
  }

  lemma {:induction false} NoDigits(s: string)
    requires forall i | 0 <= i < |s| :: !IsDigit(s[i])
    ensures Digits(s) == ""
  {
    if s != "" { NoDigits(s[1..]); }
  }

  lemma {:induction false} ZerosStripped(zeros: string, rest: string)
    requires forall i | 0 <= i < |zeros| :: zeros[i] == '0'
    ensures StripZeros(zeros + rest) == StripZeros(rest)
  {
    if zeros == "" {
      assert zeros + rest == rest;
    } else {
      assert (zeros + rest)[1..] == zeros[1..] + rest;
      ZerosStripped(zeros[1..], rest);
    }
  }

  lemma {:induction false} ZerosAreDigits(zeros: string)
    requires forall i | 0 <= i < |zeros| :: zeros[i] == '0'
    ensures Digits(zeros) == zeros
  {
    if zeros != "" { ZerosAreDigits(zeros[1..]); }
  }

  /** Formatting does not matter: characters that are not digits, anywhere in the number. */
  lemma NoiseIsIgnored(country: Country, a: string, noise: string, b: string)
    requires forall i | 0 <= i < |noise| :: !('0' <= noise[i] <= '9')
    ensures ToE164(country, a + noise + b) == ToE164(country, a + b)
  {
    DigitsAppend(a + noise, b);
    DigitsAppend(a, noise);
    DigitsAppend(a, b);
    NoDigits(noise);
    assert Digits(a) + "" == Digits(a);
  }

  /** Trunk zeros do not matter, however many. */
  lemma LeadingZerosAreIgnored(country: Country, zeros: string, b: string)
    requires forall i | 0 <= i < |zeros| :: zeros[i] == '0'
    ensures ToE164(country, zeros + b) == ToE164(country, b)
  {
    DigitsAppend(zeros, b);
    ZerosAreDigits(zeros);
    ZerosStripped(zeros, Digits(b));
  }

  /** Digits that do not start with a zero are kept as they are. With the two laws above this gives
      the number for every input. */
  lemma {:induction false} PlainDigitsAreKept(country: Country, b: string)
    requires (forall i | 0 <= i < |b| :: '0' <= b[i] <= '9') && (b == "" || b[0] != '0')
    ensures ToE164(country, b) == country.dialCode + b
  {
    DigitsOfDigits(b);
  }

  lemma {:induction false} DigitsOfDigits(s: string)
    requires AllDigits(s)
    ensures Digits(s) == s
  {
    if s != "" { DigitsOfDigits(s[1..]); }
  }

  /** A South African number as it is typed. */
  lemma TypedNumber()
    ensures ToE164(Country("ZA", "+27"), "082 555") == "+2782555"
  {
    hide ToE164;
    var za := Country("ZA", "+27");
    NoiseIsIgnored(za, "082", " ", "555");
    assert "082" + " " + "555" == "082 555" && "082" + "555" == "082555" == "0" + "82555";
    LeadingZerosAreIgnored(za, "0", "82555");
    PlainDigitsAreKept(za, "82555");
    assert "+27" + "82555" == "+2782555";
  }

  // ---------------------------------------------------------------------------------------------
  // Reading a number back

  /** How long the country code at the front of a number is: the first one or two digits decide, so
      that country codes are prefix-free (section 6.2.1 of ITU-T E.164). */
  function CodeLength(digits: string): nat {
    if digits != "" && (digits[0] == '1' || digits[0] == '7') then 1
    else if |digits| >= 2 && HasTwoDigits(digits[0], digits[1]) then 2
    else 3
  }

  predicate HasTwoDigits(c: char, d: char) {
    match c
    case '2' => d == '0' || d == '7'
    case '3' => ('0' <= d <= '4') || d == '6' || d == '9'
    case '4' => d != '2'
    case '5' => '1' <= d <= '8'
    case '6' => '0' <= d <= '6'
    case '8' => d == '1' || d == '2' || d == '4' || d == '6'
    case '9' => ('0' <= d <= '5') || d == '8'
    case _ => false
  }

  /** A plus sign and as many digits as the leading ones announce. */
  predicate IsCountryCode(dialCode: string) {
    |dialCode| >= 2 && dialCode[0] == '+' && |dialCode| == 1 + CodeLength(dialCode[1..])
  }

  lemma TableHasCountryCodes()
    ensures forall i | 0 <= i < |COUNTRIES| :: IsCountryCode(COUNTRIES[i].dialCode)
  {
  }

  /** Reading a number back: its country code and the rest. */
  function Split(number: string): (string, string)
    requires |number| >= 1 && |number| >= 1 + CodeLength(number[1..])
  {
    var n := 1 + CodeLength(number[1..]);
    (number[..n], number[n..])
  }

  /** A number written for a country of the table reads back as that country's dial code and the
      digits typed, so no two dial codes or digit strings share a number. */
  lemma ReadsBack(dialCode: string, digits: string)
    requires IsCountryCode(dialCode)
    ensures var number := dialCode + digits;
            |number| >= 1 + CodeLength(number[1..]) && Split(number) == (dialCode, digits)
  {
    var number := dialCode + digits;
    assert number[1..] == dialCode[1..] + digits;
    assert number[1..][0] == dialCode[1..][0];
    assert |dialCode| >= 3 ==> number[1..][1] == dialCode[1..][1];
    assert CodeLength(number[1..]) == CodeLength(dialCode[1..]);
    assert number[..|dialCode|] == dialCode && number[|dialCode|..] == digits;
  }

  /** Equal numbers come from equal dial codes and equal digits. */
  lemma EqualNumbers(i: nat, j: nat, s: string, t: string)
    requires i < |COUNTRIES| && j < |COUNTRIES|
    requires ToE164(COUNTRIES[i], s) == ToE164(COUNTRIES[j], t)
    ensures COUNTRIES[i].dialCode == COUNTRIES[j].dialCode && National(s) == National(t)
  {
    TableHasCountryCodes();
    ReadsBack(COUNTRIES[i].dialCode, National(s));
    ReadsBack(COUNTRIES[j].dialCode, National(t));
  }
}
