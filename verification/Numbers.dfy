/** Numbers in text: `intToString`, `uintToString`, `strToInt` and `strToUInt` of
    `src/base.cpp`, on a 64-bit long, and atoi.

    Text is read as strtol reads it with base 0, and all of it has to be a number. */
module Numbers {
  import opened Strings

  const TWO_TO_THE_31: int := 0x8000_0000
  const TWO_TO_THE_32: int := 0x1_0000_0000
  const TWO_TO_THE_63: int := 0x8000_0000_0000_0000
  const TWO_TO_THE_64: int := 0x1_0000_0000_0000_0000

  function DigitChar(d: nat): char
    requires d < 10
  {
    "0123456789"[d]
  }

  function NatToString(n: nat): (s: string)
    ensures s != ""
  {
    if n < 10 then [DigitChar(n)] else NatToString(n / 10) + [DigitChar(n % 10)]
  }

  function IntToString(n: int): string {
    if n < 0 then "-" + NatToString(-n) else NatToString(n)
  }

  function DigitValue(c: char): (v: nat)
    ensures v <= 16
  {
    if '0' <= c <= '9' then (c as int) - ('0' as int)
    else if 'a' <= c <= 'f' then 10 + (c as int) - ('a' as int)
    else if 'A' <= c <= 'F' then 10 + (c as int) - ('A' as int)
    else 16
  }

  predicate AllDigits(s: string, base: nat) {
    forall i | 0 <= i < |s| :: DigitValue(s[i]) < base
  }

  function DigitsValue(s: string, base: nat): nat {
    if s == "" then 0 else DigitsValue(s[..|s| - 1], base) * base + DigitValue(s[|s| - 1])
  }

  predicate IsSpace(c: char) {
    IsBlank(c) || c == '\U{0B}' || c == '\U{0C}'
  }

  /** The whole string read as an unsigned number by strtol with base 0: hexadecimal after 0x,
      octal after 0, decimal otherwise. */
  function Magnitude(s: string): Option<int> {
    if |s| > 2 && s[0] == '0' && (s[1] == 'x' || s[1] == 'X') && AllDigits(s[2..], 16) then
      Some(DigitsValue(s[2..], 16))
    else if s != "" && s[0] == '0' then
      if AllDigits(s, 8) then Some(DigitsValue(s, 8)) else None
    else if s != "" && AllDigits(s, 10) then Some(DigitsValue(s, 10))
    else None
  }

  function Negated(m: Option<int>): Option<int> {
    match m
    case None => None
    case Some(v) => Some(-v)
  }

  /** As Magnitude, after white space and an optional sign. */
  function Signed(s: string): Option<int> {
    if s == "" then None
    else if IsSpace(s[0]) then Signed(s[1..])
    else if s[0] == '-' then Negated(Magnitude(s[1..]))
    else if s[0] == '+' then Magnitude(s[1..])
    else Magnitude(s)
  }

  /** strtol saturates; the conversion to int keeps the low 32 bits. */
  function LongToInt(v: int): int {
    var long := if v < -TWO_TO_THE_63 then -TWO_TO_THE_63 else if v >= TWO_TO_THE_63 then TWO_TO_THE_63 - 1 else v;
    (long + TWO_TO_THE_31) % TWO_TO_THE_32 - TWO_TO_THE_31
  }

  /** What c_str shows of a string to a C function. */
  function UpToNul(s: string): (r: string)
    ensures '\0' !in s ==> r == s
  {
    if s == "" || s[0] == '\0' then "" else [s[0]] + UpToNul(s[1..])
  }

  /** Text that is all read; where a NUL comes first strtol stops at the end and yields 0. */
  function WholeNumber(s: string): Option<int> {
    if s != "" && s[0] == '\0' then Some(0) else Signed(UpToNul(s))
  }

  function StrToInt(s: string): Option<int> {
    match WholeNumber(s)
    case None => None
    case Some(v) => Some(LongToInt(v))
  }

  function LeadingDigits(s: string): (n: nat)
    ensures n <= |s|
    ensures AllDigits(s[..n], 10) && (n < |s| ==> DigitValue(s[n]) >= 10)
  {
    if s == "" || DigitValue(s[0]) >= 10 then 0
    else
      var n := LeadingDigits(s[1..]);
      assert s[..n + 1] == [s[0]] + s[1..][..n];
      n + 1
  }

  function LeadingNumber(s: string): nat {
    DigitsValue(s[..LeadingDigits(s)], 10)
  }

  /** atoi: white space, a sign and decimal digits; what follows them is ignored. */
  function Atoi(s: string): int {
    if s == "" then 0
    else if IsSpace(s[0]) then Atoi(s[1..])
    else if s[0] == '-' then LongToInt(0 - LeadingNumber(s[1..]))
    else if s[0] == '+' then LongToInt(LeadingNumber(s[1..]))
    else LongToInt(LeadingNumber(s))
  }

  /** strtoul saturates and negates modulo 2^64; the conversion keeps the low 32 bits. */
  function ULongToUInt(v: int): int {
    var long := if v <= -TWO_TO_THE_64 || v >= TWO_TO_THE_64 then TWO_TO_THE_64 - 1 else v % TWO_TO_THE_64;
    long % TWO_TO_THE_32
  }

  function StrToUInt(s: string): Option<int> {
    match WholeNumber(s)
    case None => None
    case Some(v) => Some(ULongToUInt(v))
  }

  lemma {:induction false} NatToStringDigits(n: nat)
    ensures var s := NatToString(n);
      && AllDigits(s, 10) && DigitsValue(s, 10) == n
      && (s[0] == '0' <==> n == 0) && (n == 0 ==> s == "0")
      && '0' <= s[0] <= '9'
  {
    if n < 10 {
      assert [DigitChar(n)][..0] == "";
    } else {
      var front := NatToString(n / 10);
      NatToStringDigits(n / 10);
    }
  }

  lemma MagnitudeOfDecimal(s: string, n: nat)
    requires s != "" && AllDigits(s, 10) && DigitsValue(s, 10) == n && (s[0] == '0' ==> s == "0")
    ensures Magnitude(s) == Some(n)
  {
    if s[0] == '0' {
      assert DigitsValue(s, 8) == DigitsValue(s, 10) == 0;
    }
  }

  lemma SignedNat(n: nat)
    ensures Signed(NatToString(n)) == Some(n)
    ensures Signed("-" + NatToString(n)) == Negated(Some(n))
  {
    var s := NatToString(n);
    NatToStringDigits(n);
    MagnitudeOfDecimal(s, n);
    assert ("-" + s)[1..] == s;
  }

  lemma NoNul(n: nat)
    ensures WholeNumber(NatToString(n)) == Some(n)
    ensures WholeNumber("-" + NatToString(n)) == Negated(Some(n))
  {
    NatToStringDigits(n);
    SignedNat(n);
    hide Signed, NatToString;
    var s := NatToString(n);
    forall c | c in s ensures c != '\0' {
      var i :| 0 <= i < |s| && s[i] == c;
      assert DigitValue(s[i]) < 10;
    }
  }

  lemma IntFits(n: int)
    requires -TWO_TO_THE_31 <= n < TWO_TO_THE_31
    ensures LongToInt(n) == n
  {
  }

  lemma UIntFits(n: int)
    requires 0 <= n < TWO_TO_THE_32
    ensures ULongToUInt(n) == n
  {
  }

  /** Reading back a printed int gives the int. */
  lemma IntRoundTrip(n: int)
    requires -TWO_TO_THE_31 <= n < TWO_TO_THE_31
    ensures StrToInt(IntToString(n)) == Some(n)
  {
    NoNul(if n < 0 then -n else n);
    IntFits(n);
  }

  /** Reading back a printed unsigned int gives it. */
  lemma UIntRoundTrip(n: int)
    requires 0 <= n < TWO_TO_THE_32
    ensures StrToUInt(NatToString(n)) == Some(n)
  {
    NoNul(n);
    UIntFits(n);
  }

  /** Different numbers print differently. */
  lemma NatToStringInjective(m: nat, n: nat)
    requires NatToString(m) == NatToString(n)
    ensures m == n
  {
    NatToStringDigits(m);
    NatToStringDigits(n);
  }

  lemma {:induction false} LeadingOfDigits(digits: string, rest: string)
    requires AllDigits(digits, 10) && (rest != "" ==> DigitValue(rest[0]) >= 10)
    ensures LeadingDigits(digits + rest) == |digits|
  {
    if digits == "" {
      assert digits + rest == rest;
    } else {
      assert (digits + rest)[1..] == digits[1..] + rest;
      LeadingOfDigits(digits[1..], rest);
    }
  }

  lemma LeadingOfNat(n: nat, rest: string)
    requires rest != "" ==> DigitValue(rest[0]) >= 10
    ensures LeadingNumber(NatToString(n) + rest) == n
  {
    NatToStringDigits(n);
    LeadingOfDigits(NatToString(n), rest);
    assert (NatToString(n) + rest)[..|NatToString(n)|] == NatToString(n);
  }

  /** atoi of a printed number with white space before it, and with text behind it that does not go on
      with a digit. */
  lemma {:induction false} AtoiReads(pad: string, n: nat, rest: string)
    requires (forall c | c in pad :: IsSpace(c)) && n < TWO_TO_THE_31
    requires rest != "" ==> DigitValue(rest[0]) >= 10
    ensures var s := NatToString(n) + rest;
      Atoi(pad + s) == n && Atoi(pad + ("+" + s)) == n && Atoi(pad + ("-" + s)) == 0 - n
  {
    hide NatToString, Atoi, DigitValue;
    var s := NatToString(n) + rest;
    if pad == "" {
      AtoiSigns(n, rest);
      assert pad + s == s && pad + ("+" + s) == "+" + s && pad + ("-" + s) == "-" + s;
    } else {
      AtoiReads(pad[1..], n, rest);
      AtoiSpace(pad, s);
      AtoiSpace(pad, "+" + s);
      AtoiSpace(pad, "-" + s);
    }
  }

  lemma AtoiSigns(n: nat, rest: string)
    requires n < TWO_TO_THE_31 && (rest != "" ==> DigitValue(rest[0]) >= 10)
    ensures var s := NatToString(n) + rest;
      Atoi(s) == n && Atoi("+" + s) == n && Atoi("-" + s) == 0 - n
  {
    hide NatToString, LeadingNumber, LongToInt;
    var s := NatToString(n) + rest;
    NatToStringDigits(n);
    LeadingOfNat(n, rest);
    assert s[0] == NatToString(n)[0];
    assert ("+" + s)[1..] == s && ("-" + s)[1..] == s;
    IntFits(n);
    IntFits(0 - n);
  }

  lemma AtoiSpace(pad: string, s: string)
    requires pad != "" && IsSpace(pad[0])
    ensures Atoi(pad + s) == Atoi(pad[1..] + s)
  {
    assert (pad + s)[1..] == pad[1..] + s;
  }

  lemma AtoiOfInt(n: int)
    requires -TWO_TO_THE_31 < n < TWO_TO_THE_31
    ensures Atoi(IntToString(n)) == n
  {
    hide Atoi, NatToString;
    var m := if n < 0 then -n else n;
    AtoiSigns(m, "");
    assert NatToString(m) + "" == NatToString(m);
  }
}
