/** What other text than a printed decimal reads as, by strtol with base 0 and the conversions of
    `src/base.cpp` behind it. */
module NumberTexts {
  import opened Numbers
  import opened Strings

  // --- Numbers to a base ------------------------------------------------------------------

  predicate IsBase(base: nat) {
    2 <= base <= 16
  }

  function Digit(d: nat, upper: bool): char
    requires d < 16
  {
    if upper then "0123456789ABCDEF"[d] else "0123456789abcdef"[d]
  }

  /** A number in digits of either case. */
  function InBase(n: nat, base: nat, upper: bool): (s: string)
    requires IsBase(base)
    ensures s != ""
  {
    if n < base then [Digit(n, upper)] else InBase(n / base, base, upper) + [Digit(n % base, upper)]
  }

  lemma DigitRead(d: nat, upper: bool)
    requires d < 16
    ensures DigitValue(Digit(d, upper)) == d
  {
    assert Digit(d, upper) == if d < 10 then ('0' as int + d) as char
                              else if upper then ('A' as int + d - 10) as char else ('a' as int + d - 10) as char;
  }

  ghost predicate ReadsAs(s: string, base: nat, n: nat) {
    AllDigits(s, base) && DigitsValue(s, base) == n
  }

  lemma {:induction false} InBaseRead(n: nat, base: nat, upper: bool)
    requires IsBase(base)
    ensures ReadsAs(InBase(n, base, upper), base, n)
  {
    hide ReadsAs, Digit;
    if n < base {
      OneDigit(n, base, upper);
    } else {
      InBaseRead(n / base, base, upper);
      MoreDigits(InBase(n / base, base, upper), n / base, n % base, base, upper);
      Divided(n, base);
    }
  }

  lemma OneDigit(d: nat, base: nat, upper: bool)
    requires IsBase(base) && d < base
    ensures ReadsAs([Digit(d, upper)], base, d)
  {
    hide DigitValue, Digit;
    DigitRead(d, upper);
    DigitBehind("", Digit(d, upper), base);
    assert "" + [Digit(d, upper)] == [Digit(d, upper)];
  }

  lemma MoreDigits(front: string, q: nat, d: nat, base: nat, upper: bool)
    requires IsBase(base) && ReadsAs(front, base, q) && d < base
    ensures ReadsAs(front + [Digit(d, upper)], base, q * base + d)
  {
    hide DigitValue, Digit, AllDigits, DigitsValue;
    DigitRead(d, upper);
    DigitBehind(front, Digit(d, upper), base);
  }

  lemma DigitBehind(front: string, c: char, base: nat)
    ensures AllDigits(front, base) && DigitValue(c) < base ==> AllDigits(front + [c], base)
    ensures DigitsValue(front + [c], base) == DigitsValue(front, base) * base + DigitValue(c)
    ensures DigitsValue("", base) == 0 && AllDigits("", base)
  {
    assert (front + [c])[..|front|] == front;
  }

  lemma Divided(n: nat, base: nat)
    requires IsBase(base)
    ensures (n / base) * base + n % base == n
  {
  }

  /** Behind 0x or 0X a number is hexadecimal, behind 0 octal, after white space and a sign. */
  lemma PrefixedRead(pad: string, minus: bool, n: nat, upper: bool)
    requires forall c | c in pad :: IsSpace(c)
    ensures var v := if minus then 0 - n else n;
      var sign := if minus then "-" else "+";
      && Signed(pad + (sign + ("0x" + InBase(n, 16, upper)))) == Some(v)
      && Signed(pad + (sign + ("0X" + InBase(n, 16, upper)))) == Some(v)
      && Signed(pad + (sign + ("0" + InBase(n, 8, upper)))) == Some(v)
  {
    hide Magnitude, InBase;
    HexRead(n, upper);
    OctalRead(n, upper);
    SignRead(pad, minus, "0x" + InBase(n, 16, upper));
    SignRead(pad, minus, "0X" + InBase(n, 16, upper));
    SignRead(pad, minus, "0" + InBase(n, 8, upper));
  }

  lemma HexRead(n: nat, upper: bool)
    ensures Magnitude("0x" + InBase(n, 16, upper)) == Some(n) == Magnitude("0X" + InBase(n, 16, upper))
  {
    InBaseRead(n, 16, upper);
    var s := InBase(n, 16, upper);
    assert ("0x" + s)[2..] == s && ("0X" + s)[2..] == s;
    hide InBase, AllDigits, DigitsValue, DigitValue;
  }

  lemma OctalRead(n: nat, upper: bool)
    ensures Magnitude("0" + InBase(n, 8, upper)) == Some(n)
  {
    InBaseRead(n, 8, upper);
    var s := InBase(n, 8, upper);
    hide InBase;
    ZeroBefore(s);
    assert DigitValue('x') == 16 && DigitValue('X') == 16;
    assert ("0" + s)[1] == s[0];
  }

  lemma {:induction false} ZeroBefore(s: string)
    requires AllDigits(s, 8)
    ensures AllDigits("0" + s, 8) && DigitsValue("0" + s, 8) == DigitsValue(s, 8)
  {
    if s == "" {
      assert "0" + s == "0" && "0"[..0] == "";
    } else {
      hide DigitValue;
      var t := "0" + s;
      assert t[..|t| - 1] == "0" + s[..|s| - 1];
      ZeroBefore(s[..|s| - 1]);
      assert DigitValue('0') == 0 by { ZeroDigit(); }
    }
  }

  lemma ZeroDigit()
    ensures DigitValue('0') == 0
  {
  }

  lemma {:induction false} SignRead(pad: string, minus: bool, s: string)
    requires forall c | c in pad :: IsSpace(c)
    ensures Signed(pad + ((if minus then "-" else "+") + s)) == if minus then Negated(Magnitude(s)) else Magnitude(s)
  {
    hide Signed, Magnitude, IsSpace;
    var t := (if minus then "-" else "+") + s;
    if pad == "" {
      assert pad + t == t;
      OneSign(minus, s);
    } else {
      assert pad[0] in pad && forall c | c in pad[1..] :: c in pad;
      SignRead(pad[1..], minus, s);
      OneSpace(pad, t);
    }
  }

  lemma OneSign(minus: bool, s: string)
    ensures Signed((if minus then "-" else "+") + s) == if minus then Negated(Magnitude(s)) else Magnitude(s)
  {
    hide Magnitude;
    assert ((if minus then "-" else "+") + s)[1..] == s;
  }

  lemma OneSpace(pad: string, t: string)
    requires pad != "" && IsSpace(pad[0])
    ensures Signed(pad + t) == Signed(pad[1..] + t)
  {
    hide Magnitude;
    assert (pad + t)[1..] == pad[1..] + t;
  }

  // --- Text that is no number -------------------------------------------------------------

  predicate InNumbers(c: char) {
    IsSpace(c) || c == '-' || c == '+' || c == 'x' || c == 'X' || DigitValue(c) < 16
  }

  /** The empty text is no number, nor is text with a character that no number has. */
  lemma NoNumber(s: string)
    requires '\0' !in s && (s == "" || exists c :: c in s && !InNumbers(c))
    ensures StrToInt(s) == None == StrToUInt(s)
  {
    hide InNumbers, Signed;
    NotSigned(s);
  }

  /** Text with a NUL reads as what comes before it, and as 0 if that is nothing. */
  lemma NulEnds(s: string, behind: string)
    requires '\0' !in s
    ensures StrToInt(s + ("\0" + behind)) == if s == "" then Some(0) else StrToInt(s)
    ensures StrToUInt(s + ("\0" + behind)) == if s == "" then Some(0) else StrToUInt(s)
  {
    hide Signed;
    CutAtNul(s, behind);
    assert s == "" ==> s + ("\0" + behind) == "\0" + behind;
    assert s != "" ==> (s + ("\0" + behind))[0] == s[0] && s[0] in s;
  }

  lemma {:induction false} CutAtNul(s: string, behind: string)
    requires '\0' !in s
    ensures UpToNul(s + ("\0" + behind)) == s
  {
    if s == "" {
      assert s + ("\0" + behind) == "\0" + behind;
    } else {
      assert (s + ("\0" + behind))[1..] == s[1..] + ("\0" + behind);
      CutAtNul(s[1..], behind);
    }
  }

  lemma {:induction false} NotSigned(s: string)
    requires s == "" || exists c :: c in s && !InNumbers(c)
    ensures Signed(s) == None
  {
    if s != "" {
      var c :| c in s && !InNumbers(c);
      NotMagnitude(s, c);
      if s[0] != c {
        assert c in s[1..];
        NotMagnitude(s[1..], c);
        if IsSpace(s[0]) {
          NotSigned(s[1..]);
        }
      }
    }
  }

  lemma NotMagnitude(s: string, c: char)
    requires c in s && !InNumbers(c)
    ensures Magnitude(s) == None
  {
    var i :| 0 <= i < |s| && s[i] == c;
    assert i >= 2 ==> s[2..][i - 2] == c;
  }

  // --- Numbers that do not fit ------------------------------------------------------------

  /** A printed number of 64 bits reads as the int or unsigned int that is equal to it modulo 2^32. */
  lemma ReadsModulo(n: int)
    requires -TWO_TO_THE_63 <= n < TWO_TO_THE_63
    ensures match StrToInt(IntToString(n))
            case Some(v) => -0x8000_0000 <= v < 0x8000_0000 && (v - n) % 0x1_0000_0000 == 0
            case None => false
    ensures match StrToUInt(IntToString(n))
            case Some(v) => 0 <= v < 0x1_0000_0000 && (v - n) % 0x1_0000_0000 == 0
            case None => false
  {
    hide NatToString, WholeNumber, LongToInt, ULongToUInt;
    NoNul(if n < 0 then -n else n);
    IntModulo(n);
    UIntModulo(n);
  }

  lemma IntModulo(n: int)
    requires -TWO_TO_THE_63 <= n < TWO_TO_THE_63
    ensures -0x8000_0000 <= LongToInt(n) < 0x8000_0000 && (LongToInt(n) - n) % 0x1_0000_0000 == 0
  {
  }

  lemma UIntModulo(n: int)
    requires -TWO_TO_THE_63 <= n < TWO_TO_THE_63
    ensures 0 <= ULongToUInt(n) < 0x1_0000_0000 && (ULongToUInt(n) - n) % 0x1_0000_0000 == 0
  {
  }

  /** Beyond 64 bits every number reads as the low half of the largest or the smallest one. */
  lemma ReadsSaturated(n: int)
    requires n < -TWO_TO_THE_63 || n >= TWO_TO_THE_63
    ensures StrToInt(IntToString(n)) == Some(if n < 0 then 0 else -1)
    ensures n <= -TWO_TO_THE_64 || n >= TWO_TO_THE_64 ==> StrToUInt(IntToString(n)) == Some(0xFFFF_FFFF)
  {
    hide NatToString, WholeNumber;
    NoNul(if n < 0 then -n else n);
  }

  // --- Text behind a number ---------------------------------------------------------------

  /** A decimal with anything behind it that does not go on with a digit is no number. */
  lemma TextBehindRefused(n: nat, rest: string)
    requires n > 0 && rest != "" && DigitValue(rest[0]) >= 10 && '\0' !in rest
    ensures StrToInt(NatToString(n) + rest) == None == StrToUInt(NatToString(n) + rest)
  {
    var s := NatToString(n);
    NatToStringDigits(n);
    hide NatToString, DigitsValue;
    var t := s + rest;
    assert t[|s|] == rest[0] && t[0] == s[0];
    forall c | c in t ensures c != '\0' {
      if c in s {
        var i :| 0 <= i < |s| && s[i] == c;
        assert DigitValue(s[i]) < 10;
      }
    }
    assert !AllDigits(t, 10);
  }

  /** Prefixes and signs alone are no numbers, nor is an octal number with a digit that is too large. */
  lemma PartsRefused()
    ensures Signed("0x") == Signed("0X") == Signed("08") == Signed("0x1g") == None
    ensures Signed("-") == Signed("+") == Signed(" ") == Signed(" -") == None
  {
    assert DigitValue('x') == 16 && DigitValue('X') == 16 && DigitValue('8') == 8 && DigitValue('g') == 16;
    assert "0x"[1] == 'x' && "0X"[1] == 'X' && "08"[1] == '8' && "0x1g"[3] == 'g' && "0x1g"[2..][1] == 'g';
    hide DigitValue;
    assert "-"[1..] == "" && "+"[1..] == "" && " "[1..] == "" && " -"[1..] == "-";
  }

  /** There are six characters of white space before a number. */
  lemma SpacesSkipped(n: nat)
    ensures Signed(" \t\n\U{0B}\U{0C}\r+" + NatToString(n)) == Some(n)
  {
    var pad, s := " \t\n\U{0B}\U{0C}\r", NatToString(n);
    assert forall c | c in pad :: IsSpace(c);
    SignedNat(n);
    NatToStringDigits(n);
    hide Signed, NatToString;
    MagnitudeOfDecimal(s, n);
    SignRead(pad, false, s);
    assert pad + ("+" + s) == " \t\n\U{0B}\U{0C}\r+" + s;
  }
}
