/** Well-formed UTF-8 as what code points are encoded to, by the table in section 3 of RFC 3629. */
module Utf8Encoding {
  import opened Utf8

  /** A code point that is no surrogate. */
  predicate IsScalar(c: nat) {
    c < 0x110000 && !(0xD800 <= c < 0xE000)
  }

  function Low(c: nat, shift: nat): Byte
    requires shift > 0
  {
    (0x80 + (c / shift) % 0x40) as Byte
  }

  function Encode(c: nat): Bytes
    requires IsScalar(c)
  {
    if c < 0x80 then [c as Byte]
    else if c < 0x800 then [(0xC0 + c / 0x40) as Byte, Low(c, 1)]
    else if c < 0x10000 then [(0xE0 + c / 0x1000) as Byte, Low(c, 0x40), Low(c, 1)]
    else [(0xF0 + c / 0x40000) as Byte, Low(c, 0x1000), Low(c, 0x40), Low(c, 1)]
  }

  function EncodeAll(cs: seq<nat>): Bytes
    requires forall i | 0 <= i < |cs| :: IsScalar(cs[i])
  {
    if cs == [] then [] else Encode(cs[0]) + EncodeAll(cs[1..])
  }

  lemma LowIsTail(c: nat, shift: nat)
    requires shift > 0
    ensures IsTail(Low(c, shift))
  {
    BytesByRange(Low(c, shift));
  }

  /** An encoded code point is one character, whatever follows it. */
  lemma EncodedIsCharacter(c: nat, rest: Bytes)
    requires IsScalar(c)
    ensures CharLength(Encode(c) + rest) == |Encode(c)|
  {
    hide IsTail, And, IsAscii;
    var s := Encode(c) + rest;
    LowIsTail(c, 1);
    LowIsTail(c, 0x40);
    LowIsTail(c, 0x1000);
    assert forall i | 0 <= i < |Encode(c)| :: s[i] == Encode(c)[i];
  }

  /** The six bits of a continuation byte. */
  function Bits(b: Byte): nat
    requires 0x80 <= b < 0xC0
  {
    b as nat - 0x80
  }

  lemma SixBits(high: nat, low: nat)
    requires low < 0x40
    ensures (high * 0x40 + low) / 0x40 == high && (high * 0x40 + low) % 0x40 == low
  {
  }

  lemma TwelveBits(high: nat, mid: nat, low: nat)
    requires mid < 0x40 && low < 0x40
    ensures var c := (high * 0x40 + mid) * 0x40 + low;
      c / 0x1000 == high && (c / 0x40) % 0x40 == mid && (c / 1) % 0x40 == low
  {
    SixBits(high * 0x40 + mid, low);
    SixBits(high, mid);
  }

  lemma EighteenBits(high: nat, upper: nat, mid: nat, low: nat)
    requires upper < 0x40 && mid < 0x40 && low < 0x40
    ensures var c := ((high * 0x40 + upper) * 0x40 + mid) * 0x40 + low;
      c / 0x40000 == high && (c / 0x1000) % 0x40 == upper && (c / 0x40) % 0x40 == mid && (c / 1) % 0x40 == low
  {
    TwelveBits(high * 0x40 + upper, mid, low);
    SixBits(high, upper);
  }

  lemma TailsByRange(s: Bytes)
    requires CharLength(s) > 0
    ensures forall i | 1 <= i < CharLength(s) :: 0x80 <= s[i] < 0xC0
  {
    FirstCharTails(s);
    forall i | 1 <= i < CharLength(s) ensures 0x80 <= s[i] < 0xC0 {
      BytesByRange(s[i]);
    }
  }

  /** Every character is the encoding of some code point. */
  lemma CharacterIsEncoded(s: Bytes) returns (c: nat)
    requires CharLength(s) > 0
    ensures IsScalar(c) && Encode(c) == s[..CharLength(s)]
  {
    TailsByRange(s);
    match CharLength(s)
    case 1 => c := s[0] as nat;
    case 2 => c := TwoBytes(s);
    case 3 => c := ThreeBytes(s);
    case 4 => c := FourBytes(s);
  }

  lemma TwoBytes(s: Bytes) returns (c: nat)
    requires CharLength(s) == 2 && 0x80 <= s[1] < 0xC0
    ensures IsScalar(c) && Encode(c) == s[..2]
  {
    var high, low := s[0] as nat - 0xC0, Bits(s[1]);
    c := high * 0x40 + low;
    SixBits(high, low);
    hide IsTail, And, IsAscii;
  }

  lemma ThreeBytes(s: Bytes) returns (c: nat)
    requires CharLength(s) == 3 && 0x80 <= s[1] < 0xC0 && 0x80 <= s[2] < 0xC0
    ensures IsScalar(c) && Encode(c) == s[..3]
  {
    var high, mid, low := s[0] as nat - 0xE0, Bits(s[1]), Bits(s[2]);
    c := (high * 0x40 + mid) * 0x40 + low;
    TwelveBits(high, mid, low);
    hide IsTail, And, IsAscii;
  }

  lemma FourBytes(s: Bytes) returns (c: nat)
    requires CharLength(s) == 4 && 0x80 <= s[1] < 0xC0 && 0x80 <= s[2] < 0xC0 && 0x80 <= s[3] < 0xC0
    ensures IsScalar(c) && Encode(c) == s[..4]
  {
    var high, upper, mid, low := s[0] as nat - 0xF0, Bits(s[1]), Bits(s[2]), Bits(s[3]);
    c := ((high * 0x40 + upper) * 0x40 + mid) * 0x40 + low;
    EighteenBits(high, upper, mid, low);
    hide IsTail, And, IsAscii;
  }

  /** A string is well-formed if and only if it is the encoding of some code points. */
  lemma {:induction false} WellFormedIsEncoded(s: Bytes)
    ensures WellFormed(s)
       <==> exists cs: seq<nat> :: (forall i | 0 <= i < |cs| :: IsScalar(cs[i])) && EncodeAll(cs) == s
  {
    if WellFormed(s) {
      var cs := Decoded(s);
    }
    if cs: seq<nat> :| (forall i | 0 <= i < |cs| :: IsScalar(cs[i])) && EncodeAll(cs) == s {
      EncodedWellFormed(cs);
    }
  }

  lemma {:induction false} Decoded(s: Bytes) returns (cs: seq<nat>)
    requires WellFormed(s)
    ensures (forall i | 0 <= i < |cs| :: IsScalar(cs[i])) && EncodeAll(cs) == s
    decreases |s|
  {
    hide CharLength, Encode, IsScalar;
    if s == [] {
      cs := [];
    } else {
      var n := CharLength(s);
      var c := CharacterIsEncoded(s);
      var rest := Decoded(s[n..]);
      cs := [c] + rest;
      assert cs[1..] == rest && s == s[..n] + s[n..];
    }
  }

  lemma {:induction false} EncodedWellFormed(cs: seq<nat>)
    requires forall i | 0 <= i < |cs| :: IsScalar(cs[i])
    ensures WellFormed(EncodeAll(cs))
  {
    hide CharLength, Encode, IsScalar;
    if cs != [] {
      var first, rest := Encode(cs[0]), EncodeAll(cs[1..]);
      EncodedIsCharacter(cs[0], rest);
      EncodedNotEmpty(cs[0]);
      EncodedWellFormed(cs[1..]);
      assert (first + rest)[|first|..] == rest;
    }
  }

  lemma EncodedNotEmpty(c: nat)
    requires IsScalar(c)
    ensures |Encode(c)| > 0
  {
  }
}
