/** The reflected CRC-16 of `src/base.cpp`, its loops, and the polynomial it computes. */
module Crc16 {

  // A polynomial over GF(2) is written as the sequence of its coefficients, the coefficient
  // of x^i at index i; `Coef` reads past the end as zero.

  /** x^16 = x^12 + x^5 + 1 modulo the generator, in reflected bit order. */
  const REFLECTED_GENERATOR: bv16 := 0x8408

  function ShiftBit(r: bv16): bv16 {
    (r >> 1) ^ (if r & 1 == 1 then REFLECTED_GENERATOR else 0)
  }

  function ShiftBits(r: bv16, n: nat): bv16 {
    if n == 0 then r else ShiftBit(ShiftBits(r, n - 1))
  }

  /** Integer promotion of an unsigned char. */
  function Widen(c: bv8): bv16 {
    c as bv16
  }

  function UpdateByte(crc: bv16, c: bv8): bv16 {
    ShiftBits(crc ^ Widen(c), 8)
  }

  /** The checksum of a byte sequence, starting from zero. */
  function Crc(data: seq<bv8>): bv16 {
    if data == [] then 0 else UpdateByte(Crc(data[..|data| - 1]), data[|data| - 1])
  }

  method UpdateCrc(crc: bv16, c: bv8) returns (result: bv16)
    ensures result == UpdateByte(crc, c)
  {
    result := crc ^ (c as bv16);
    ghost var start := result;
    var i := 8;
    while i != 0
      invariant 0 <= i <= 8
      invariant result == ShiftBits(start, 8 - i)
    {
      result := (result >> 1) ^ (if result & 1 == 1 then 0x8408 else 0);
      i := i - 1;
    }
  }

  /** A size of zero or less reads nothing. */
  method ComputeCrc16(data: array<bv8>, size: int) returns (result: bv16)
    requires size <= data.Length
    ensures result == Crc(data[..if size < 0 then 0 else size])
  {
    result := 0x0000;
    var iByte := 0;
    while iByte < size
      invariant 0 <= iByte <= if size < 0 then 0 else size
      invariant result == Crc(data[..iByte])
    {
      result := UpdateCrc(result, data[iByte]);
      iByte := iByte + 1;
      assert data[..iByte][..iByte - 1] == data[..iByte - 1];
    }
  }

  // --- The polynomial reading -------------------------------------------------------------

  function Coef(p: seq<bool>, i: int): bool {
    0 <= i < |p| && p[i]
  }

  function Xor(a: bool, b: bool): bool { a != b }

  /** Coefficient i of q(x) * (x^16 + x^12 + x^5 + 1). */
  function TimesGenerator(q: seq<bool>, i: int): bool {
    Xor(Xor(Coef(q, i), Coef(q, i - 5)), Xor(Coef(q, i - 12), Coef(q, i - 16)))
  }

  /** m = q * (x^16 + x^12 + x^5 + 1) + r, with deg r < 16. */
  ghost predicate Divides(m: seq<bool>, q: seq<bool>, r: seq<bool>) {
    |r| == 16 && forall i: int :: Coef(m, i) == Xor(TimesGenerator(q, i), Coef(r, i))
  }

  ghost predicate IsRemainder(m: seq<bool>, r: seq<bool>) {
    exists q: seq<bool> :: Divides(m, q, r)
  }

  /** The bit of the register that holds the coefficient of x^i: bit 15 is that of 1. */
  function Mask(i: nat): bv16
    requires i < 16
  {
    if i == 0 then 0x8000 else if i == 1 then 0x4000 else if i == 2 then 0x2000 else if i == 3 then 0x1000
    else if i == 4 then 0x0800 else if i == 5 then 0x0400 else if i == 6 then 0x0200 else if i == 7 then 0x0100
    else if i == 8 then 0x0080 else if i == 9 then 0x0040 else if i == 10 then 0x0020 else if i == 11 then 0x0010
    else if i == 12 then 0x0008 else if i == 13 then 0x0004 else if i == 14 then 0x0002 else 0x0001
  }

  /** The register read as a polynomial. */
  function Register(r: bv16): (p: seq<bool>)
    ensures |p| == 16
  {
    seq(16, i requires 0 <= i < 16 => r & Mask(i) != 0)
  }

  /** A byte is sent least significant bit first, so its last bit has the lowest degree. */
  function ByteCoefs(c: bv8): (p: seq<bool>)
    ensures |p| == 8
  {
    Register(Widen(c))[8..]
  }

  /** The message as a polynomial: the first bit sent has the highest degree. */
  function Message(data: seq<bv8>): seq<bool> {
    if data == [] then [] else ByteCoefs(data[|data| - 1]) + Message(data[..|data| - 1])
  }

  /** m(x) * x^16 */
  function Shifted(m: seq<bool>): seq<bool> {
    seq(16, i => false) + m
  }

  function XorAll(p: seq<bool>, q: seq<bool>): (r: seq<bool>)
    requires |p| == |q|
    ensures |r| == |p|
  {
    seq(|p|, i requires 0 <= i < |p| => Xor(p[i], q[i]))
  }

  /** Multiplication by x without reduction; the coefficient of x^15 is dropped. */
  function Raise(p: seq<bool>): (r: seq<bool>)
    requires |p| == 16
    ensures |r| == 16
  {
    [false] + p[..15]
  }

  /** Multiplication by x, reduced by the generator. */
  function TimesX(p: seq<bool>): (r: seq<bool>)
    requires |p| == 16
    ensures |r| == 16
  {
    seq(16, i requires 0 <= i < 16 => Xor(Raise(p)[i], p[15] && (i == 0 || i == 5 || i == 12)))
  }

  function WithTop(p: seq<bool>, b: bool): (r: seq<bool>)
    requires |p| == 16
    ensures |r| == 16
  {
    p[15 := Xor(p[15], b)]
  }

  ghost predicate OneBit(m: bv16) {
    m != 0 && m & (m - 1) == 0
  }

  lemma BitXor(a: bv16, b: bv16, m: bv16)
    requires OneBit(m)
    ensures (a ^ b) & m != 0 <==> Xor(a & m != 0, b & m != 0)
  {
  }

  lemma BitShift(r: bv16, m: bv16)
    requires OneBit(m) && m != 0x8000
    ensures (r >> 1) & m != 0 <==> r & (m << 1) != 0
  {
  }

  lemma RegisterXor(a: bv16, b: bv16)
    ensures Register(a ^ b) == XorAll(Register(a), Register(b))
  {
    forall i | 0 <= i < 16 ensures Register(a ^ b)[i] == XorAll(Register(a), Register(b))[i] {
      BitXor(a, b, Mask(i));
    }
  }

  lemma RegisterHalf(r: bv16)
    ensures Register(r >> 1) == Raise(Register(r))
  {
    forall i | 0 <= i < 16 ensures Register(r >> 1)[i] == Raise(Register(r))[i] {
      HalfAt(r, i);
    }
  }

  lemma HalfAt(r: bv16, i: nat)
    requires i < 16
    ensures Register(r >> 1)[i] == Raise(Register(r))[i]
  {
    if i > 0 {
      BitShift(r, Mask(i));
      assert Mask(i) << 1 == Mask(i - 1);
    } else {
      assert (r >> 1) & 0x8000 == 0;
    }
  }

  lemma GeneratorCoefs(i: nat)
    requires i < 16
    ensures REFLECTED_GENERATOR & Mask(i) != 0 <==> i == 0 || i == 5 || i == 12
  {
  }

  lemma ShiftBitIsTimesX(r: bv16)
    ensures Register(ShiftBit(r)) == TimesX(Register(r))
  {
    RegisterHalf(r);
    if r & 1 == 1 {
      FeedBack(r >> 1, ShiftBit(r));
    } else {
      EvenShift(r);
    }
  }

  lemma EvenShift(r: bv16)
    requires r & 1 != 1
    ensures r & 1 == 0 && ShiftBit(r) == r >> 1
  {
  }

  lemma FeedBack(h: bv16, s: bv16)
    requires s == h ^ REFLECTED_GENERATOR
    ensures forall i | 0 <= i < 16 :: Register(s)[i] == Xor(Register(h)[i], i == 0 || i == 5 || i == 12)
  {
    RegisterXor(h, REFLECTED_GENERATOR);
    forall i | 0 <= i < 16 ensures Register(s)[i] == Xor(Register(h)[i], i == 0 || i == 5 || i == 12) {
      GeneratorCoefs(i);
    }
  }

  lemma RegisterXorByte(r: bv16, c: bv8)
    ensures Register(r ^ Widen(c)) == XorAll(Register(r), seq(8, i => false) + ByteCoefs(c))
  {
    RegisterXor(r, Widen(c));
    WideByteHighHalf(c);
  }

  lemma AbsorbBit(m: seq<bool>, p: seq<bool>, b: bool)
    requires |p| == 16 && IsRemainder(Shifted(m), p)
    ensures IsRemainder(Shifted([b] + m), TimesX(WithTop(p, b)))
  {
    var q :| Divides(Shifted(m), q, p);
    var p' := TimesX(WithTop(p, b));
    var c := Xor(p[15], b);
    var q' := [c] + q;
    var S, S' := Shifted(m), Shifted([b] + m);
    assert forall j: int :: Coef(q', j) == if j == 0 then c else Coef(q, j - 1);
    forall i: int
      ensures Coef(S', i) == Xor(TimesGenerator(q', i), Coef(p', i))
    {
      assert Coef(S', i) == Xor(Coef(S, i - 1), i == 16 && b);
      assert Coef(S, i - 1) == Xor(TimesGenerator(q, i - 1), Coef(p, i - 1));
      assert TimesGenerator(q', i) == Xor(TimesGenerator(q, i - 1), c && (i == 0 || i == 5 || i == 12 || i == 16));
    }
    assert Divides(S', q', p');
  }

  /** The bits of `w` that still wait are those of the byte, the next one on top. */
  lemma AbsorbWaiting(m: seq<bool>, p: seq<bool>, w: seq<bool>)
    returns (p': seq<bool>)
    requires |p| == |w| == 16 && IsRemainder(Shifted(m), p)
    ensures |p'| == 16 && IsRemainder(Shifted([w[15]] + m), p')
    ensures TimesX(XorAll(p, w)) == XorAll(p', Raise(w))
  {
    p' := TimesX(WithTop(p, w[15]));
    AbsorbBit(m, p, w[15]);
  }

  function TimesXToThe(p: seq<bool>, n: nat): (r: seq<bool>)
    requires |p| == 16
    ensures |r| == 16
  {
    if n == 0 then p else TimesX(TimesXToThe(p, n - 1))
  }

  lemma {:induction false} AbsorbBits(m: seq<bool>, p: seq<bool>, w: seq<bool>, bits: seq<bool>, n: nat)
    returns (p': seq<bool>)
    requires |p| == 16 && |bits| == 8 && n <= 8 && IsRemainder(Shifted(m), p)
    requires w == seq(8, i => false) + bits
    ensures |p'| == 16 && IsRemainder(Shifted(bits[8 - n..] + m), p')
    ensures TimesXToThe(XorAll(p, w), n) == XorAll(p', seq(8 + n, i => false) + bits[..8 - n])
  {
    if n == 0 {
      p' := p;
      assert bits[8..] + m == m;
      assert seq(8, i => false) + bits[..8] == w;
    } else {
      var pn := AbsorbBits(m, p, w, bits, n - 1);
      var wn := seq(7 + n, i => false) + bits[..9 - n];
      p' := AbsorbWaiting(bits[9 - n..] + m, pn, wn);
      assert [bits[8 - n]] + (bits[9 - n..] + m) == bits[8 - n..] + m;
      assert Raise(wn) == seq(8 + n, i => false) + bits[..8 - n];
    }
  }

  lemma {:induction false} ShiftBitsIsTimesX(r: bv16, n: nat)
    ensures Register(ShiftBits(r, n)) == TimesXToThe(Register(r), n)
  {
    if n > 0 {
      ShiftBitsIsTimesX(r, n - 1);
      ShiftBitIsTimesX(ShiftBits(r, n - 1));
    }
  }

  lemma AbsorbByte(m: seq<bool>, r: bv16, c: bv8)
    requires IsRemainder(Shifted(m), Register(r))
    ensures IsRemainder(Shifted(ByteCoefs(c) + m), Register(UpdateByte(r, c)))
  {
    var bits := ByteCoefs(c);
    RegisterXorByte(r, c);
    ShiftBitsIsTimesX(r ^ Widen(c), 8);
    var p' := AbsorbBits(m, Register(r), seq(8, i => false) + bits, bits, 8);
    assert bits[0..] == bits;
    assert XorAll(p', seq(16, i => false) + bits[..0]) == p';
  }

  /** The generator has degree 16, so two remainders of degree below 16 agree. */
  lemma RemainderUnique(m: seq<bool>, r1: seq<bool>, r2: seq<bool>)
    requires IsRemainder(m, r1) && IsRemainder(m, r2)
    ensures r1 == r2
  {
    var q1 :| Divides(m, q1, r1);
    var q2 :| Divides(m, q2, r2);
    var k := |q1| + |q2|;
    while k > 0 && Coef(q1, k - 1) == Coef(q2, k - 1)
      invariant 0 <= k <= |q1| + |q2|
      invariant forall j: int :: k <= j ==> Coef(q1, j) == Coef(q2, j)
    {
      k := k - 1;
    }
    assert k == 0 by {
      assert Xor(TimesGenerator(q1, k + 15), Coef(r1, k + 15)) == Coef(m, k + 15)
          == Xor(TimesGenerator(q2, k + 15), Coef(r2, k + 15));
    }
    forall i | 0 <= i < 16 ensures r1[i] == r2[i] {
      assert Coef(m, i) == Xor(TimesGenerator(q1, i), Coef(r1, i));
      assert Coef(m, i) == Xor(TimesGenerator(q2, i), Coef(r2, i));
    }
  }

  lemma ZeroRegister(x: bv16)
    requires forall i | 0 <= i < 16 :: !Register(x)[i]
    ensures x == 0
  {
    var R := Register(x);
    assert !R[0] && !R[1] && !R[2] && !R[3] && !R[4] && !R[5] && !R[6] && !R[7];
    assert !R[8] && !R[9] && !R[10] && !R[11] && !R[12] && !R[13] && !R[14] && !R[15];
  }

  lemma RegisterInjective(a: bv16, b: bv16)
    requires Register(a) == Register(b)
    ensures a == b
  {
    RegisterXor(a, b);
    ZeroRegister(a ^ b);
  }

  lemma {:induction false} CrcLeavesRemainder(data: seq<bv8>)
    ensures IsRemainder(Shifted(Message(data)), Register(Crc(data)))
  {
    if data == [] {
      assert Divides(Shifted([]), [], Register(0));
    } else {
      var front, last := data[..|data| - 1], data[|data| - 1];
      CrcLeavesRemainder(front);
      AbsorbByte(Message(front), Crc(front), last);
    }
  }

  /** The checksum is the remainder of m(x) * x^16, and no other register value is. */
  lemma CrcIsPolynomialRemainder(data: seq<bv8>, r: bv16)
    ensures IsRemainder(Shifted(Message(data)), Register(r)) <==> r == Crc(data)
  {
    CrcLeavesRemainder(data);
    if IsRemainder(Shifted(Message(data)), Register(r)) {
      RemainderUnique(Shifted(Message(data)), Register(r), Register(Crc(data)));
      RegisterInjective(r, Crc(data));
    }
  }

  // --- Linearity and error detection ------------------------------------------------------

  function XorBytes(a: seq<bv8>, b: seq<bv8>): seq<bv8>
    requires |a| == |b|
  {
    seq(|a|, i requires 0 <= i < |a| => a[i] ^ b[i])
  }

  /** The checksum computed on polynomials. */
  function PolyCrc(data: seq<bv8>): (p: seq<bool>)
    ensures |p| == 16
  {
    if data == [] then seq(16, i => false) else PolyByte(PolyCrc(data[..|data| - 1]), ByteCoefs(data[|data| - 1]))
  }

  function PolyByte(p: seq<bool>, c: seq<bool>): (r: seq<bool>)
    requires |p| == 16 && |c| == 8
    ensures |r| == 16
  {
    TimesXToThe(XorAll(p, Low(c)), 8)
  }

  function Low(c: seq<bool>): (p: seq<bool>)
    requires |c| == 8
    ensures |p| == 16
  {
    seq(8, i => false) + c
  }

  lemma UpdateByteIsPolyByte(r: bv16, c: bv8)
    ensures Register(UpdateByte(r, c)) == PolyByte(Register(r), ByteCoefs(c))
  {
    RegisterXorByte(r, c);
    ShiftBitsIsTimesX(r ^ Widen(c), 8);
  }

  lemma {:induction false} CrcIsPolyCrc(data: seq<bv8>)
    ensures Register(Crc(data)) == PolyCrc(data)
  {
    if data == [] {
      assert forall i | 0 <= i < 16 :: 0 & Mask(i) == 0;
    } else {
      CrcIsPolyCrc(data[..|data| - 1]);
      UpdateByteIsPolyByte(Crc(data[..|data| - 1]), data[|data| - 1]);
    }
  }

  lemma {:induction false} TimesXLinear(p: seq<bool>, q: seq<bool>, n: nat)
    requires |p| == |q| == 16
    ensures TimesXToThe(XorAll(p, q), n) == XorAll(TimesXToThe(p, n), TimesXToThe(q, n))
  {
    if n > 0 {
      TimesXLinear(p, q, n - 1);
    }
  }

  lemma {:induction false} TimesXInjective(p: seq<bool>, q: seq<bool>, n: nat)
    requires |p| == |q| == 16 && TimesXToThe(p, n) == TimesXToThe(q, n)
    ensures p == q
  {
    hide TimesX;
    if n > 0 {
      TimesXOnceInjective(TimesXToThe(p, n - 1), TimesXToThe(q, n - 1));
      TimesXInjective(p, q, n - 1);
    }
  }

  lemma TimesXOnceInjective(p: seq<bool>, q: seq<bool>)
    requires |p| == |q| == 16 && TimesX(p) == TimesX(q)
    ensures p == q
  {
    assert p[15] == TimesX(p)[0] == TimesX(q)[0] == q[15];
    forall i | 0 <= i < 15 ensures p[i] == q[i] {
      assert TimesX(p)[i + 1] == TimesX(q)[i + 1];
    }
  }

  lemma ByteCoefsXor(x: bv8, y: bv8)
    ensures ByteCoefs(x ^ y) == XorAll(ByteCoefs(x), ByteCoefs(y))
  {
    RegisterXor(Widen(x), Widen(y));
  }

  lemma PolyByteLinear(p: seq<bool>, q: seq<bool>, c: seq<bool>, d: seq<bool>)
    requires |p| == |q| == 16 && |c| == |d| == 8
    ensures PolyByte(XorAll(p, q), XorAll(c, d)) == XorAll(PolyByte(p, c), PolyByte(q, d))
  {
    TimesXLinear(XorAll(p, Low(c)), XorAll(q, Low(d)), 8);
    assert XorAll(XorAll(p, q), Low(XorAll(c, d))) == XorAll(XorAll(p, Low(c)), XorAll(q, Low(d)));
  }

  lemma {:induction false} PolyCrcLinear(a: seq<bv8>, b: seq<bv8>)
    requires |a| == |b|
    ensures PolyCrc(XorBytes(a, b)) == XorAll(PolyCrc(a), PolyCrc(b))
  {
    hide PolyByte, ByteCoefs;
    if a != [] {
      var n := |a| - 1;
      PolyCrcLinear(a[..n], b[..n]);
      assert XorBytes(a, b)[..n] == XorBytes(a[..n], b[..n]);
      ByteCoefsXor(a[n], b[n]);
      PolyByteLinear(PolyCrc(a[..n]), PolyCrc(b[..n]), ByteCoefs(a[n]), ByteCoefs(b[n]));
    }
  }

  /** The checksum is linear over exclusive or on messages of equal length. */
  lemma CrcLinear(a: seq<bv8>, b: seq<bv8>)
    requires |a| == |b|
    ensures Crc(XorBytes(a, b)) == Crc(a) ^ Crc(b)
  {
    PolyCrcLinear(a, b);
    CrcIsPolyCrc(a);
    CrcIsPolyCrc(b);
    CrcIsPolyCrc(XorBytes(a, b));
    XorFromRegisters(Crc(a), Crc(b), Crc(XorBytes(a, b)));
  }

  lemma XorFromRegisters(x: bv16, y: bv16, z: bv16)
    requires Register(z) == XorAll(Register(x), Register(y))
    ensures z == x ^ y
  {
    RegisterXor(x, y);
    RegisterInjective(z, x ^ y);
  }

  lemma UnrollByte(r: bv16)
    ensures ShiftBits(r, 8)
         == ShiftBit(ShiftBit(ShiftBit(ShiftBit(ShiftBit(ShiftBit(ShiftBit(ShiftBit(r))))))))
  {
    assert ShiftBits(r, 1) == ShiftBit(r);
    assert ShiftBits(r, 2) == ShiftBit(ShiftBits(r, 1));
    assert ShiftBits(r, 3) == ShiftBit(ShiftBits(r, 2));
    assert ShiftBits(r, 4) == ShiftBit(ShiftBits(r, 3));
    assert ShiftBits(r, 5) == ShiftBit(ShiftBits(r, 4));
    assert ShiftBits(r, 6) == ShiftBit(ShiftBits(r, 5));
    assert ShiftBits(r, 7) == ShiftBit(ShiftBits(r, 6));
    assert ShiftBits(r, 8) == ShiftBit(ShiftBits(r, 7));
  }

  /** Eight zero bits at the bottom are shifted out without any feedback. */
  lemma ZeroByteShiftsOut(r: bv16)
    requires r & 0x00FF == 0
    ensures ShiftBits(r, 8) == r >> 8
  {
    UnrollByte(r);
  }

  /** The feedback of a non-zero byte reaches the high half of the register. */
  lemma ByteReachesHighHalf(z: bv16)
    requires z & 0xFF00 == 0 && ShiftBits(z, 8) & 0xFF00 == 0
    ensures z == 0
  {
    UnrollByte(z);
  }

  lemma HighHalfClear(z: bv16)
    requires z & 0x8000 == z & 0x4000 == z & 0x2000 == z & 0x1000 == 0
    requires z & 0x0800 == z & 0x0400 == z & 0x0200 == z & 0x0100 == 0
    ensures z & 0xFF00 == 0
  {
  }

  lemma RegisterHighHalfClear(z: bv16)
    requires forall i | 0 <= i < 8 :: !Register(z)[i]
    ensures z & 0xFF00 == 0
  {
    var R := Register(z);
    assert !R[0] && !R[1] && !R[2] && !R[3] && !R[4] && !R[5] && !R[6] && !R[7];
    HighHalfClear(z);
  }

  lemma ByteCoefsInjective(x: bv8, y: bv8)
    requires ByteCoefs(x) == ByteCoefs(y)
    ensures x == y
  {
    ByteCoefsXor(x, y);
    var z := Widen(x ^ y);
    WideByteHighHalf(x ^ y);
    forall i | 0 <= i < 16 ensures !Register(z)[i] {
      if i >= 8 { assert !ByteCoefs(x ^ y)[i - 8]; }
    }
    ZeroRegister(z);
    NarrowZero(x, y);
  }

  lemma WideByteHighBit(x: bv8, m: bv16)
    requires m & 0x00FF == 0
    ensures Widen(x) & m == 0
  {
  }

  lemma WideByteHighHalf(x: bv8)
    ensures forall i | 0 <= i < 8 :: !Register(Widen(x))[i]
  {
    forall i | 0 <= i < 8 ensures !Register(Widen(x))[i] {
      WideByteHighBit(x, Mask(i));
    }
  }

  lemma NarrowZero(x: bv8, y: bv8)
    requires Widen(x ^ y) == 0
    ensures x == y
  {
  }

  lemma UpdateByteInjective(a: bv16, b: bv16, c: bv8)
    requires UpdateByte(a, c) == UpdateByte(b, c)
    ensures a == b
  {
    var w := Low(ByteCoefs(c));
    UpdateByteIsPolyByte(a, c);
    UpdateByteIsPolyByte(b, c);
    TimesXInjective(XorAll(Register(a), w), XorAll(Register(b), w), 8);
    forall i | 0 <= i < 16 ensures Register(a)[i] == Register(b)[i] {
      assert XorAll(Register(a), w)[i] == XorAll(Register(b), w)[i];
    }
    RegisterInjective(a, b);
  }

  /** Once both registers have taken their last byte, they differed by less than a byte. */
  lemma LastByteDifference(u: bv16, v: bv16, y: bv8, y': bv8)
    requires UpdateByte(u, y) == UpdateByte(v, y')
    ensures XorAll(Register(u), Register(v)) == XorAll(Low(ByteCoefs(y)), Low(ByteCoefs(y')))
  {
    var U, V := Register(u), Register(v);
    var Y, Y' := Low(ByteCoefs(y)), Low(ByteCoefs(y'));
    UpdateByteIsPolyByte(u, y);
    UpdateByteIsPolyByte(v, y');
    TimesXInjective(XorAll(U, Y), XorAll(V, Y'), 8);
    forall i | 0 <= i < 16 ensures XorAll(U, V)[i] == XorAll(Y, Y')[i] {
      assert XorAll(U, Y)[i] == XorAll(V, Y')[i];
    }
  }

  lemma FirstByteEqual(z: bv16, w: bv16)
    requires w == ShiftBits(z, 8)
    requires forall i | 0 <= i < 8 :: !Register(z)[i]
    requires forall i | 0 <= i < 8 :: !Register(w)[i]
    ensures z == 0
  {
    RegisterHighHalfClear(w);
    RegisterHighHalfClear(z);
    ByteReachesHighHalf(z);
  }

  /** From one register state, two bytes are determined by the state they lead to. */
  lemma TwoBytesInjective(r: bv16, x: bv8, y: bv8, x': bv8, y': bv8)
    requires UpdateByte(UpdateByte(r, x), y) == UpdateByte(UpdateByte(r, x'), y')
    ensures x == x' && y == y'
  {
    LastByteDifference(UpdateByte(r, x), UpdateByte(r, x'), y, y');
    FirstByteDifference(r, x, x');
    WideByteHighHalf(x ^ x');
    var D := XorAll(Low(ByteCoefs(y)), Low(ByteCoefs(y')));
    assert forall i | 0 <= i < 8 :: !D[i];
    FirstByteEqual(Widen(x ^ x'), ShiftBits(Widen(x ^ x'), 8));
    NarrowZero(x, x');
    SecondByteEqual(UpdateByte(r, x), y, y');
  }

  lemma SecondByteEqual(u: bv16, y: bv8, y': bv8)
    requires UpdateByte(u, y) == UpdateByte(u, y')
    ensures y == y'
  {
    LastByteDifference(u, u, y, y');
    forall i | 0 <= i < 8 ensures ByteCoefs(y)[i] == ByteCoefs(y')[i] {
      assert !XorAll(Register(u), Register(u))[8 + i];
    }
    ByteCoefsInjective(y, y');
  }

  /** Two registers reached from one state differ by the feedback of the bytes' difference. */
  lemma FirstByteDifference(r: bv16, x: bv8, x': bv8)
    ensures Register(ShiftBits(Widen(x ^ x'), 8))
         == XorAll(Register(UpdateByte(r, x)), Register(UpdateByte(r, x')))
  {
    ZeroStateByte(x ^ x');
    hide UpdateByte, ShiftBits, Widen, ByteCoefs, Register;
    UpdateByteIsPolyByte(r, x);
    UpdateByteIsPolyByte(r, x');
    PolyByteLinear(Register(r), Register(r), ByteCoefs(x), ByteCoefs(x'));
    ByteCoefsXor(x, x');
    UpdateByteIsPolyByte(0, x ^ x');
    SelfXor(r);
  }

  lemma ZeroStateByte(c: bv8)
    ensures UpdateByte(0, c) == ShiftBits(Widen(c), 8)
  {
  }

  lemma SelfXor(r: bv16)
    ensures XorAll(Register(r), Register(r)) == Register(0)
  {
    RegisterXor(r, r);
  }

  lemma {:induction false} CrcTwoMore(data: seq<bv8>, x: bv8, y: bv8)
    ensures Crc(data + [x, y]) == UpdateByte(UpdateByte(Crc(data), x), y)
  {
    assert (data + [x, y])[..|data| + 1] == data + [x];
    assert (data + [x])[..|data|] == data;
  }

  lemma OwnBytesCancel(r: bv16)
    ensures UpdateByte(UpdateByte(r, (r & 0xFF) as bv8), (r >> 8) as bv8) == 0
  {
    var lo, hi := (r & 0xFF) as bv8, (r >> 8) as bv8;
    LowByteShiftsOut(r);
    HighByteShiftsOut(r);
  }

  lemma LowByteShiftsOut(r: bv16)
    ensures UpdateByte(r, (r & 0xFF) as bv8) == r >> 8
  {
    ZeroByteShiftsOut(r ^ Widen((r & 0xFF) as bv8));
  }

  lemma HighByteShiftsOut(r: bv16)
    ensures UpdateByte(r >> 8, (r >> 8) as bv8) == 0
  {
    assert (r >> 8) ^ Widen((r >> 8) as bv8) == 0;
    ZeroByteShiftsOut(0);
  }

  /** Appending two bytes cancels the checksum exactly when they are its low byte and then
      its high byte. */
  lemma AppendingCrcCancels(data: seq<bv8>, x: bv8, y: bv8)
    ensures Crc(data + [x, y]) == 0
       <==> x == (Crc(data) & 0xFF) as bv8 && y == (Crc(data) >> 8) as bv8
  {
    var r := Crc(data);
    CrcTwoMore(data, x, y);
    OwnBytesCancel(r);
    if Crc(data + [x, y]) == 0 {
      TwoBytesInjective(r, x, y, (r & 0xFF) as bv8, (r >> 8) as bv8);
    }
  }

  /** An error confined to two adjacent bytes is always detected. */
  lemma {:induction false} AdjacentErrorDetected(a: seq<bv8>, b: seq<bv8>, k: nat)
    requires |a| == |b| && k + 2 <= |a|
    requires forall i | 0 <= i < |a| && i != k && i != k + 1 :: a[i] == b[i]
    ensures Crc(a) == Crc(b) <==> a == b
    decreases |a|
  {
    hide UpdateByte;
    var n := |a| - 1;
    if Crc(a) == Crc(b) {
      if k + 2 == |a| {
        assert a[..k] == b[..k];
        assert a == a[..k] + [a[k], a[k + 1]] && b == b[..k] + [b[k], b[k + 1]];
        CrcTwoMore(a[..k], a[k], a[k + 1]);
        CrcTwoMore(b[..k], b[k], b[k + 1]);
        TwoBytesInjective(Crc(a[..k]), a[k], a[k + 1], b[k], b[k + 1]);
      } else {
        UpdateByteInjective(Crc(a[..n]), Crc(b[..n]), a[n]);
        AdjacentErrorDetected(a[..n], b[..n], k);
        assert a == a[..n] + [a[n]] && b == b[..n] + [b[n]];
      }
    }
  }
}
