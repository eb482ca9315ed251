/** Truncation of UTF-8 strings, `truncateUTF8String` in `src/base.cpp`, on bytes. */
module Utf8 {

  newtype Byte = b: int | 0 <= b < 0x100

  type Bytes = seq<Byte>

  /** b & mask, for the masks the code uses: leading ones, then zeros. */
  function And(b: Byte, mask: Byte): Byte
    requires mask in {0x80, 0xC0, 0xE0, 0xF0, 0xF8, 0xFC, 0xFE}
  {
    ((b as int) - (b as int) % (0x100 - (mask as int))) as Byte
  }

  // --- Well-formed UTF-8, section 3 of RFC 3629 -------------------------------------------

  predicate IsAscii(b: Byte) {
    And(b, 0x80) != 0x80
  }

  predicate IsTail(b: Byte) {
    And(b, 0xC0) == 0x80
  }

  /** Length of the character the string begins with; 0 if it begins with none. */
  function CharLength(s: Bytes): (n: nat)
    ensures n <= |s| && n <= 4
  {
    if s == [] then 0
    else if s[0] <= 0x7F then 1
    else if 0xC2 <= s[0] <= 0xDF then
      if |s| >= 2 && IsTail(s[1]) then 2 else 0
    else if 0xE0 <= s[0] <= 0xEF then
      if |s| >= 3 && IsTail(s[1]) && IsTail(s[2])
         && (s[0] == 0xE0 ==> s[1] >= 0xA0) && (s[0] == 0xED ==> s[1] <= 0x9F) then 3 else 0
    else if 0xF0 <= s[0] <= 0xF4 then
      if |s| >= 4 && IsTail(s[1]) && IsTail(s[2]) && IsTail(s[3])
         && (s[0] == 0xF0 ==> s[1] >= 0x90) && (s[0] == 0xF4 ==> s[1] <= 0x8F) then 4 else 0
    else 0
  }

  /** A sequence of whole characters. */
  predicate WellFormed(s: Bytes)
    decreases |s|
  {
    s == [] || (CharLength(s) > 0 && WellFormed(s[CharLength(s)..]))
  }

  predicate NulFree(s: Bytes) {
    0 !in s
  }

  /** r is the longest well-formed prefix of s of at most n bytes. */
  ghost predicate IsLongestPrefix(s: Bytes, n: nat, r: Bytes) {
    && |r| <= |s| && |r| <= n && r == s[..|r|] && WellFormed(r)
    && forall j | |r| < j <= n && j <= |s| :: !WellFormed(s[..j])
  }

  // --- What the code computes, on any bytes -----------------------------------------------

  function FirstNul(s: Bytes): (k: nat)
    ensures k <= |s|
    ensures forall i | 0 <= i < k :: s[i] != 0
    ensures k < |s| ==> s[k] == 0
  {
    if s == [] || s[0] == 0 then 0 else 1 + FirstNul(s[1..])
  }

  /** The C string a NUL-terminated buffer holds. */
  function CString(s: Bytes): Bytes {
    s[..FirstNul(s)]
  }

  /** The last byte at or before p that is not a tail byte, or the first byte. */
  function CharStart(s: Bytes, p: nat): (k: nat)
    requires p < |s|
    ensures k <= p
    ensures forall i | k < i <= p :: IsTail(s[i])
    ensures k > 0 ==> !IsTail(s[k])
  {
    if p > 0 && IsTail(s[p]) then CharStart(s, p - 1) else p
  }

  /** Whether b starts a character of the given length; the code also knows lengths 5 and 6. */
  predicate Starts(b: Byte, length: nat) {
    match length
    case 6 => And(b, 0xFE) == 0xFC
    case 5 => And(b, 0xFC) == 0xF8
    case 4 => And(b, 0xF8) == 0xF0
    case 3 => And(b, 0xF0) == 0xE0
    case 2 => And(b, 0xE0) == 0xC0
    case _ => false
  }

  function Truncated(s: Bytes, n: nat): (r: Bytes)
    ensures |r| <= n && r <= s
  {
    if n == 0 then []
    else if n >= |s| then s
    else if !NulFree(s[..n]) then CString(s[..n])
    else if IsAscii(s[n - 1]) then s[..n]
    else
      var k := CharStart(s, n - 1);
      if Starts(s[k], n - k) then s[..n] else s[..k]
  }

  // --- The code ---------------------------------------------------------------------------

  method StrLen(buffer: array<Byte>) returns (len: nat)
    requires exists i :: 0 <= i < buffer.Length && buffer[i] == 0
    ensures len < buffer.Length && len == FirstNul(buffer[..])
  {
    len := 0;
    while buffer[len] != 0
      invariant len < buffer.Length
      invariant forall i | 0 <= i < len :: buffer[i] != 0
      decreases buffer.Length - len
    {
      len := len + 1;
    }
    FirstNulUnique(buffer[..], len);
  }

  /** Copies at most n bytes, stopping at a NUL and padding with NULs. */
  method StrNCpy(buffer: array<Byte>, s: Bytes, n: nat)
    requires n < buffer.Length && n <= |s|
    modifies buffer
    ensures forall i | 0 <= i < n :: buffer[i] == if i < FirstNul(s) then s[i] else 0
  {
    var i := 0;
    while i < n && s[i] != 0
      invariant 0 <= i <= n
      invariant forall j | 0 <= j < i :: buffer[j] == s[j] && s[j] != 0
    {
      buffer[i] := s[i];
      i := i + 1;
    }
    if i < n {
      FirstNulUnique(s, i);
    }
    while i < n
      invariant 0 <= i <= n
      invariant forall j | 0 <= j < i :: buffer[j] == if j < FirstNul(s) then s[j] else 0
    {
      buffer[i] := 0;
      i := i + 1;
    }
  }

  /** Walks back from the last byte over tail bytes. */
  method FindCharStart(buffer: array<Byte>, last: nat) returns (pos: nat)
    requires last < buffer.Length
    ensures pos == CharStart(buffer[..], last)
  {
    pos := last;
    while pos > 0 && And(buffer[pos], 0xC0) == 0x80
      invariant 0 <= pos <= last
      invariant CharStart(buffer[..], pos) == CharStart(buffer[..], last)
    {
      pos := pos - 1;
    }
  }

  /** Compares a byte with the start pattern of a character of skippedBytes bytes. */
  method IsBroken(start: Byte, skippedBytes: nat) returns (broken: bool)
    ensures broken <==> !Starts(start, skippedBytes)
  {
    var mask: Byte := 0xFF;
    var compareTo: Byte := 0xFF;
    match skippedBytes {
      case 6 => mask, compareTo := 0xFE, 0xFC;
      case 5 => mask, compareTo := 0xFC, 0xF8;
      case 4 => mask, compareTo := 0xF8, 0xF0;
      case 3 => mask, compareTo := 0xF0, 0xE0;
      case 2 => mask, compareTo := 0xE0, 0xC0;
      case _ =>
    }
    if mask != 0xFF {
      broken := And(start, mask) != compareTo;
    } else {
      broken := true;
    }
  }

  method TruncateUtf8String(input: Bytes, maxBytes: int) returns (result: Bytes)
    requires maxBytes >= 0
    ensures result == Truncated(input, maxBytes)
  {
    if maxBytes == 0 {
      return [];
    } else if maxBytes >= |input| {
      return input;
    }

    var buffer := new Byte[maxBytes + 1];
    StrNCpy(buffer, input, maxBytes);
    buffer[maxBytes] := 0;
    FirstNulOfPrefix(input, maxBytes);
    FirstNulUnique(buffer[..], FirstNul(input[..maxBytes]));
    assert buffer[..FirstNul(buffer[..])] == CString(input[..maxBytes]);
    var len := StrLen(buffer);
    if len == maxBytes {
      assert buffer[..maxBytes] == input[..maxBytes];
      CutBrokenCharacter(buffer, input, maxBytes);
    }
    len := StrLen(buffer);
    result := buffer[..len];
  }

  /** The tail of the function: a buffer full of bytes loses its last character if broken. */
  method CutBrokenCharacter(buffer: array<Byte>, ghost input: Bytes, len: nat)
    requires 0 < len < |input| && buffer.Length == len + 1
    requires buffer[..len] == input[..len] && buffer[len] == 0 && NulFree(input[..len])
    modifies buffer
    ensures exists i :: 0 <= i < buffer.Length && buffer[i] == 0
    ensures CString(buffer[..]) == Truncated(input, len)
  {
    hide CharStart, Starts, FirstNul, IsTail;
    ghost var before := buffer[..];
    assert forall i | 0 <= i < len :: before[i] == input[..len][i] != 0;
    FirstNulUnique(before, len);
    var pos := len - 1;
    if And(buffer[pos], 0x80) == 0x80 {
      pos := FindCharStart(buffer, pos);
      CharStartOfPrefix(before, input, len - 1);
      var broken := IsBroken(buffer[pos], len - pos);
      if broken {
        buffer[pos] := 0;
        FirstNulUnique(buffer[..], pos);
        assert buffer[..pos] == before[..pos] == input[..pos];
      }
    }
    assert buffer[len] == 0;
  }

  lemma {:induction false} CharStartOfPrefix(s: Bytes, t: Bytes, p: nat)
    requires p < |s| && p < |t| && s[..p + 1] == t[..p + 1]
    ensures CharStart(s, p) == CharStart(t, p)
  {
    assert s[p] == s[..p + 1][p] == t[..p + 1][p] == t[p];
    if p > 0 && IsTail(s[p]) {
      assert s[..p] == s[..p + 1][..p] == t[..p + 1][..p] == t[..p];
      CharStartOfPrefix(s, t, p - 1);
    }
  }

  lemma FirstNulUnique(s: Bytes, k: nat)
    requires k < |s| && s[k] == 0 && forall i | 0 <= i < k :: s[i] != 0
    ensures FirstNul(s) == k
  {
  }

  lemma FirstNulOfPrefix(s: Bytes, n: nat)
    requires n <= |s|
    ensures FirstNul(s[..n]) == if FirstNul(s) < n then FirstNul(s) else n
  {
    var k, j := FirstNul(s), FirstNul(s[..n]);
    if k < n {
      assert s[..n][k] == 0;
      FirstNulUnique(s[..n], k);
    } else {
      assert forall i | 0 <= i < n :: s[..n][i] == s[i] != 0;
    }
  }

  // --- The truncated string is the longest well-formed prefix -----------------------------

  lemma CharLengthOfPrefix(s: Bytes, j: nat)
    requires j <= |s|
    ensures CharLength(s[..j]) == if CharLength(s) <= j then CharLength(s) else 0
  {
  }

  /** The characters of a well-formed prefix are characters of the string. */
  lemma {:induction false} PrefixSplit(s: Bytes, j: nat)
    requires s != [] && j <= |s| && CharLength(s) > 0
    ensures WellFormed(s[..j]) <==>
      j == 0 || (CharLength(s) <= j && WellFormed(s[CharLength(s)..][..j - CharLength(s)]))
  {
    CharLengthOfPrefix(s, j);
    var L := CharLength(s);
    if 0 < j && L <= j {
      assert s[..j][L..] == s[L..][..j - L];
    }
  }

  /** What the code finds: the character k around byte p, inside a well-formed string. */
  ghost predicate CharAround(s: Bytes, k: nat, p: nat) {
    && k <= p < |s|
    && WellFormed(s[..k])
    && var L := CharLength(s[k..]);
       p < k + L
       && (forall i | k < i < k + L :: IsTail(s[i]))
       && !IsTail(s[k])
       && L > 0
       && (forall j | k < j < k + L :: !WellFormed(s[..j]))
       && WellFormed(s[..k + L])
  }

  lemma FirstCharTails(s: Bytes)
    requires CharLength(s) > 0
    ensures !IsTail(s[0]) && (CharLength(s) == 1 <==> IsAscii(s[0]))
    ensures forall i | 0 < i < CharLength(s) :: IsTail(s[i])
  {
  }

  lemma FirstCharStart(s: Bytes, n: nat)
    requires CharLength(s) > 0 && 2 <= n
    ensures Starts(s[0], n) <==> n == CharLength(s)
  {
  }

  /** The first character of a well-formed string. */
  lemma FirstChar(s: Bytes, p: nat)
    requires WellFormed(s) && p < CharLength(s)
    ensures CharAround(s, 0, p)
  {
    var L := CharLength(s);
    assert s[0..] == s;
    FirstCharTails(s);
    forall j | 0 < j < L ensures !WellFormed(s[..j]) {
      PrefixSplit(s, j);
    }
    PrefixSplit(s, L);
    assert s[L..][..0] == [];
  }

  /** What is a character of the rest is one of the whole string. */
  lemma LaterChar(s: Bytes, k: nat, p: nat)
    requires CharLength(s) > 0 && CharAround(s[CharLength(s)..], k, p)
    ensures CharAround(s, k + CharLength(s), p + CharLength(s))
  {
    hide CharLength, IsTail, WellFormed;
    var L := CharLength(s);
    var t := s[L..];
    var M := CharLength(t[k..]);
    assert s[L + k..] == t[k..];
    LaterPrefix(s, k);
    LaterPrefix(s, k + M);
    forall i | L + k < i < L + k + M ensures IsTail(s[i]) {
      assert s[i] == t[i - L];
    }
    forall j | L + k < j < L + k + M ensures !WellFormed(s[..j]) {
      LaterPrefix(s, j - L);
    }
  }

  lemma LaterPrefix(s: Bytes, j: nat)
    requires CharLength(s) > 0 && j <= |s| - CharLength(s)
    ensures WellFormed(s[..CharLength(s) + j]) <==> WellFormed(s[CharLength(s)..][..j])
  {
    hide CharLength, WellFormed;
    PrefixSplit(s, CharLength(s) + j);
  }

  lemma {:induction false} FindChar(s: Bytes, p: nat) returns (k: nat)
    requires WellFormed(s) && p < |s|
    ensures CharAround(s, k, p)
    decreases |s|
  {
    hide CharLength, CharAround;
    var L := CharLength(s);
    if p < L {
      k := 0;
      FirstChar(s, p);
    } else {
      k := FindChar(s[L..], p - L);
      LaterChar(s, k, p - L);
      k := k + L;
    }
  }

  lemma CharStartFound(s: Bytes, k: nat, p: nat)
    requires CharAround(s, k, p)
    ensures CharStart(s, p) == k
  {
  }

  /** For NUL-free well-formed UTF-8 the result is the longest prefix of at most n bytes that
      ends on a character boundary. */
  lemma TruncatedIsLongest(s: Bytes, n: nat)
    requires WellFormed(s) && NulFree(s)
    ensures IsLongestPrefix(s, n, Truncated(s, n))
  {
    hide CharLength, CharStart, Starts, WellFormed, Truncated, IsLongestPrefix, NulFree, CharAround;
    if 0 < n < |s| {
      var k := FindChar(s, n - 1);
      CharStartFound(s, k, n - 1);
      CutAroundChar(s, n, k);
    } else {
      WholeOrNothing(s, n);
    }
  }

  lemma WholeOrNothing(s: Bytes, n: nat)
    requires WellFormed(s) && (n == 0 || n >= |s|)
    ensures IsLongestPrefix(s, n, Truncated(s, n))
  {
    assert s[..|s|] == s && s[..0] == [];
    hide CharLength, CharStart, Starts, NulFree, IsAscii, CString;
  }

  lemma CutAroundChar(s: Bytes, n: nat, k: nat)
    requires 0 < n < |s| && NulFree(s) && CharAround(s, k, n - 1) && CharStart(s, n - 1) == k
    ensures IsLongestPrefix(s, n, Truncated(s, n))
  {
    hide CharLength, CharStart, Starts;
    assert NulFree(s[..n]);
    var c := s[k..];
    FirstCharTails(c);
    if IsAscii(s[n - 1]) {
      assert k == n - 1 && CharLength(c) == 1;
    } else if n - k >= 2 {
      FirstCharStart(c, n - k);
    } else {
      NoCharOfOne(c);
    }
  }

  lemma NoCharOfOne(s: Bytes)
    requires CharLength(s) > 0 && !IsAscii(s[0])
    ensures CharLength(s) >= 2 && !Starts(s[0], 1)
  {
  }

  lemma LongestIsUnique(s: Bytes, n: nat, r: Bytes, t: Bytes)
    requires IsLongestPrefix(s, n, r) && IsLongestPrefix(s, n, t)
    ensures r == t
  {
  }

  /** Truncating twice is truncating once to the smaller length. */
  lemma TruncateTwice(s: Bytes, m: nat, n: nat)
    requires WellFormed(s) && NulFree(s)
    ensures Truncated(Truncated(s, m), n) == Truncated(s, if m < n then m else n)
  {
    hide Truncated, WellFormed;
    var t := Truncated(s, m);
    TruncatedIsLongest(s, m);
    assert NulFree(t);
    TruncatedIsLongest(t, n);
    var r := Truncated(t, n);
    var least := if m < n then m else n;
    TruncatedIsLongest(s, least);
    assert r == s[..|r|];
    forall j | |r| < j <= least && j <= |s| ensures !WellFormed(s[..j]) {
      if j <= |t| { assert t[..j] == s[..j]; }
    }
    LongestIsUnique(s, least, r, Truncated(s, least));
  }

  // --- On any bytes -----------------------------------------------------------------------

  /** How many bytes a leading byte announces; 0 for a byte that leads no longer character. */
  function Announced(b: Byte): nat {
    if 0xC0 <= b < 0xE0 then 2
    else if 0xE0 <= b < 0xF0 then 3
    else if 0xF0 <= b < 0xF8 then 4
    else if 0xF8 <= b < 0xFC then 5
    else if 0xFC <= b < 0xFE then 6
    else 0
  }

  lemma BytesByRange(b: Byte)
    ensures IsAscii(b) <==> b < 0x80
    ensures IsTail(b) <==> 0x80 <= b < 0xC0
  {
  }

  lemma AnnouncedStarts(b: Byte, n: nat)
    requires n >= 1
    ensures Starts(b, n) <==> n == Announced(b)
  {
  }

  /** Bytes from k to n are a leading byte, or the first byte of all, and continuation bytes. */
  predicate LastCharacter(s: Bytes, k: nat, n: nat) {
    k < n <= |s| && (k == 0 || !(0x80 <= s[k] < 0xC0)) && forall i | k < i < n :: 0x80 <= s[i] < 0xC0
  }

  /** What is cut off at most, on any bytes: what follows a NUL, and the last character if its leading
      byte announces another number of bytes than are there. */
  lemma TruncatedExactly(s: Bytes, n: nat, k: nat)
    requires 0 < n < |s| && LastCharacter(s, k, n)
    ensures NulFree(s[..n]) ==>
      Truncated(s, n) == if s[n - 1] < 0x80 || Announced(s[k]) == n - k then s[..n] else s[..k]
    ensures !NulFree(s[..n]) ==>
      |Truncated(s, n)| < n && s[|Truncated(s, n)|] == 0 && 0 !in Truncated(s, n)
  {
    hide Starts, IsTail, IsAscii, And;
    BytesByRange(s[n - 1]);
    StartsAt(s, k, n - 1);
    AnnouncedStarts(s[k], n - k);
    if !NulFree(s[..n]) {
      CutAtNul(s[..n]);
    }
  }

  lemma CutAtNul(s: Bytes)
    requires !NulFree(s)
    ensures FirstNul(s) < |s| && s[FirstNul(s)] == 0 && 0 !in CString(s)
  {
    var i :| 0 <= i < |s| && s[i] == 0;
    assert FirstNul(s) <= i;
  }

  lemma {:induction false} StartsAt(s: Bytes, k: nat, p: nat)
    requires LastCharacter(s, k, p + 1)
    ensures CharStart(s, p) == k
    decreases p
  {
    hide IsTail;
    BytesByRange(s[p]);
    if k < p {
      StartsAt(s, k, p - 1);
    }
  }

  /** There is always such a last character. */
  lemma LastCharacterExists(s: Bytes, n: nat) returns (k: nat)
    requires 0 < n <= |s|
    ensures LastCharacter(s, k, n)
  {
    k := CharStart(s, n - 1);
    hide IsTail, CharStart;
    forall i | k <= i < n ensures IsTail(s[i]) <==> 0x80 <= s[i] < 0xC0 {
      BytesByRange(s[i]);
    }
  }
}
