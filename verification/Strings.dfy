/** String helpers of `src/base.cpp` and the parts of std::string they rest on.

    A position that std::string::npos marks as not found is the length of the string here, so
    that every position is one at which the string can be cut. */
module Strings {

  datatype Option<+T> = None | Some(value: T)

  /** std::string::find of a character; |s| stands for npos. */
  function Find(s: string, c: char, from: nat := 0): (r: nat)
    ensures r <= |s|
    ensures from <= |s| ==> from <= r
    ensures forall i | from <= i < r :: s[i] != c
    ensures r < |s| ==> from <= r && s[r] == c
    decreases |s| - from
  {
    if from >= |s| then |s| else if s[from] == c then from else Find(s, c, from + 1)
  }

  /** std::string::find_first_of; |s| stands for npos. */
  function FindFirstOf(s: string, cs: set<char>, from: nat): (r: nat)
    ensures r <= |s|
    ensures from <= |s| ==> from <= r
    ensures forall i | from <= i < r :: s[i] !in cs
    ensures r < |s| ==> from <= r && s[r] in cs
    decreases |s| - from
  {
    if from >= |s| then |s| else if s[from] in cs then from else FindFirstOf(s, cs, from + 1)
  }

  lemma FindUnique(s: string, c: char, from: nat, r: nat)
    requires from <= r <= |s| && forall i | from <= i < r :: s[i] != c
    requires r < |s| ==> s[r] == c
    ensures Find(s, c, from) == r
  {
  }

  /** std::string::erase of one character. */
  function Erase(s: string, i: nat): (r: string)
    requires i < |s|
    ensures |r| == |s| - 1
  {
    s[..i] + s[i + 1..]
  }

  predicate IsBlank(c: char) {
    c == ' ' || c == '\t' || c == '\n' || c == '\r'
  }

  function TrimLeft(s: string): (r: string)
    ensures |r| <= |s| && r == s[|s| - |r|..]
    ensures r == "" || !IsBlank(r[0])
    ensures forall i | 0 <= i < |s| - |r| :: IsBlank(s[i])
  {
    if s != "" && IsBlank(s[0]) then TrimLeft(s[1..]) else s
  }

  function TrimRight(s: string): (r: string)
    ensures r <= s
    ensures r == "" || !IsBlank(r[|r| - 1])
    ensures forall i | |r| <= i < |s| :: IsBlank(s[i])
  {
    if s != "" && IsBlank(s[|s| - 1]) then TrimRight(s[..|s| - 1]) else s
  }

  /** Removes blanks, tabs and line ends around a string. */
  function Trim(s: string): (r: string) {
    TrimRight(TrimLeft(s))
  }

  predicate IsTrimmed(s: string) {
    s == "" || (!IsBlank(s[0]) && !IsBlank(s[|s| - 1]))
  }

  predicate AllBlank(s: string) {
    forall c | c in s :: IsBlank(c)
  }

  /** Trimming removes exactly the surrounding blanks. */
  lemma TrimPadded(pre: string, s: string, post: string)
    requires AllBlank(pre) && AllBlank(post) && IsTrimmed(s)
    ensures Trim(pre + s + post) == s
  {
    hide TrimLeft, TrimRight;
    TrimLeftPadded(pre, s + post);
    assert pre + s + post == pre + (s + post);
    if s == "" {
      assert s + post == post;
      TrimLeftBlank(post);
    } else {
      assert (s + post)[0] == s[0];
      TrimRightPadded(s, post);
    }
  }

  /** Blanks are spaces, tabs, line feeds and carriage returns, and nothing else is one. */
  lemma BlanksTrimmed(s: string)
    requires s != "" && s[0] !in " \t\n\r" && s[|s| - 1] !in " \t\n\r"
    ensures Trim(" \t\n\r" + s + "\r\n\t ") == s
  {
    assert forall c | c in " \t\n\r" || c in "\r\n\t " :: IsBlank(c);
    assert ' ' in " \t\n\r" && '\t' in " \t\n\r" && '\n' in " \t\n\r" && '\r' in " \t\n\r" by {
      assert " \t\n\r"[0] == ' ' && " \t\n\r"[1] == '\t' && " \t\n\r"[2] == '\n' && " \t\n\r"[3] == '\r';
    }
    TrimPadded(" \t\n\r", s, "\r\n\t ");
  }

  lemma {:induction false} TrimLeftPadded(pre: string, s: string)
    requires AllBlank(pre)
    ensures TrimLeft(pre + s) == TrimLeft(s)
  {
    if pre == "" {
      assert pre + s == s;
    } else {
      assert (pre + s)[1..] == pre[1..] + s;
      TrimLeftPadded(pre[1..], s);
    }
  }

  lemma {:induction false} TrimLeftBlank(s: string)
    requires AllBlank(s)
    ensures TrimLeft(s) == ""
  {
  }

  lemma {:induction false} TrimRightPadded(s: string, post: string)
    requires s != "" && !IsBlank(s[|s| - 1]) && AllBlank(post)
    ensures TrimRight(s + post) == s
  {
    if post == "" {
      assert s + post == s;
    } else {
      assert (s + post)[..|s + post| - 1] == s + post[..|post| - 1];
      TrimRightPadded(s, post[..|post| - 1]);
    }
  }

  lemma TrimKeeps(s: string)
    requires IsTrimmed(s)
    ensures Trim(s) == s
  {
  }

  /** Concatenation with a separator, `join`. */
  function Join(parts: seq<string>, delimiter: string): string {
    if parts == [] then ""
    else if |parts| == 1 then parts[0]
    else parts[0] + delimiter + Join(parts[1..], delimiter)
  }

  predicate Free(s: string, cs: set<char>) {
    forall c | c in s :: c !in cs
  }

  lemma {:induction false} JoinLacks(fs: seq<string>, delimiter: string, c: char)
    requires c !in delimiter && forall f | f in fs :: c !in f
    ensures c !in Join(fs, delimiter)
  {
    if |fs| > 1 {
      JoinLacks(fs[1..], delimiter, c);
    }
  }

  /** Taking out a later element, seen from the tail. */
  lemma SkipOne<T>(s: seq<T>, i: nat)
    requires 0 < i < |s|
    ensures s[..i] + s[i + 1..] == [s[0]] + (s[1..][..i - 1] + s[1..][i..])
  {
  }
}
