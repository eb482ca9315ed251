/** Splitting with a backslash escape: `splitString` and `findAndUnescape` of `src/base.cpp`. */
module SplitString {
  import opened Strings

  // --- Specification ----------------------------------------------------------------------

  datatype Cut = Cut(field: string, rest: Option<string>)

  /** The text up to the first delimiter that no backslash precedes, with the backslashes
      before earlier delimiters removed, and what follows that delimiter. */
  function FirstField(s: string, d: char): (c: Cut)
    ensures c.rest.Some? ==> |c.field| + |c.rest.value| < |s|
    ensures c.rest.None? ==> |c.field| <= |s|
  {
    if s == "" then Cut("", None)
    else if s[0] == d then Cut("", Some(s[1..]))
    else if s[0] == '\\' && |s| >= 2 && s[1] == d then
      var c := FirstField(s[2..], d);
      Cut([d] + c.field, c.rest)
    else
      var c := FirstField(s[1..], d);
      Cut([s[0]] + c.field, c.rest)
  }

  /** Cutting repeatedly. */
  function Fields(s: string, d: char): (fs: seq<string>)
    ensures fs != []
    decreases |s|
  {
    var c := FirstField(s, d);
    match c.rest
    case None => [c.field]
    case Some(rest) => [c.field] + Fields(rest, d)
  }

  function Entry(f: string, trimEntries: bool): string {
    if trimEntries then Trim(f) else f
  }

  function Trimmed(fs: seq<string>, trimEntries: bool): (r: seq<string>)
    ensures |r| == |fs|
  {
    seq(|fs|, i requires 0 <= i < |fs| => Entry(fs[i], trimEntries))
  }

  /** The empty string has no fields; any other string has those between its delimiters. */
  function Split(s: string, d: char, trimEntries: bool := false): seq<string> {
    if s == "" then [] else Trimmed(Fields(s, d), trimEntries)
  }

  function Prepend(head: string, fs: seq<string>): (r: seq<string>)
    requires fs != []
    ensures |r| == |fs|
  {
    [head + fs[0]] + fs[1..]
  }

  lemma PlainCut(t: string, d: char)
    requires t != "" && t[0] != d && !(t[0] == '\\' && |t| >= 2 && t[1] == d)
    ensures FirstField(t, d) == After([t[0]], FirstField(t[1..], d))
  {
  }

  lemma {:induction false} PlainRun(a: string, b: string, d: char)
    requires d != '\\' && d !in a
    requires a != "" && a[|a| - 1] == '\\' ==> b == "" || b[0] != d
    ensures FirstField(a + b, d) == After(a, FirstField(b, d))
  {
    hide FirstField;
    if a == "" {
      assert a + b == b;
    } else {
      var t := a + b;
      assert t[0] == a[0] && t[1..] == a[1..] + b;
      assert t[0] == '\\' && |t| >= 2 ==> t[1] != d by {
        if |a| >= 2 { assert t[1] == a[1]; } else if b != "" { assert t[1] == b[0]; }
      }
      PlainCut(t, d);
      PlainRun(a[1..], b, d);
      assert [a[0]] + (a[1..] + FirstField(b, d).field) == a + FirstField(b, d).field;
    }
  }

  lemma EscapedRun(a: string, b: string, d: char)
    requires d != '\\' && d !in a
    ensures FirstField(a + ['\\', d] + b, d) == Cut(a + [d] + FirstField(b, d).field, FirstField(b, d).rest)
  {
    var t := ['\\', d] + b;
    assert t[2..] == b;
    PlainRun(a, t, d);
    assert a + ['\\', d] + b == a + t;
    assert a + ([d] + FirstField(b, d).field) == a + [d] + FirstField(b, d).field;
  }

  // --- The code ---------------------------------------------------------------------------

  datatype Found = Found(text: string, pos: nat)

  /** The position of the first unescaped c at or after startPos, every escape before it removed;
      |text| stands for npos. */
  function FoundUnescaped(str: string, c: char, startPos: nat): (f: Found)
    requires startPos <= |str|
    ensures startPos <= f.pos <= |f.text| <= |str| && f.text[..startPos] == str[..startPos]
    ensures f.pos < |f.text| ==> f.text[f.pos] == c
  {
    var cut := FirstField(str[startPos..], c);
    match cut.rest
    case None => Found(str[..startPos] + cut.field, startPos + |cut.field|)
    case Some(rest) => Found(str[..startPos] + cut.field + [c] + rest, startPos + |cut.field|)
  }

  /** findAndUnescape, which removes the escapes from str in place: the string as changed is the
      first result. */
  method FindAndUnescape(str: string, c: char, startPos: nat) returns (result: string, pos: nat)
    requires c != '\\' && startPos <= |str|
    requires 0 < startPos < |str| && str[startPos] == c ==> str[startPos - 1] != '\\'
    ensures Found(result, pos) == FoundUnescaped(str, c, startPos)
  {
    hide FirstField, Find, Erase;
    result := str;
    pos := Find(result, c, startPos);
    ghost var done := startPos;
    assert str[startPos..startPos] == "";
    while pos != |result| && pos > 0 && result[pos - 1] == '\\'
      invariant startPos <= done <= pos <= |result|
      invariant pos == Find(result, c, done)
      invariant pos < |result| && pos == done > 0 ==> result[pos - 1] != '\\'
      invariant Unescaping(str, result, startPos, done, c)
      decreases |result|
    {
      EscapeKeepsUnescaping(str, result, startPos, done, pos, c);
      result := Erase(result, pos - 1);
      done := pos;
      pos := Find(result, c, pos);
    }
    FinishUnescaping(str, result, startPos, done, pos, c);
  }

  lemma FinishUnescaping(str: string, cur: string, start: nat, done: nat, p: nat, d: char)
    requires Unescaping(str, cur, start, done, d)
    requires d != '\\' && done <= p <= |cur| && forall i | done <= i < p :: cur[i] != d
    requires p < |cur| ==> cur[p] == d && (p == done || cur[p - 1] != '\\')
    ensures var cut := FirstField(str[start..], d);
      match cut.rest
      case None => cur == str[..start] + cut.field && p == |cur|
      case Some(rest) => p == start + |cut.field| && cur == str[..start] + cut.field + [d] + rest
  {
    hide FirstField;
    NoEscapeLeft(cur, done, p, d);
    assert cur[start..p] == cur[start..done] + cur[done..p];
    assert cur == cur[..start] + cur[start..p] + cur[p..];
  }

  /** What the loop of FindAndUnescape has read and what is left. */
  ghost predicate Unescaping(str: string, cur: string, start: nat, done: nat, d: char) {
    && start <= done <= |cur| && start <= |str|
    && cur[..start] == str[..start]
    && FirstField(str[start..], d) == After(cur[start..done], FirstField(cur[done..], d))
  }

  lemma EscapeKeepsUnescaping(str: string, cur: string, start: nat, done: nat, p: nat, d: char)
    requires Unescaping(str, cur, start, done, d)
    requires d != '\\' && done < p < |cur| && cur[p] == d && cur[p - 1] == '\\'
    requires forall i | done <= i < p :: cur[i] != d
    ensures Unescaping(str, Erase(cur, p - 1), start, p, d)
    ensures Erase(cur, p - 1)[p - 1] == d
  {
    Unescape(cur, done, p, d);
    EraseSlices(cur, start, done, p);
    AfterAfter(cur[start..done], cur[done..p - 1] + [d], FirstField(Erase(cur, p - 1)[p..], d));
  }

  lemma EraseSlices(s: string, start: nat, done: nat, p: nat)
    requires start <= done < p < |s|
    ensures var s' := Erase(s, p - 1);
      && s'[..start] == s[..start]
      && s'[start..p] == s[start..done] + (s[done..p - 1] + [s[p]])
      && s'[p..] == s[p + 1..]
      && s'[p - 1] == s[p]
  {
  }

  lemma AfterAfter(a: string, b: string, c: Cut)
    ensures After(a, After(b, c)) == After(a + b, c)
  {
  }

  /** A cut whose field continues text already read. */
  function After(head: string, c: Cut): Cut {
    Cut(head + c.field, c.rest)
  }

  /** One escape between `from` and the delimiter at p. */
  lemma Unescape(s: string, from: nat, p: nat, d: char)
    requires d != '\\' && from < p < |s| && s[p] == d && s[p - 1] == '\\'
    requires forall i | from <= i < p :: s[i] != d
    ensures var s' := Erase(s, p - 1);
      s'[p..] == s[p + 1..] && FirstField(s[from..], d) == After(s[from..p - 1] + [d], FirstField(s'[p..], d))
  {
    EscapedRun(s[from..p - 1], s[p + 1..], d);
    assert s[from..] == s[from..p - 1] + ['\\', d] + s[p + 1..];
    EraseSlices(s, from, from, p);
  }

  /** No escape between `from` and the delimiter at p, or the end of the string. */
  lemma NoEscapeLeft(s: string, from: nat, p: nat, d: char)
    requires d != '\\' && from <= p <= |s| && forall i | from <= i < p :: s[i] != d
    requires p < |s| ==> s[p] == d && (p == from || s[p - 1] != '\\')
    ensures FirstField(s[from..], d) == Cut(s[from..p], if p == |s| then None else Some(s[p + 1..]))
  {
    PlainRun(s[from..p], s[p..], d);
    assert s[from..] == s[from..p] + s[p..];
    assert p < |s| ==> s[p..][1..] == s[p + 1..];
  }

  /** What the loop of SplitFields has read and what is left. */
  ghost predicate Progress(source: string, cur: string, start: nat, skip: nat, raw: seq<string>, d: char)
    requires start <= skip <= |cur|
  {
    Fields(source, d) == raw + Prepend(cur[start..skip], Fields(cur[skip..], d))
  }

  lemma EscapeKeepsProgress(source: string, cur: string, start: nat, skip: nat, p: nat, raw: seq<string>, d: char)
    requires start <= skip < p < |cur| && d != '\\' && cur[p] == d && cur[p - 1] == '\\'
    requires forall i | skip <= i < p :: cur[i] != d
    requires Progress(source, cur, start, skip, raw, d)
    ensures Progress(source, Erase(cur, p - 1), start, p, raw, d)
    ensures Erase(cur, p - 1)[p - 1] == d
  {
    var cur' := Erase(cur, p - 1);
    Unescape(cur, skip, p, d);
    EraseSlices(cur, start, skip, p);
    var fs := Fields(cur'[p..], d);
    assert cur'[start..p] + fs[0] == cur[start..skip] + (cur[skip..p - 1] + [d] + fs[0]);
  }

  lemma FieldKeepsProgress(source: string, cur: string, start: nat, skip: nat, p: nat, raw: seq<string>, d: char)
    requires start <= skip <= p <= |cur| && d != '\\'
    requires forall i | skip <= i < p :: cur[i] != d
    requires p < |cur| ==> cur[p] == d && (p == skip || cur[p - 1] != '\\')
    requires Progress(source, cur, start, skip, raw, d)
    ensures p == |cur| ==> Fields(source, d) == raw + [cur[start..p]]
    ensures p < |cur| ==> Fields(source, d) == raw + [cur[start..p]] + Fields(cur[p + 1..], d)
  {
    hide FirstField;
    NoEscapeLeft(cur, skip, p, d);
    assert cur[start..skip] + cur[skip..p] == cur[start..p];
  }

  /** The loop invariant of SplitFields: the fields read so far, or all of them. */
  ghost predicate Splitting(source: string, cur: string, start: nat, skip: nat, raw: seq<string>, d: char) {
    && start <= skip <= |cur|
    && (skip == 0 || cur[skip - 1] == d)
    && if start == |cur| then raw == if source == "" then [] else Fields(source, d)
       else source != "" && Progress(source, cur, start, skip, raw, d)
  }

  lemma SplittingStarts(source: string, d: char)
    ensures Splitting(source, source, 0, 0, [], d)
  {
    assert source[0..0] == "" && source[0..] == source;
    assert "" + Fields(source, d)[0] == Fields(source, d)[0];
  }

  lemma SplittingContinues(source: string, cur: string, start: nat, p: nat, raw: seq<string>, d: char)
    requires source != "" && p < |cur| && cur[p] == d
    requires Fields(source, d) == raw + Fields(cur[p + 1..], d)
    ensures Splitting(source, cur, p + 1, p + 1, if p + 1 == |cur| then raw + [""] else raw, d)
  {
    var fs := Fields(cur[p + 1..], d);
    assert cur[p + 1..p + 1] + fs[0] == fs[0];
  }

  lemma EmptyEntry(trimEntries: bool)
    ensures Entry("", trimEntries) == ""
  {
  }

  lemma SplitFromFields(source: string, raw: seq<string>, d: char, trimEntries: bool)
    requires source != "" && Fields(source, d) == raw
    ensures Split(source, d, trimEntries) == Trimmed(raw, trimEntries)
  {
  }

  lemma SplittingEnds(source: string, cur: string, start: nat, skip: nat, raw: seq<string>, d: char,
                      trimEntries: bool)
    requires Splitting(source, cur, start, skip, raw, d) && start >= |cur|
    ensures Split(source, d, trimEntries) == Trimmed(raw, trimEntries)
  {
  }

  lemma TrimmedSnoc(raw: seq<string>, f: string, trimEntries: bool)
    ensures Trimmed(raw + [f], trimEntries) == Trimmed(raw, trimEntries) + [Entry(f, trimEntries)]
  {
    var all, fs := Trimmed(raw + [f], trimEntries), Trimmed(raw, trimEntries);
    assert all[..|raw|] == fs by {
      assert forall i | 0 <= i < |raw| :: (raw + [f])[i] == raw[i];
    }
    assert (raw + [f])[|raw|] == f;
  }

  lemma EscapeKeepsSplitting(source: string, cur: string, start: nat, skip: nat, p: nat, raw: seq<string>, d: char)
    requires start <= skip <= p < |cur| && 0 < p && d != '\\' && cur[p] == d && cur[p - 1] == '\\'
    requires forall i | skip <= i < p :: cur[i] != d
    requires Splitting(source, cur, start, skip, raw, d)
    ensures skip < p && Splitting(source, Erase(cur, p - 1), start, p, raw, d)
  {
    EscapeKeepsProgress(source, cur, start, skip, p, raw, d);
  }

  /** A field ends at p; the one after the last delimiter may be empty. */
  lemma FieldRead(source: string, cur: string, start: nat, skip: nat, p: nat, raw: seq<string>, d: char)
    requires start <= skip <= p <= |cur| && start < |cur| && d != '\\'
    requires forall i | skip <= i < p :: cur[i] != d
    requires p < |cur| ==> cur[p] == d && (p == 0 || cur[p - 1] != '\\')
    requires Splitting(source, cur, start, skip, raw, d)
    ensures source != ""
    ensures p == |cur| ==> Fields(source, d) == raw + [cur[start..p]]
    ensures p < |cur| ==>
      var more := raw + [cur[start..p]];
      Splitting(source, cur, p + 1, p + 1, if p + 1 == |cur| then more + [""] else more, d)
  {
    hide Fields, FirstField;
    FieldKeepsProgress(source, cur, start, skip, p, raw, d);
    if p < |cur| {
      SplittingContinues(source, cur, start, p, raw + [cur[start..p]], d);
    }
  }

  method SplitFields(source: string, delimiter: char, trimEntries: bool) returns (result: seq<string>)
    requires delimiter != '\\'
    ensures result == Split(source, delimiter, trimEntries)
  {
    hide Fields, FirstField, Trimmed, Entry, Progress, Splitting, Erase, Split;
    result := [];
    ghost var raw: seq<string> := [];
    var curString := source;
    var delimPos, startField, skip := 0, 0, 0;
    SplittingStarts(source, delimiter);

    while startField < |curString|
      invariant startField <= skip <= |curString|
      invariant Splitting(source, curString, startField, skip, raw, delimiter)
      invariant result == Trimmed(raw, trimEntries)
      decreases |curString| - skip, |curString| - startField
    {
      delimPos := Find(curString, delimiter, skip);

      if delimPos > 0 && delimPos != |curString| {
        if curString[delimPos - 1] == '\\' {
          EscapeKeepsSplitting(source, curString, startField, skip, delimPos, raw, delimiter);
          curString := Erase(curString, delimPos - 1);
          skip := delimPos;
          continue;
        }
      }

      FieldRead(source, curString, startField, skip, delimPos, raw, delimiter);
      TrimmedSnoc(raw, curString[startField..delimPos], trimEntries);
      raw := raw + [curString[startField..delimPos]];
      if delimPos != |curString| {
        result := result + [Entry(curString[startField..delimPos], trimEntries)];
        startField := delimPos + 1;
        skip := startField;
        if |curString| - skip == 0 {
          TrimmedSnoc(raw, "", trimEntries);
          EmptyEntry(trimEntries);
          raw := raw + [""];
          result := result + [""];
        }
      } else {
        assert curString[startField..] == curString[startField..delimPos];
        result := result + [Entry(curString[startField..], trimEntries)];
        SplitFromFields(source, raw, delimiter, trimEntries);
        return;
      }
    }
    SplittingEnds(source, curString, startField, skip, raw, delimiter, trimEntries);
  }

  // --- Splitting undoes escaped joining ---------------------------------------------------

  /** A backslash before every delimiter. */
  function Escape(f: string, d: char): string {
    if f == "" then "" else (if f[0] == d then ['\\', d] else [f[0]]) + Escape(f[1..], d)
  }

  function EscapeAll(fs: seq<string>, d: char): (r: seq<string>)
    ensures |r| == |fs|
    ensures forall i | 0 <= i < |fs| :: r[i] == Escape(fs[i], d)
  {
    if fs == [] then [] else [Escape(fs[0], d)] + EscapeAll(fs[1..], d)
  }

  /** Escaped fields joined by the delimiter. */
  function Printed(fs: seq<string>, d: char): string {
    Join(EscapeAll(fs, d), [d])
  }

  predicate EndsInBackslash(f: string) {
    f != "" && f[|f| - 1] == '\\'
  }

  /** What is read from an escaped field and the text after it. */
  function ReadBack(f: string, tail: string, d: char): Cut
    requires tail == "" || tail[0] == d
  {
    if tail == "" then Cut(f, None)
    else if EndsInBackslash(f) then After(f[..|f| - 1] + [d], FirstField(tail[1..], d))
    else Cut(f, Some(tail[1..]))
  }

  lemma EscapedStep(t: string, d: char)
    requires d != '\\'
    ensures FirstField(['\\', d] + t, d) == After([d], FirstField(t, d))
  {
  }

  lemma PlainStep(c: char, t: string, d: char)
    requires c != d && (c == '\\' && t != "" ==> t[0] != d)
    ensures FirstField([c] + t, d) == After([c], FirstField(t, d))
  {
  }

  lemma EscapeCons(f: string, tail: string, d: char)
    requires f != ""
    ensures Escape(f, d) + tail == (if f[0] == d then ['\\', d] else [f[0]]) + (Escape(f[1..], d) + tail)
  {
  }

  lemma {:induction false} EscapedFieldReadBack(f: string, tail: string, d: char)
    requires d != '\\' && (tail == "" || tail[0] == d)
    ensures FirstField(Escape(f, d) + tail, d) == ReadBack(f, tail, d)
  {
    if f == "" {
      assert "" + tail == tail;
    } else {
      var t := Escape(f[1..], d) + tail;
      EscapedFieldReadBack(f[1..], tail, d);
      EscapeCons(f, tail, d);
      if f[0] == d {
        EscapedStep(t, d);
      } else {
        if |f| == 1 && tail != "" {
          assert t == tail && f == [f[0]];
          OneCharReadBack(f[0], tail, d);
          return;
        }
        PlainStep(f[0], t, d);
      }
      ReadBackStep(f, tail, d);
    }
  }

  lemma OneCharReadBack(c: char, tail: string, d: char)
    requires c != d && d != '\\' && tail != "" && tail[0] == d
    ensures FirstField([c] + tail, d) == ReadBack([c], tail, d)
  {
    if c == '\\' {
      assert [c] + tail == ['\\', d] + tail[1..];
      EscapedStep(tail[1..], d);
    } else {
      PlainStep(c, tail, d);
    }
  }

  lemma ReadBackStep(f: string, tail: string, d: char)
    requires f != "" && (tail == "" || tail[0] == d)
    requires |f| >= 2 || f[0] != '\\' || tail == ""
    ensures ReadBack(f, tail, d) == After([f[0]], ReadBack(f[1..], tail, d))
  {
  }

  /** Fields that swallow the delimiter behind them. */
  function Swallowing(fs: seq<string>): nat {
    if |fs| <= 1 then 0 else (if EndsInBackslash(fs[0]) then 1 else 0) + Swallowing(fs[1..])
  }

  lemma PrintedCons(fs: seq<string>, d: char)
    requires |fs| > 1
    ensures Printed(fs, d) == Escape(fs[0], d) + ([d] + Printed(fs[1..], d))
  {
  }

  lemma {:induction false} PrintedFields(fs: seq<string>, d: char)
    requires d != '\\' && fs != []
    ensures |Fields(Printed(fs, d), d)| == |fs| - Swallowing(fs)
    ensures Swallowing(fs) == 0 ==> Fields(Printed(fs, d), d) == fs
  {
    if |fs| == 1 {
      EscapedFieldReadBack(fs[0], "", d);
      assert Printed(fs, d) == Escape(fs[0], d) + "";
    } else {
      var rest := Printed(fs[1..], d);
      PrintedFields(fs[1..], d);
      PrintedCons(fs, d);
      EscapedFieldReadBack(fs[0], [d] + rest, d);
      assert ([d] + rest)[1..] == rest;
    }
  }

  lemma {:induction false} NoneSwallows(fs: seq<string>)
    ensures Swallowing(fs) == 0 <==> forall i | 0 <= i < |fs| - 1 :: !EndsInBackslash(fs[i])
  {
    if |fs| > 1 {
      NoneSwallows(fs[1..]);
      assert forall i | 0 <= i < |fs| - 2 :: fs[1..][i] == fs[i + 1];
      assert forall i | 1 <= i < |fs| - 1 :: fs[i] == fs[1..][i - 1];
    }
  }

  /** Splitting undoes escaped joining, except for a single empty field and for fields before
      the last that end in a backslash. */
  lemma SplitUndoesJoin(fs: seq<string>, d: char)
    requires d != '\\'
    ensures Split(Printed(fs, d), d) == fs
       <==> fs != [""] && forall i | 0 <= i < |fs| - 1 :: !EndsInBackslash(fs[i])
  {
    if fs != [] {
      PrintedFields(fs, d);
      NoneSwallows(fs);
      var got := Fields(Printed(fs, d), d);
      assert Trimmed(got, false) == got;
      if |fs| > 1 {
        PrintedCons(fs, d);
      }
    }
  }

  // --- Text without escapes ---------------------------------------------------------------

  lemma PlainFound(s: string, c: char, startPos: nat)
    requires startPos <= |s| && c != '\\' && '\\' !in s
    ensures FoundUnescaped(s, c, startPos) == Found(s, Find(s, c, startPos))
  {
    hide FirstField, Find;
    var p := Find(s, c, startPos);
    NoEscapeLeft(s, startPos, p, c);
    if p < |s| {
      assert s[..startPos] + s[startPos..p] + [c] + s[p + 1..] == s;
    } else {
      assert s[..startPos] + s[startPos..p] == s;
    }
  }

  lemma {:induction false} EscapePlain(f: string, d: char)
    requires d !in f
    ensures Escape(f, d) == f
  {
    if f != "" {
      EscapePlain(f[1..], d);
    }
  }

  predicate PlainField(f: string, d: char) {
    d !in f && '\\' !in f
  }

  /** Splitting undoes joining where nothing needs an escape. */
  lemma SplitPlain(fs: seq<string>, d: char)
    requires d != '\\' && forall f | f in fs :: PlainField(f, d)
    ensures Split(Join(fs, [d]), d) == if fs == [""] then [] else fs
  {
    forall i | 0 <= i < |fs| ensures EscapeAll(fs, d)[i] == fs[i] {
      assert PlainField(fs[i], d);
      EscapePlain(fs[i], d);
    }
    assert EscapeAll(fs, d) == fs;
    forall i | 0 <= i < |fs| - 1 ensures !EndsInBackslash(fs[i]) {
      assert PlainField(fs[i], d);
    }
    SplitUndoesJoin(fs, d);
  }

  lemma SplitPlainTrimmed(fs: seq<string>, d: char)
    requires d != '\\' && forall f | f in fs :: PlainField(f, d) && IsTrimmed(f)
    ensures Split(Join(fs, [d]), d, true) == if fs == [""] then [] else fs
  {
    hide Join, Fields, PlainField, Trimmed, IsTrimmed;
    SplitPlain(fs, d);
    var s := Join(fs, [d]);
    if s != "" {
      var all := Fields(s, d);
      TrimmedPlain(all);
      assert forall i | 0 <= i < |all| :: all[i] in fs;
      TrimmedKeeps(all);
    }
  }

  lemma TrimmedPlain(fs: seq<string>)
    ensures Trimmed(fs, false) == fs
  {
    hide Trim;
  }

  lemma TrimmedKeeps(fs: seq<string>)
    requires forall i | 0 <= i < |fs| :: IsTrimmed(fs[i])
    ensures Trimmed(fs, true) == fs
  {
    hide Trim, IsTrimmed;
    forall i | 0 <= i < |fs| ensures Trim(fs[i]) == fs[i] {
      TrimKeeps(fs[i]);
    }
  }

  // --- Blanks around fields ---------------------------------------------------------------

  /** A field with blanks around it. */
  datatype Padded = Padded(before: string, field: string, after: string) {
    function Text(): string { before + field + after }
  }

  function Texts(ps: seq<Padded>): (r: seq<string>)
    ensures |r| == |ps| && forall i | 0 <= i < |r| :: r[i] == ps[i].Text()
  {
    if ps == [] then [] else [ps[0].Text()] + Texts(ps[1..])
  }

  function FieldsOf(ps: seq<Padded>): (r: seq<string>)
    ensures |r| == |ps| && forall i | 0 <= i < |r| :: r[i] == ps[i].field
  {
    if ps == [] then [] else [ps[0].field] + FieldsOf(ps[1..])
  }

  predicate PlainPadded(p: Padded, d: char) {
    AllBlank(p.before) && AllBlank(p.after) && IsTrimmed(p.field) && PlainField(p.Text(), d)
  }

  /** Where it is asked for, exactly the blanks around each field are removed. */
  lemma SplitTrims(ps: seq<Padded>, d: char)
    requires d != '\\' && forall p | p in ps :: PlainPadded(p, d)
    ensures Split(Join(Texts(ps), [d]), d, true) == if Texts(ps) == [""] then [] else FieldsOf(ps)
    ensures Split(Join(Texts(ps), [d]), d, false) == if Texts(ps) == [""] then [] else Texts(ps)
  {
    hide Join, Fields, PlainField, AllBlank, IsTrimmed, Trim;
    forall f | f in Texts(ps) ensures PlainField(f, d) {
      var i :| 0 <= i < |ps| && Texts(ps)[i] == f;
      assert PlainPadded(ps[i], d);
    }
    SplitPlain(Texts(ps), d);
    var s := Join(Texts(ps), [d]);
    if s != "" {
      TrimmedPlain(Fields(s, d));
      forall i | 0 <= i < |ps| ensures Trim(Texts(ps)[i]) == ps[i].field {
        assert PlainPadded(ps[i], d);
        TrimPadded(ps[i].before, ps[i].field, ps[i].after);
      }
    }
  }
}
