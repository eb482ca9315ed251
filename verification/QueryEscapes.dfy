/** Escaped commas in property queries, `src/propertyquery.cpp`: where a backslash before a comma keeps
    it from separating, and where it does not. */
module QueryEscapes {
  import opened Exceptions
  import opened PropertyQuery
  import opened SplitString
  import opened Strings

  predicate NoBracket(s: string) {
    Free(s, {'(', ')'})
  }

  /** Every comma escaped: the search finds none, and takes all the backslashes away. */
  lemma AllUnescaped(u: string)
    ensures FoundUnescaped(Escape(u, ','), ',', 0) == Found(u, |u|)
  {
    var s := Escape(u, ',');
    EscapedFieldReadBack(u, "", ',');
    hide FirstField, Escape;
    assert s + "" == s && s[0..] == s && s[..0] == "" && "" + u == u;
  }

  /** A key may have commas in its name if they are escaped. */
  lemma EscapedName(name: string, more: string)
    requires '(' !in name && !EndsInBackslash(name)
    ensures EvalKey(Escape(name, ',')) == Ok(Eval(name, [], ""))
    ensures EvalKey(Escape(name, ',') + ("," + more)) == Ok(Eval(name, [], more))
  {
    AllUnescaped(name);
    NameBeforeComma(name, more);
    hide FoundUnescaped, Escape;
    var t := name + ("," + more);
    assert t[..|name|] == name && t[|name| + 1..] == more;
    assert Find(t, '(') > |name| by {
      forall i | 0 <= i <= |name| ensures t[i] != '(' {
        assert i < |name| ==> t[i] == name[i] && name[i] in name;
      }
    }
    NotFound(name, '(');
  }

  lemma NotFound(s: string, c: char)
    requires c !in s
    ensures Find(s, c) == |s|
  {
  }

  lemma NameBeforeComma(name: string, more: string)
    requires !EndsInBackslash(name)
    ensures FoundUnescaped(Escape(name, ',') + ("," + more), ',', 0) == Found(name + ("," + more), |name|)
  {
    hide FirstField, Escape;
    var tail := "," + more;
    EscapedFieldReadBack(name, tail, ',');
    assert tail[1..] == more;
    FoundFromStart(Escape(name, ',') + tail, name, more);
  }

  lemma FoundFromStart(s: string, field: string, rest: string)
    requires FirstField(s, ',') == Cut(field, Some(rest))
    ensures FoundUnescaped(s, ',', 0) == Found(field + ("," + rest), |field|)
  {
    hide FirstField;
    assert s[0..] == s && s[..0] == "";
    assert "" + field + [','] + rest == field + ("," + rest);
  }

  /** In brackets before which and in which no comma is bare, escapes are lost: every comma separates. */
  lemma EscapesLost(name: string, list: string)
    requires NoBracket(name) && NoBracket(list) && '\\' !in name && '\\' !in list
    ensures var u := name + ("(" + (list + ")"));
      EvalKey(Escape(u, ',')) == Ok(Eval(name, Split(list, ',', true), ""))
  {
    var u, end := name + ("(" + (list + ")")), |name| + 1 + |list|;
    AllUnescaped(u);
    hide FoundUnescaped, Split, Escape, Find;
    InBrackets(name, list, "");
    assert ")" + "" == ")";
    PlainFound(u, ',', end);
    NoComma(u, end);
  }

  lemma NoComma(t: string, end: nat)
    requires end + 1 == |t| && t[end] == ')'
    ensures Find(t, ',', end) == |t|
  {
  }

  lemma InBrackets(name: string, list: string, tail: string)
    requires NoBracket(name) && NoBracket(list)
    ensures var t, end := name + ("(" + (list + (")" + tail))), |name| + 1 + |list|;
      && Find(t, '(') == |name| && Find(t, ')') == end
      && |t| == end + 1 + |tail| && t[end] == ')' && t[end + 1..] == tail
      && t[..|name|] == name && t[|name| + 1..end] == list
      && ('\\' !in name && '\\' !in list && '\\' !in tail ==> '\\' !in t)
  {
    var t, end := name + ("(" + (list + (")" + tail))), |name| + 1 + |list|;
    forall k | 0 <= k < end ensures (t[k] == '(' <==> k == |name|) && t[k] != ')' {
      assert k < |name| ==> t[k] == name[k] && name[k] in name;
      assert |name| < k ==> t[k] == list[k - |name| - 1] && list[k - |name| - 1] in list;
    }
    hide NoBracket, Find;
    FindUnique(t, '(', 0, |name|);
    FindUnique(t, ')', 0, end);
  }

  /** Behind a first property that a bare comma ends escapes are kept, and those behind the brackets are
      taken away, although a comma there still separates when the rest is parsed. */
  lemma EscapesKept(name: string, first: string, second: string, behind: string)
    requires NoBracket(name) && NoBracket(first) && NoBracket(second)
    requires Free(name, {',', '\\'}) && Free(first, {',', '\\'}) && '\\' !in second
    ensures EvalKey(name + ("(" + ((first + ("," + Escape(second, ','))) + (")" + Escape(behind, ',')))))
         == Ok(Eval(name, [Trim(first), Trim(second)], behind))
  {
    hide FoundUnescaped, Split, Escape, Find, Trim, EvalKey, Free, NoBracket;
    var list, tail := first + ("," + Escape(second, ',')), Escape(behind, ',');
    var t, end := name + ("(" + (list + (")" + tail))), |name| + 1 + |list|;
    EscapeFree(second);
    ListFree(first, Escape(second, ','));
    InBrackets(name, list, tail);
    FirstComma(name, first, Escape(second, ',') + (")" + tail));
    SameText(name, first, Escape(second, ','), ")" + tail);
    BehindUnescaped(t, end, behind);
    TwoFields(first, second);
    TwoSearches(t, |name| + 1 + |first|, name, list, end, behind);
  }

  /** The bracket branch, with a comma behind the bracket that opens and none behind the one that closes. */
  lemma TwoSearches(t: string, comma: nat, name: string, list: string, end: nat, behind: string)
    requires FoundUnescaped(t, ',', 0) == Found(t, comma) && comma > |name| && end < |t|
    requires FoundUnescaped(t, ',', end) == Found(t[..end + 1] + behind, end + 1 + |behind|)
    requires Find(t, '(') == |name| && Find(t, ')') == end && |name| < end
    requires t[..|name|] == name && t[|name| + 1..end] == list
    ensures EvalKey(t) == Ok(Eval(name, Split(list, ',', true), behind))
  {
    hide FoundUnescaped, Split, Find, BehindComma, EvalKey;
    NoneBehind(t, end, behind);
    BracketBranch(t, comma, |name|, end);
  }

  lemma BracketBranch(t: string, comma: nat, bracket: nat, end: nat)
    requires FoundUnescaped(t, ',', 0) == Found(t, comma) && Find(t, '(') == bracket && Find(t, ')') == end
    requires bracket < comma && bracket < end < |t|
    ensures EvalKey(t) == Ok(Eval(t[..bracket], Split(Bracketed(t, bracket, end), ',', true), BehindComma(t, end)))
    ensures Bracketed(t, bracket, end) == t[bracket + 1..end]
  {
    hide FoundUnescaped, Split, Find, BehindComma, Bracketed;
    BetweenBrackets(t, bracket, end);
  }

  lemma BetweenBrackets(t: string, bracket: nat, end: nat)
    requires bracket < end < |t|
    ensures Bracketed(t, bracket, end) == t[bracket + 1..end]
  {
  }

  lemma NoneBehind(t: string, end: nat, behind: string)
    requires end < |t| && FoundUnescaped(t, ',', end) == Found(t[..end + 1] + behind, end + 1 + |behind|)
    ensures BehindComma(t, end) == behind
  {
    hide FoundUnescaped;
    assert (t[..end + 1] + behind)[end + 1..] == behind;
  }

  lemma ListFree(a: string, b: string)
    requires NoBracket(a) && NoBracket(b)
    ensures NoBracket(a + ("," + b))
  {
  }

  lemma SameText(name: string, first: string, second: string, tail: string)
    ensures name + ("(" + ((first + ("," + second)) + tail)) == name + "(" + first + ("," + (second + tail))
  {
  }

  lemma {:induction false} EscapeFree(s: string)
    requires NoBracket(s)
    ensures NoBracket(Escape(s, ','))
  {
    if s != "" {
      assert s[0] in s && forall c | c in s[1..] :: c in s;
      EscapeFree(s[1..]);
    }
  }

  lemma FirstComma(name: string, first: string, behind: string)
    requires Free(name, {',', '\\'}) && Free(first, {',', '\\'})
    ensures var front := name + "(" + first;
      FoundUnescaped(front + ("," + behind), ',', 0) == Found(front + ("," + behind), |front|)
  {
    var front := name + "(" + first;
    forall c | c in front ensures c != ',' && c != '\\' {
    }
    EscapePlain(front, ',');
    NameBeforeComma(front, behind);
  }

  lemma BehindUnescaped(t: string, end: nat, behind: string)
    requires end < |t| && t[end] == ')' && t[end + 1..] == Escape(behind, ',')
    ensures FoundUnescaped(t, ',', end) == Found(t[..end + 1] + behind, end + 1 + |behind|)
  {
    hide FirstField, Escape;
    var u := ")" + behind;
    EscapedFieldReadBack(u, "", ',');
    BracketKept(behind);
    assert t[end..] == Escape(u, ',') && Escape(u, ',') + "" == Escape(u, ',');
    FoundToEnd(t, end, u);
    assert t[..end] + u == t[..end + 1] + behind;
  }

  lemma BracketKept(s: string)
    ensures Escape(")" + s, ',') == ")" + Escape(s, ',')
  {
    assert (")" + s)[1..] == s;
  }

  lemma FoundToEnd(t: string, from: nat, field: string)
    requires from <= |t| && FirstField(t[from..], ',') == Cut(field, None)
    ensures FoundUnescaped(t, ',', from) == Found(t[..from] + field, from + |field|)
  {
    hide FirstField;
  }

  lemma TwoFields(first: string, second: string)
    requires Free(first, {',', '\\'})
    ensures Split(first + ("," + Escape(second, ',')), ',', true) == [Trim(first), Trim(second)]
  {
    hide Escape, Fields, Trim, Printed;
    var fs := [first, second];
    if first != "" {
      assert first[|first| - 1] in first;
    }
    NoneSwallows(fs);
    PrintedFields(fs, ',');
    PrintedTwo(first, second);
    TrimmedTwo(first, second);
  }

  lemma PrintedTwo(first: string, second: string)
    requires ',' !in first
    ensures Printed([first, second], ',') == first + ("," + Escape(second, ','))
  {
    EscapePlain(first, ',');
    PrintedCons([first, second], ',');
    assert [first, second][1..] == [second];
    assert EscapeAll([second], ',') == [Escape(second, ',')];
    hide Escape;
  }

  lemma TrimmedTwo(a: string, b: string)
    ensures Trimmed([a, b], true) == [Trim(a), Trim(b)]
  {
    hide Trim;
  }
}
