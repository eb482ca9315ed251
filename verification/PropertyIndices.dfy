/** Names with an index in lookups of `src/propertysystem.cpp`: which sibling they select, and that
    what a node is displayed as leads back to it. */
module PropertyIndices {
  import opened PropertySave
  import opened PropertyTree
  import opened Strings
  import Numbers
  import PropertyPaths

  predicate PlainName(name: string) {
    name != "" && Free(name, {'/', '[', ']'})
  }

  function WithIndex(name: string, n: int): string {
    name + ("[" + (Numbers.IntToString(n) + "]"))
  }

  predicate Printable(n: int) {
    -Numbers.TWO_TO_THE_31 < n < Numbers.TWO_TO_THE_31
  }

  // --- The text of an index ---------------------------------------------------------------

  predicate Numeral(s: string) {
    s != "" && forall i | 0 <= i < |s| :: s[i] == '-' || '0' <= s[i] <= '9'
  }

  lemma IndexText(n: int)
    ensures Numeral(Numbers.IntToString(n))
  {
    Numbers.NatToStringDigits(if n < 0 then -n else n);
    hide Numbers.NatToString, Numbers.DigitsValue;
  }

  lemma NumeralTrimmed(s: string)
    requires Numeral(s)
    ensures Trim(s) == s && s != "last"
  {
    hide Trim;
    TrimKeeps(s);
    assert "last"[0] == 'l';
  }

  lemma IndexFound(name: string, text: string)
    requires PlainName(name) && Numeral(text)
    ensures var s := name + ("[" + (text + "]"));
      && Find(s, '[') == |name| && Find(s, ']') == |name| + 1 + |text|
      && s[..|name|] == name && s[|name| + 1..|name| + 1 + |text|] == text && '/' !in s
  {
    var s := name + ("[" + (text + "]"));
    forall i | 0 <= i < |s| ensures s[i] != '/' && (s[i] == '[' <==> i == |name|) && (s[i] == ']' <==> i == |s| - 1) {
      assert i < |name| ==> s[i] in name;
      assert |name| < i < |s| - 1 ==> s[i] == text[i - |name| - 1];
    }
    hide Find, Numeral, Free;
    FindUnique(s, '[', 0, |name|);
    FindUnique(s, ']', 0, |s| - 1);
  }

  lemma IndexRead(name: string, n: int)
    requires PlainName(name) && Printable(n)
    ensures NameAndIndex(WithIndex(name, n)) == Indexed(name, n)
    ensures WithIndex(name, n) != "" && '/' !in WithIndex(name, n)
  {
    hide Trim, Numbers.Atoi, Numbers.IntToString, Find, Numeral;
    var text := Numbers.IntToString(n);
    IndexText(n);
    Numbers.AtoiOfInt(n);
    NumeralTrimmed(text);
    IndexFound(name, text);
  }

  lemma GetName(t: Node, name: string)
    requires name != "" && '/' !in name
    ensures Get(t, name) == match ChildByName(t.children, name)
                            case None => None
                            case Some(k) => Some([k])
  {
    PropertyPaths.WholePath(name);
  }

  // --- What is selected -------------------------------------------------------------------

  /** The first child of name and index; with the index -1, in its place, the last of the name. */
  lemma ChildWithIndex(children: seq<Node>, text: string, name: string, n: int)
    requires NameAndIndex(text) == Indexed(name, n)
    ensures match ChildByName(children, text)
            case Some(k) =>
              && children[k].name == name
              && (children[k].index == n
                  || (n == LAST && forall j | k < j < |children| :: children[j].name != name))
            case None =>
              forall j | 0 <= j < |children| && children[j].name == name :: children[j].index != n && n != LAST
  {
    hide NameAndIndex, MatchFrom, LastNamed;
  }

  lemma IndexSelects(t: Node, name: string, n: int) returns (r: Option<nat>)
    requires PlainName(name) && Printable(n)
    ensures r == ChildByName(t.children, WithIndex(name, n))
    ensures Get(t, WithIndex(name, n)) == if r.Some? then Some([r.value]) else None
    ensures match r
            case Some(k) =>
              && t.children[k].name == name
              && (t.children[k].index == n
                  || (n == LAST && forall j | k < j < |t.children| :: t.children[j].name != name))
            case None =>
              forall j | 0 <= j < |t.children| && t.children[j].name == name ::
                t.children[j].index != n && n != LAST
  {
    hide NameAndIndex, ChildByName, Get, WithIndex, PlainName, Printable;
    IndexRead(name, n);
    GetName(t, WithIndex(name, n));
    ChildWithIndex(t.children, WithIndex(name, n), name, n);
    r := ChildByName(t.children, WithIndex(name, n));
  }

  lemma OnePosition(r: Option<nat>, j: nat)
    ensures (if r.Some? then Some([r.value]) else None) == Some([j]) <==> r == Some(j)
  {
    assert [j][0] == j;
  }

  lemma OneOfIndex(children: seq<Node>, k: nat, j: nat)
    requires SiblingsDistinct(children) && k < |children| && j < |children|
    ensures children[j].name == children[k].name && children[j].index == children[k].index <==> j == k
    ensures children[k].index >= 0
  {
  }

  /** A name with a number finds the sibling that carries the number. */
  lemma FoundByIndex(t: Node, name: string, n: nat, j: nat)
    requires PlainName(name) && Printable(n) && SiblingsDistinct(t.children) && j < |t.children|
    ensures Get(t, WithIndex(name, n)) == Some([j]) <==> t.children[j].name == name && t.children[j].index == n
  {
    hide ChildByName, Get, Exists, WithIndex, PlainName, Printable, SiblingsDistinct;
    var r := IndexSelects(t, name, n);
    if r.Some? {
      OneOfIndex(t.children, r.value, j);
      OnePosition(r, j);
    }
  }

  /** And a number that no sibling of the name carries finds nothing. */
  lemma NotFoundByIndex(t: Node, name: string, n: nat)
    requires PlainName(name) && Printable(n)
    ensures Get(t, WithIndex(name, n)) == None
       <==> forall j | 0 <= j < |t.children| && t.children[j].name == name :: t.children[j].index != n
  {
    hide ChildByName, Get, Exists, WithIndex, PlainName, Printable;
    var r := IndexSelects(t, name, n);
  }

  /** The index -1 selects the last sibling of the name, as [last] does, and other negative ones none. */
  lemma NegativeIndex(t: Node, name: string, n: int, j: nat)
    requires PlainName(name) && Printable(n) && n < 0 && SiblingsDistinct(t.children) && j < |t.children|
    ensures Get(t, WithIndex(name, n)) == Some([j]) <==>
      n == -1 && t.children[j].name == name && forall k | j < k < |t.children| :: t.children[k].name != name
    ensures n != -1 ==> Get(t, WithIndex(name, n)) == None
  {
    hide ChildByName, Get, Exists, WithIndex, PlainName, Printable;
    var r := IndexSelects(t, name, n);
    OnePosition(r, j);
  }

  // --- What is displayed ------------------------------------------------------------------

  lemma {:induction false} CountGrows(cs: seq<Node>, name: string, i: nat, j: nat)
    requires i <= j <= |cs|
    ensures CountNamed(cs[..i], name) <= CountNamed(cs[..j], name)
    ensures i < j && cs[i].name == name ==> CountNamed(cs[..i], name) < CountNamed(cs[..j], name)
    decreases j
  {
    if i < j {
      assert cs[..j][..j - 1] == cs[..j - 1];
      CountGrows(cs, name, i, j - 1);
    }
  }

  lemma CompactIsDistinct(cs: seq<Node>)
    requires SiblingsCompact(cs)
    ensures SiblingsDistinct(cs)
  {
    forall i, j | 0 <= i < j < |cs| && cs[i].name == cs[j].name ensures cs[i].index != cs[j].index {
      CountGrows(cs, cs[i].name, i, j);
    }
  }

  /** In a tree from which nothing was removed, name[k] is the sibling with k others of its name before
      it. */
  lemma FoundByOrdinal(t: Node, j: nat)
    requires SiblingsCompact(t.children) && j < |t.children| && PlainName(t.children[j].name)
    requires Printable(CountNamed(t.children[..j], t.children[j].name))
    ensures var name := t.children[j].name;
      Get(t, WithIndex(name, CountNamed(t.children[..j], name))) == Some([j])
  {
    hide Get, WithIndex, CountNamed;
    CompactIsDistinct(t.children);
    FoundByIndex(t, t.children[j].name, t.children[j].index, j);
  }

  /** The display name of a child leads back to it if and only if it shows an index or the index is 0. */
  lemma DisplayFindsExactly(t: Node, j: nat)
    requires SiblingsDistinct(t.children) && j < |t.children|
    requires PlainName(t.children[j].name) && Printable(t.children[j].index)
    ensures Get(t, DisplayName(t.children[j], t.children)) == Some([j])
       <==> CountNamed(t.children, t.children[j].name) > 1 || t.children[j].index == 0
  {
    hide Get, CountNamed, ChildByName, WithIndex;
    var c := t.children[j];
    if CountNamed(t.children, c.name) > 1 {
      FoundByIndex(t, c.name, c.index, j);
      DisplaysIndex(c, t.children);
    } else {
      GetName(t, c.name);
      PlainFinds(t.children, j);
    }
  }

  lemma DisplaysIndex(c: Node, siblings: seq<Node>)
    requires CountNamed(siblings, c.name) > 1
    ensures DisplayName(c, siblings) == WithIndex(c.name, c.index)
  {
  }

  lemma PlainFinds(children: seq<Node>, j: nat)
    requires SiblingsDistinct(children) && j < |children| && PlainName(children[j].name)
    ensures ChildByName(children, children[j].name) == Some(j) <==> children[j].index == 0
  {
    hide NameAndIndex, MatchFrom, LastNamed;
    PlainIndex(children[j].name);
  }

  lemma PlainIndex(name: string)
    requires PlainName(name)
    ensures NameAndIndex(name) == Indexed(name, 0)
  {
  }

  lemma CompactDisplay(t: Node, j: nat)
    requires SiblingsCompact(t.children) && j < |t.children|
    ensures CountNamed(t.children, t.children[j].name) > 1 || t.children[j].index == 0
  {
    CountGrows(t.children, t.children[j].name, j, |t.children|);
    assert t.children[..|t.children|] == t.children;
  }

  /** The display names on the way to a node. */
  function DisplayPath(t: Node, at: Position): string
    requires Exists(t, at)
    decreases |at|
  {
    if at == [] then ""
    else
      var c := t.children[at[0]];
      DisplayName(c, t.children) + (if |at| == 1 then "" else "/" + DisplayPath(c, at[1..]))
  }

  /** Names on the way to a node are plain, and indices fit. */
  predicate PlainWay(t: Node, at: Position)
    requires Exists(t, at)
    decreases |at|
  {
    at == []
    || (var c := t.children[at[0]]; PlainName(c.name) && Printable(c.index) && PlainWay(c, at[1..]))
  }

  /** In a tree from which nothing was removed, the path of display names leads back to the node. */
  lemma {:induction false} DisplayPathFinds(t: Node, at: Position)
    requires Exists(t, at) && Compact(t) && PlainWay(t, at)
    ensures Get(t, DisplayPath(t, at)) == Some(at)
    ensures at != [] ==> DisplayPath(t, at) != ""
    decreases |at|
  {
    hide SiblingsCompact, CountNamed, DisplayName, Get, Printable, PlainName;
    if at == [] {
      GetNothing(t);
    } else {
      var j, c := at[0], t.children[at[0]];
      DisplayStep(t, j);
      if |at| == 1 {
        assert at == [j] && DisplayName(c, t.children) + "" == DisplayName(c, t.children);
      } else {
        DisplayPathFinds(c, at[1..]);
        GetBelow(t, DisplayName(c, t.children), DisplayPath(c, at[1..]), j);
        assert [j] + at[1..] == at;
      }
    }
  }

  lemma GetNothing(t: Node)
    ensures Get(t, "") == Some([])
  {
  }

  lemma DisplayStep(t: Node, j: nat)
    requires SiblingsCompact(t.children) && j < |t.children|
    requires PlainName(t.children[j].name) && Printable(t.children[j].index)
    ensures var name := DisplayName(t.children[j], t.children);
      Get(t, name) == Some([j]) && name != "" && '/' !in name
  {
    hide SiblingsDistinct, SiblingsCompact, CountNamed, DisplayName, Get, Printable, PlainName;
    CompactIsDistinct(t.children);
    CompactDisplay(t, j);
    DisplayFindsExactly(t, j);
    DisplayWhole(t.children[j], t.children);
  }

  lemma DisplayWhole(c: Node, siblings: seq<Node>)
    requires PlainName(c.name) && Printable(c.index)
    ensures DisplayName(c, siblings) != "" && '/' !in DisplayName(c, siblings)
  {
    hide WithIndex, CountNamed, Printable;
    IndexRead(c.name, c.index);
    if CountNamed(siblings, c.name) > 1 {
      DisplaysIndex(c, siblings);
    }
  }

  lemma GetBelow(t: Node, name: string, tail: string, j: nat)
    requires name != "" && '/' !in name && tail != "" && Get(t, name) == Some([j])
    requires j < |t.children|
    ensures Get(t, name + ("/" + tail)) == Under(j, Get(t.children[j], tail))
  {
    hide ChildByName, CarCdr;
    GetName(t, name);
    Cut(name, tail);
  }

  lemma Cut(name: string, tail: string)
    requires '/' !in name
    ensures CarCdr(name + ("/" + tail)) == Path(name, tail)
  {
    var path := name + ("/" + tail);
    FindUnique(path, '/', 0, |name|);
    assert path[..|name|] == name && path[|name| + 1..] == tail;
  }
}
