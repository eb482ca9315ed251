/** Loading what was saved: which tree comes back. */
module SaveLoad {
  import opened PropertySave
  import opened PropertySax
  import opened PropertyTree
  import opened Strings
  import Numbers

  // --- The tree that comes back -----------------------------------------------------------

  function Reloaded(codec: Codec, v: Value): Value {
    if v.FloatingValue? then FloatingValue(codec.read(codec.show(v.floating))) else v
  }

  /** The node at a position has every flag of a mask. */
  predicate Carries(n: Node, at: Position, mask: Mask)
    requires Exists(n, at)
  {
    var flags := NodeAt(n, at).flags;
    && (mask.readable ==> flags.readable)
    && (mask.writeable ==> flags.writeable)
    && (mask.archive ==> flags.archive)
  }

  /** One node, the given one or some node below it, has every flag of the mask. */
  ghost predicate FlagsBelow(n: Node, mask: Mask) {
    exists at :: Exists(n, at) && Carries(n, at, mask)
  }

  /** The nodes that are written, with their values and archive flags; read and write flags are set
      again and indices start over. */
  ghost function Canon(codec: Codec, n: Node, mask: Mask): Node
    decreases n, 1
  {
    Node(n.name, 0, Reloaded(codec, n.value), Flags(true, true, n.flags.archive), CanonAll(codec, n.children, mask))
  }

  ghost function CanonAll(codec: Codec, cs: seq<Node>, mask: Mask): seq<Node>
    decreases cs, 0
  {
    if cs == [] then []
    else (if FlagsBelow(cs[0], mask) then [Canon(codec, cs[0], mask)] else []) + CanonAll(codec, cs[1..], mask)
  }

  lemma FlagsAt(n: Node, mask: Mask, at: Position)
    requires Exists(n, at) && Carries(n, at, mask)
    ensures FlagsBelow(n, mask)
  {
  }

  /** What is searched for is one node that has every flag of the mask. */
  lemma {:induction false} SearchMeaning(n: Node, mask: Mask)
    ensures SearchForFlag(n, mask) <==> FlagsBelow(n, mask)
    decreases n
  {
    forall i | 0 <= i < |n.children| ensures SearchForFlag(n.children[i], mask) <==> FlagsBelow(n.children[i], mask) {
      SearchMeaning(n.children[i], mask);
    }
    FlagsCases(n, mask);
  }

  lemma FlagsCases(n: Node, mask: Mask)
    ensures FlagsBelow(n, mask)
       <==> Carries(n, [], mask) || exists i :: 0 <= i < |n.children| && FlagsBelow(n.children[i], mask)
  {
    if Carries(n, [], mask) {
      FlagsAt(n, mask, []);
    }
    if i :| 0 <= i < |n.children| && FlagsBelow(n.children[i], mask) {
      var at :| Exists(n.children[i], at) && Carries(n.children[i], at, mask);
      assert ([i] + at)[1..] == at;
      FlagsAt(n, mask, [i] + at);
    }
    if FlagsBelow(n, mask) {
      var at :| Exists(n, at) && Carries(n, at, mask);
      if at != [] {
        FlagsAt(n.children[at[0]], mask, at[1..]);
      }
    }
  }

  /** A child is written if and only if it, or some node below it, has every flag of the mask; the mask
      without flags asks for none. */
  lemma SelectedMeaning(n: Node, mask: Mask)
    ensures Selected(n, mask) <==> FlagsBelow(n, mask)
  {
    SearchMeaning(n, mask);
    if mask == NO_FLAGS {
      FlagsAt(n, mask, []);
    }
  }

  /** The masks of a single flag, of which the one for archive is what the server saves with. */
  lemma OneFlagSelects(n: Node)
    ensures Selected(n, Mask(false, false, true)) <==> exists at :: Exists(n, at) && NodeAt(n, at).flags.archive
    ensures Selected(n, Mask(true, false, false)) <==> exists at :: Exists(n, at) && NodeAt(n, at).flags.readable
    ensures Selected(n, Mask(false, true, false)) <==> exists at :: Exists(n, at) && NodeAt(n, at).flags.writeable
  {
    var archive, readable, writeable := Mask(false, false, true), Mask(true, false, false), Mask(false, true, false);
    SelectedMeaning(n, archive);
    SelectedMeaning(n, readable);
    SelectedMeaning(n, writeable);
    hide Selected, FlagsBelow, NodeAt, Exists;
    SomeCarries(n, archive);
    SomeCarries(n, readable);
    SomeCarries(n, writeable);
    assert forall at | Exists(n, at) :: Carries(n, at, archive) <==> NodeAt(n, at).flags.archive;
    assert forall at | Exists(n, at) :: Carries(n, at, readable) <==> NodeAt(n, at).flags.readable;
    assert forall at | Exists(n, at) :: Carries(n, at, writeable) <==> NodeAt(n, at).flags.writeable;
  }

  lemma SomeCarries(n: Node, mask: Mask)
    ensures FlagsBelow(n, mask) <==> exists at :: Exists(n, at) && Carries(n, at, mask)
  {
  }

  // --- Which trees load -------------------------------------------------------------------

  /** A name that the loader does not take apart. */
  predicate Whole(name: string) {
    '/' !in name && '[' !in name
  }

  /** Integers fit their C++ types, and no string holds a NUL. */
  predicate Stored(v: Value) {
    match v
    case IntegerValue(n) => -Numbers.TWO_TO_THE_31 <= n < Numbers.TWO_TO_THE_31
    case UnsignedValue(n) => 0 <= n < Numbers.TWO_TO_THE_32
    case StringValue(s) => '\0' !in s
    case _ => true
  }

  predicate HasName(cs: seq<Node>, name: string) {
    exists i :: 0 <= i < |cs| && cs[i].name == name
  }

  /** What is selected has whole and, among siblings, distinct names. */
  predicate Loadable(cs: seq<Node>, mask: Mask)
    decreases cs
  {
    cs == []
    || (&& Loadable(cs[1..], mask)
        && (Selected(cs[0], mask) ==>
              && Whole(cs[0].name) && Stored(cs[0].value) && Loadable(cs[0].children, mask)
              && !HasName(Kept(cs[1..], mask), cs[0].name)))
  }

  function Kept(cs: seq<Node>, mask: Mask): seq<Node> {
    if cs == [] then [] else (if Selected(cs[0], mask) then [cs[0]] else []) + Kept(cs[1..], mask)
  }

  // --- States relative to the current node ------------------------------------------------

  /** The stack holds nodes on the way to the current one. */
  predicate OnPath(p: Parser) {
    Exists(p.root, p.currentNode) && forall i | 0 <= i < |p.nodes| :: p.nodes[i] <= p.currentNode
  }

  lemma {:induction false} PrefixExists(t: Node, at: Position, prefix: Position)
    requires Exists(t, at) && prefix <= at
    ensures Exists(t, prefix)
    decreases |at|
  {
    if prefix != [] {
      assert prefix[1..] <= at[1..];
      PrefixExists(t.children[at[0]], at[1..], prefix[1..]);
    }
  }

  lemma OnPathValid(p: Parser)
    requires OnPath(p)
    ensures p.Valid()
  {
    forall i | 0 <= i < |p.nodes| ensures Exists(p.root, p.nodes[i]) {
      PrefixExists(p.root, p.currentNode, p.nodes[i]);
    }
  }

  /** p with another current node. */
  function With(p: Parser, n: Node): (q: Parser)
    requires OnPath(p)
    ensures OnPath(q) && q.Valid() && q.Current() == n
  {
    WithNodeAt(p.root, p.currentNode, n);
    var q := p.(root := WithNode(p.root, p.currentNode, n));
    OnPathValid(q);
    q
  }

  lemma WithTwice(p: Parser, m: Node, n: Node)
    requires OnPath(p)
    ensures With(With(p, m), n) == With(p, n)
  {
    WithNodeTwice(p.root, p.currentNode, m, n);
  }

  lemma WithSelf(p: Parser)
    requires OnPath(p)
    ensures p.Valid() && With(p, p.Current()) == p
  {
    OnPathValid(p);
    SameNode(p.root, p.currentNode);
  }

  function Appended(n: Node, cs: seq<Node>): Node {
    n.(children := n.children + cs)
  }

  /** p inside a new last child c of the current node. */
  function Inside(p: Parser, c: Node, valueType: ValueType): (q: Parser)
    requires OnPath(p)
    ensures OnPath(q) && q.Valid() && q.Current() == c
  {
    OnPathValid(p);
    var n := p.Current();
    var q := With(p, Appended(n, [c]));
    ChildAt(q.root, q.currentNode, |n.children|);
    var r := q.(nodes := p.nodes + [p.currentNode], currentNode := p.currentNode + [|n.children|],
                currentValueType := valueType, level := p.level + 1);
    OnPathValid(r);
    r
  }

  lemma WithInside(p: Parser, c: Node, valueType: ValueType, c': Node)
    requires OnPath(p)
    ensures With(Inside(p, c, valueType), c') == Inside(p, c', valueType)
  {
    OnPathValid(p);
    var n := p.Current();
    var q, k := With(p, Appended(n, [c])), |n.children|;
    WithChildAt(q.root, q.currentNode, k, c');
    assert Appended(n, [c]).children[k := c'] == Appended(n, [c']).children;
    WithTwice(p, Appended(n, [c]), Appended(n, [c']));
  }

  /** No callback is pending: between the tags of a property. */
  predicate Between(p: Parser) {
    OnPath(p) && !p.forceStop && !p.expectValue && p.temporaryValue == "" && !p.ignored && p.level >= 1
  }

  predicate NoChild(p: Parser, name: string) {
    p.Valid() && !HasName(p.Current().children, name)
  }

  // --- Running over content ---------------------------------------------------------------

  function RunXml(codec: Codec, p: Parser, xs: seq<Xml>): (q: Parser)
    requires p.Valid()
    ensures q.Valid()
  {
    Run(codec, p, EventsOf(xs))
  }

  lemma RunXmlConcat(codec: Codec, p: Parser, a: seq<Xml>, b: seq<Xml>)
    requires p.Valid()
    ensures RunXml(codec, p, a + b) == RunXml(codec, RunXml(codec, p, a), b)
  {
    EventsConcat(a, b);
    RunConcat(codec, p, EventsOf(a), EventsOf(b));
  }

  lemma RunOne(codec: Codec, p: Parser, e: Event)
    requires p.Valid()
    ensures Run(codec, p, [e]) == Handled(codec, p, e)
  {
  }

  lemma RunText(codec: Codec, p: Parser, text: string)
    requires p.Valid()
    ensures RunXml(codec, p, [Text(text)]) == GotText(p, text)
  {
    OneText(text);
    RunOne(codec, p, Chars(text));
  }

  lemma RunElement(codec: Codec, p: Parser, name: string, attributes: seq<Attribute>, content: seq<Xml>)
    requires p.Valid()
    ensures RunXml(codec, p, [Element(name, attributes, content)])
         == Ended(codec, RunXml(codec, Started(p, name, attributes), content), name)
  {
    hide Started, Ended;
    OneElement(name, attributes, content);
    var start, events := [Start(name, attributes)], EventsOf(content);
    RunConcat(codec, p, start + events, [End(name)]);
    RunConcat(codec, p, start, events);
    RunOne(codec, p, Start(name, attributes));
    RunOne(codec, RunXml(codec, Started(p, name, attributes), content), End(name));
  }

  // --- Attributes -------------------------------------------------------------------------

  lemma LastSnoc(front: seq<Attribute>, a: Attribute, name: string)
    ensures Last(front + [a], name) == if a.name == name then Some(a.value) else Last(front, name)
  {
  }

  lemma LastTrueIf(front: seq<Attribute>, flag: bool, own: string, name: string)
    ensures Last(front + TrueIf(flag, own), name) == if flag && own == name then Some("true") else Last(front, name)
  {
    if flag {
      LastSnoc(front, Attribute(own, "true"), name);
    } else {
      assert front + [] == front;
    }
  }

  /** What the loader makes of the attributes that are written: write flags are lost. */
  lemma AttributesRead(n: Node, display: string, flags: Flags)
    ensures var attributes := SavedAttributes(n, display);
      && Last(attributes, "name") == Some(display)
      && Last(attributes, "type") == Some(TypeString(TypeOf(n.value)))
      && FlagsFrom(attributes, flags)
         == Flags(flags.readable || n.flags.readable, flags.writeable, flags.archive || n.flags.archive)
  {
    forall name ensures LastSaved(n, display, name) {
      LastOfSaved(n, display, name);
    }
    hide Last, SavedAttributes, TypeString;
    assert LastSaved(n, display, "name") && LastSaved(n, display, "type");
    assert LastSaved(n, display, "readable") && LastSaved(n, display, "writable") && LastSaved(n, display, "archive");
    NamesDiffer();
  }

  lemma NamesDiffer()
    ensures "type" != "name" && "type" != "archive" && "type" != "readable" && "type" != "writeable"
    ensures "name" != "archive" && "name" != "readable" && "name" != "writeable"
    ensures "writable" != "writeable" && "writable" != "readable" && "writable" != "archive"
    ensures "writable" != "type" && "writable" != "name" && "readable" != "writeable" && "readable" != "archive"
    ensures "archive" != "writeable"
  {
  }

  ghost predicate LastSaved(n: Node, display: string, name: string) {
    Last(SavedAttributes(n, display), name)
    == if n.flags.writeable && name == "writeable" then Some("true")
       else if n.flags.readable && name == "readable" then Some("true")
       else if n.flags.archive && name == "archive" then Some("true")
       else if name == "name" then Some(display)
       else if name == "type" then Some(TypeString(TypeOf(n.value)))
       else None
  }

  lemma LastOfSaved(n: Node, display: string, name: string)
    ensures LastSaved(n, display, name)
  {
    hide TypeString, TrueIf, Last;
    var kind := Attribute("type", TypeString(TypeOf(n.value)));
    var a, r, w := TrueIf(n.flags.archive, "archive"), TrueIf(n.flags.readable, "readable"),
                   TrueIf(n.flags.writeable, "writeable");
    LastNone(name);
    assert [kind] == [] + [kind] && [kind, Attribute("name", display)] == [kind] + [Attribute("name", display)];
    LastSnoc([], kind, name);
    LastSnoc([kind], Attribute("name", display), name);
    var two := [kind, Attribute("name", display)];
    LastTrueIf(two, n.flags.archive, "archive", name);
    LastTrueIf(two + a, n.flags.readable, "readable", name);
    LastTrueIf(two + a + r, n.flags.writeable, "writeable", name);
    assert two + (a + (r + w)) == two + a + r + w;
  }

  lemma LastNone(name: string)
    ensures Last([], name) == None
  {
  }

  lemma TypeRead(t: ValueType)
    ensures TypeFromString(TypeString(t)) == Some(t)
  {
  }

  // --- Names ------------------------------------------------------------------------------

  lemma IndexWhole(n: int)
    ensures '/' !in Numbers.IntToString(n)
  {
    Numbers.NatToStringDigits(if n < 0 then -n else n);
  }

  /** The index in a display name is dropped. */
  lemma DisplayRead(n: Node, siblings: seq<Node>)
    requires Whole(n.name)
    ensures var display := DisplayName(n, siblings);
      '/' !in display && PartName(display) == n.name
  {
    IndexWhole(n.index);
    var display := DisplayName(n, siblings);
    hide DisplayName, CountNamed, Numbers.IntToString;
    BracketedRead(n.name, Numbers.IntToString(n.index));
    FindUnique(n.name, '[', 0, |n.name|);
    DisplayCases(n, siblings);
  }

  lemma DisplayCases(n: Node, siblings: seq<Node>)
    ensures var display := DisplayName(n, siblings);
      display == n.name || display == n.name + ("[" + Numbers.IntToString(n.index) + "]")
  {
  }

  lemma BracketedRead(name: string, index: string)
    requires Whole(name) && '/' !in index
    ensures var display := name + ("[" + index + "]");
      '/' !in display && PartName(display) == name
  {
    var display := name + ("[" + index + "]");
    assert display[|name|] == '[' && forall i | 0 <= i < |name| :: display[i] == name[i];
    FindUnique(display, '[', 0, |name|);
  }

  lemma NothingNamed(cs: seq<Node>, name: string)
    requires '[' !in name && !HasName(cs, name)
    ensures ChildByName(cs, name) == None && MaxIndex(cs, name) == -1
  {
  }

  lemma WholeWalk(root: Node, level: int, current: Position, name: string)
    requires Exists(root, current) && '/' !in name
    ensures Walk(root, level, current, current, name) == StepTo(root, level, current, current, PartName(name))
  {
    FindUnique(name, '/', 0, |name|);
    assert name[..|name|] == name;
    hide StepTo, PartName;
  }

  // --- A child ----------------------------------------------------------------------------

  /** A child node once its start tag has been read. */
  function Opened(c: Node): Node {
    Node(c.name, 0, NoValue, Flags(true, true, c.flags.archive), [])
  }

  lemma ChildAdded(p: Parser, name: string)
    requires OnPath(p) && p.level >= 2 && '[' !in name && NoChild(p, name)
    ensures StepTo(p.root, p.level, p.currentNode, p.currentNode, name)
         == Walked(Inside(p, NewNode(name), NoType).root, Inside(p, NewNode(name), NoType).currentNode)
  {
  }

  lemma ChildStarted(p: Parser, c: Node, display: string)
    requires Between(p) && p.level >= 2 && Whole(c.name) && '/' !in display && PartName(display) == c.name
    requires NoChild(p, c.name)
    ensures Started(p, "property", SavedAttributes(c, display)) == Inside(p, Opened(c), TypeOf(c.value))
  {
    OnPathValid(p);
    var attributes, valueType := SavedAttributes(c, display), TypeOf(c.value);
    AttributesRead(c, display, NewNode(c.name).flags);
    TypeRead(valueType);
    WholeWalk(p.root, p.level, p.currentNode, display);
    ChildAdded(p, c.name);
    hide SavedAttributes, TypeFromString, TypeString, TypeOf, Walk, StepTo, Last, FlagsFrom, PartName;
    var q := Inside(p, NewNode(c.name), valueType);
    StartedAt(p, attributes, display, valueType, q);
    WithInside(p, NewNode(c.name), valueType, Opened(c));
  }

  lemma StartedAt(p: Parser, attributes: seq<Attribute>, display: string, valueType: ValueType, q: Parser)
    requires p.Valid() && !p.forceStop && p.level >= 2 && !p.ignored && OnPath(q)
    requires Last(attributes, "name") == Some(display)
    requires Last(attributes, "type").Some? && TypeFromString(Last(attributes, "type").value) == Some(valueType)
    requires var w := Walk(p.root, p.level, p.currentNode, p.currentNode, display);
      q == p.(root := w.root, nodes := p.nodes + [p.currentNode], currentNode := w.at,
              currentValueType := valueType, level := p.level + 1)
    ensures q.Valid()
    ensures Started(p, "property", attributes) == With(q, q.Current().(flags := FlagsFrom(attributes, q.Current().flags)))
  {
  }

  // --- Content of a property --------------------------------------------------------------

  lemma ValueParsed(codec: Codec, v: Value)
    requires Stored(v) && v != NoValue
    ensures ValueFrom(codec, TypeOf(v), AsString(codec, v)) == Some(Reloaded(codec, v))
  {
    match v
    case IntegerValue(n) => Numbers.IntRoundTrip(n);
    case UnsignedValue(n) => Numbers.UIntRoundTrip(n);
    case _ =>
  }

  lemma TextIgnored(codec: Codec, p: Parser, text: string)
    requires p.Valid() && !p.expectValue
    ensures RunXml(codec, p, [Text(text)]) == p
  {
    RunText(codec, p, text);
  }

  function WithValue(n: Node, codec: Codec, v: Value): Node {
    if v == NoValue then n else n.(value := Reloaded(codec, v))
  }

  lemma ValueRead(codec: Codec, p: Parser, v: Value, indent: nat)
    requires Between(p) && p.Valid() && p.level >= 2 && p.currentValueType == TypeOf(v) && Stored(v)
    ensures RunXml(codec, p, SavedValue(codec, v, indent)) == With(p, WithValue(p.Current(), codec, v))
  {
    if v == NoValue {
      WithSelf(p);
    } else {
      var text, tag := AsString(codec, v), Element("value", [], [Text(AsString(codec, v))]);
      var after := With(p, WithValue(p.Current(), codec, v));
      ValueElementRead(codec, p, v);
      TextIgnored(codec, p, Indent(indent));
      TextIgnored(codec, after, "\n");
      hide RunXml, AsString, Indent, WithValue;
      RunXmlConcat(codec, p, [Text(Indent(indent))], [tag] + [Text("\n")]);
      RunXmlConcat(codec, p, [tag], [Text("\n")]);
    }
  }

  lemma ValueElementRead(codec: Codec, p: Parser, v: Value)
    requires Between(p) && p.Valid() && p.level >= 2 && p.currentValueType == TypeOf(v) && Stored(v) && v != NoValue
    ensures RunXml(codec, p, [Element("value", [], [Text(AsString(codec, v))])])
         == With(p, WithValue(p.Current(), codec, v))
  {
    var text := AsString(codec, v);
    RunElement(codec, p, "value", [], [Text(text)]);
    var q := p.(expectValue := true, level := p.level + 1);
    StartedValue(p);
    RunText(codec, q, text);
    ValueParsed(codec, v);
    hide AsString, ValueFrom, RunXml, Stored, Reloaded;
    assert "" + text == text;
    EndedValue(codec, GotText(q, text), Reloaded(codec, v), p);
  }

  lemma StartedValue(p: Parser)
    requires p.Valid() && !p.forceStop && p.level >= 2 && !p.ignored && p.currentValueType != NoType
    ensures Started(p, "value", []) == p.(expectValue := true, level := p.level + 1)
  {
  }

  lemma EndedValue(codec: Codec, q: Parser, v: Value, p: Parser)
    requires Between(p) && p.Valid() && q.Valid()
    requires q == p.(expectValue := true, temporaryValue := q.temporaryValue, level := p.level + 1)
    requires ValueFrom(codec, q.currentValueType, q.temporaryValue) == Some(v)
    ensures Ended(codec, q, "value") == With(p, p.Current().(value := v))
  {
  }

  /** The state after children have been loaded. */
  function After(p: Parser, cs: seq<Node>): (q: Parser)
    requires OnPath(p)
    ensures OnPath(q) && q.Valid()
  {
    OnPathValid(p);
    if cs == [] then p else With(p, Appended(p.Current(), cs)).(currentValueType := NoType)
  }

  lemma AfterAfter(p: Parser, a: seq<Node>, b: seq<Node>)
    requires OnPath(p)
    ensures After(After(p, a), b) == After(p, a + b)
  {
    OnPathValid(p);
    if a == [] {
      assert a + b == b;
    } else if b == [] {
      assert a + b == a;
    } else {
      var n := p.Current();
      WithTwice(p, Appended(n, a), Appended(n, a + b));
      assert Appended(Appended(n, a), b) == Appended(n, a + b);
    }
  }

  predicate NoneNamed(p: Parser, cs: seq<Node>) {
    p.Valid() && forall i | 0 <= i < |cs| :: !HasName(p.Current().children, cs[i].name)
  }

  /** Between the tags of a property whose node is n so far. */
  lemma {:induction false} ContentRead(codec: Codec, p: Parser, n: Node, indent: nat, mask: Mask)
    requires Between(p) && p.Valid() && p.level >= 2 && p.currentValueType == TypeOf(n.value) && Stored(n.value)
    requires p.Current().children == [] && Loadable(n.children, mask)
    ensures var content := SavedContent(codec, n, indent, mask);
      var q := RunXml(codec, p, content);
      q == With(p, WithValue(p.Current(), codec, n.value).(children := CanonAll(codec, n.children, mask)))
           .(currentValueType := q.currentValueType)
    decreases n.children, 1
  {
    var below := SavedChildren(codec, n.children, n.children, indent + 1, mask);
    var o := WithValue(p.Current(), codec, n.value);
    var p1 := With(p, o);
    ValueRead(codec, p, n.value, indent + 1);
    NoneBelow(p1, Kept(n.children, mask));
    ChildrenRead(codec, p1, n.children, n.children, indent + 1, mask);
    AfterContent(p, o, CanonAll(codec, n.children, mask));
    hide RunXml, SavedValue, SavedChildren, With, WithValue, After, CanonAll, Loadable;
    ContentRuns(codec, p, SavedValue(codec, n.value, indent + 1), below, indent);
  }

  lemma NoneBelow(p: Parser, cs: seq<Node>)
    requires p.Valid() && p.Current().children == []
    ensures NoneNamed(p, cs)
  {
  }

  lemma ContentRuns(codec: Codec, p: Parser, v: seq<Xml>, below: seq<Xml>, indent: nat)
    requires p.Valid() && !p.expectValue
    requires var p1 := RunXml(codec, p, v); var p2 := RunXml(codec, p1, below); !p2.expectValue
    ensures RunXml(codec, p, [Text("\n")] + (v + (below + [Text(Indent(indent))])))
         == RunXml(codec, RunXml(codec, p, v), below)
  {
    var t := [Text(Indent(indent))];
    TextIgnored(codec, p, "\n");
    TextIgnored(codec, RunXml(codec, RunXml(codec, p, v), below), Indent(indent));
    hide RunXml, Indent;
    RunXmlConcat(codec, p, [Text("\n")], v + (below + t));
    RunXmlConcat(codec, p, v, below + t);
    RunXmlConcat(codec, RunXml(codec, p, v), below, t);
  }

  function SavedContent(codec: Codec, n: Node, indent: nat, mask: Mask): seq<Xml> {
    [Text("\n")] + (SavedValue(codec, n.value, indent + 1)
      + (SavedChildren(codec, n.children, n.children, indent + 1, mask) + [Text(Indent(indent))]))
  }

  lemma AfterContent(p: Parser, n: Node, cs: seq<Node>)
    requires Between(p) && n.children == []
    ensures var q := After(With(p, n), cs);
      Between(q) && q == With(p, n.(children := cs)).(currentValueType := q.currentValueType)
  {
    if cs == [] {
      assert n.(children := cs) == n;
    } else {
      WithTwice(p, n, Appended(n, cs));
      assert Appended(n, cs) == n.(children := cs);
    }
  }

  lemma {:induction false} NodeRead(codec: Codec, p: Parser, c: Node, siblings: seq<Node>, indent: nat, mask: Mask)
    requires Between(p) && p.level >= 2 && Whole(c.name) && Stored(c.value) && Loadable(c.children, mask)
    requires NoChild(p, c.name)
    ensures RunXml(codec, p, SavedNode(codec, c, DisplayName(c, siblings), indent, mask))
         == After(p, [Canon(codec, c, mask)])
    decreases c.children, 2
  {
    var display := DisplayName(c, siblings);
    var content := SavedContent(codec, c, indent, mask);
    var attributes, t := SavedAttributes(c, display), [Text(Indent(indent))];
    DisplayRead(c, siblings);
    ChildStarted(p, c, display);
    var d := Inside(p, Opened(c), TypeOf(c.value));
    ContentRead(codec, d, c, indent, mask);
    var q := RunXml(codec, d, content);
    WithInside(p, Opened(c), TypeOf(c.value), Canon(codec, c, mask));
    ChildEnded(codec, p, Canon(codec, c, mask), TypeOf(c.value), q);
    TextIgnored(codec, p, Indent(indent));
    TextIgnored(codec, After(p, [Canon(codec, c, mask)]), "\n");
    hide RunXml, Indent, SavedContent, SavedAttributes, DisplayName, Canon, Started, Ended, Inside, After;
    RunXmlConcat(codec, p, t, [Element("property", attributes, content)] + [Text("\n")]);
    RunXmlConcat(codec, p, [Element("property", attributes, content)], [Text("\n")]);
    RunElement(codec, p, "property", attributes, content);
  }

  lemma ChildEnded(codec: Codec, p: Parser, c: Node, valueType: ValueType, q: Parser)
    requires Between(p) && q.Valid() && q == Inside(p, c, valueType).(currentValueType := q.currentValueType)
    ensures Ended(codec, q, "property") == After(p, [c])
  {
  }

  /** The selected children come back behind those already there. */
  lemma {:induction false} ChildrenRead(codec: Codec, p: Parser, cs: seq<Node>, siblings: seq<Node>, indent: nat,
                                        mask: Mask)
    requires Between(p) && p.level >= 2 && Loadable(cs, mask) && NoneNamed(p, Kept(cs, mask))
    ensures RunXml(codec, p, SavedChildren(codec, cs, siblings, indent, mask)) == After(p, CanonAll(codec, cs, mask))
    decreases cs, 0
  {
    if cs == [] {
    } else {
      var c, rest := cs[0], SavedChildren(codec, cs[1..], siblings, indent, mask);
      SelectedMeaning(c, mask);
      if Selected(c, mask) {
        assert NoChild(p, c.name) by { assert Kept(cs, mask)[0] == c; }
        NodeRead(codec, p, c, siblings, indent, mask);
        var q := After(p, [Canon(codec, c, mask)]);
        RestNamed(codec, p, cs, mask);
        ChildrenRead(codec, q, cs[1..], siblings, indent, mask);
        AfterAfter(p, [Canon(codec, c, mask)], CanonAll(codec, cs[1..], mask));
        RunXmlConcat(codec, p, SavedNode(codec, c, DisplayName(c, siblings), indent, mask), rest);
      } else {
        assert Kept(cs, mask) == Kept(cs[1..], mask);
        ChildrenRead(codec, p, cs[1..], siblings, indent, mask);
        assert [] + rest == rest && [] + CanonAll(codec, cs[1..], mask) == CanonAll(codec, cs[1..], mask);
      }
    }
  }

  lemma RestNamed(codec: Codec, p: Parser, cs: seq<Node>, mask: Mask)
    requires Between(p) && cs != [] && Selected(cs[0], mask) && Loadable(cs, mask) && NoneNamed(p, Kept(cs, mask))
    ensures var q := After(p, [Canon(codec, cs[0], mask)]);
      Between(q) && q.level == p.level && NoneNamed(q, Kept(cs[1..], mask))
  {
    var q, rest := After(p, [Canon(codec, cs[0], mask)]), Kept(cs[1..], mask);
    forall i | 0 <= i < |rest| ensures !HasName(q.Current().children, rest[i].name) {
      assert Kept(cs, mask)[i + 1] == rest[i];
      assert rest[i].name != cs[0].name;
    }
  }

  // --- The document -----------------------------------------------------------------------

  /** Loading a document into a tree that so far is only its root. */
  function Loaded(codec: Codec, rootName: string, document: seq<Xml>): (q: Parser)
    ensures q.Valid()
  {
    RunXml(codec, Reinit(NewNode(rootName), false), document)
  }

  lemma DocumentStarted(p: Parser)
    requires p.Valid() && p.level == 0 && !p.forceStop
    ensures Started(p, "properties", [Attribute("version", "1")]) == p.(expectValue := false, level := 1)
  {
    Numbers.IntRoundTrip(1);
    assert Numbers.IntToString(1) == "1";
    assert [Attribute("version", "1")][0].name == "version";
  }

  lemma RootStarted(p: Parser, n: Node, display: string)
    requires Between(p) && p.Valid() && p.level == 1 && p.currentNode == [] && p.root == NewNode(n.name)
    requires Whole(n.name) && '/' !in display && PartName(display) == n.name
    ensures Started(p, "property", SavedAttributes(n, display))
         == p.(root := Opened(n), nodes := p.nodes + [[]], currentValueType := TypeOf(n.value), level := 2)
  {
    var attributes := SavedAttributes(n, display);
    AttributesRead(n, display, NewNode(n.name).flags);
    TypeRead(TypeOf(n.value));
    WholeWalk(p.root, 1, [], display);
    hide SavedAttributes, TypeFromString, TypeString, TypeOf, Walk, Last, FlagsFrom, PartName;
    assert |"value"| == 5 && |"property"| == 8;
  }

  lemma RootEnded(codec: Codec, q: Parser)
    requires q.Valid() && !q.forceStop && !q.ignored && q.level == 2 && q.nodes == [[], []] && !q.expectValue
    ensures Ended(codec, q, "property")
         == q.(level := 1, nodes := [[]], currentNode := [], currentValueType := NoType, temporaryValue := "")
  {
  }

  lemma DocumentEnded(codec: Codec, q: Parser)
    requires q.Valid() && !q.forceStop && !q.ignored && q.level == 1 && q.temporaryValue == "" && !q.expectValue
    ensures Ended(codec, q, "properties") == q.(level := 0)
  {
  }

  /** A display name of the root: its name, with or without an index. */
  ghost predicate DisplaysAs(display: string, name: string) {
    display == name || exists i: int :: display == name + ("[" + Numbers.IntToString(i) + "]")
  }

  lemma DisplaysRead(display: string, name: string)
    requires Whole(name) && DisplaysAs(display, name)
    ensures '/' !in display && PartName(display) == name
  {
    FindUnique(name, '[', 0, |name|);
    if display != name {
      var i: int :| display == name + ("[" + Numbers.IntToString(i) + "]");
      IndexWhole(i);
      BracketedRead(name, Numbers.IntToString(i));
    }
  }

  predicate LoadableTree(root: Node, mask: Mask) {
    Whole(root.name) && Stored(root.value) && Loadable(root.children, mask)
  }

  /** Loading what was saved, into a fresh root of the same name, succeeds and yields exactly the
      selected nodes; the stack and the level are as they were. */
  lemma LoadSaved(codec: Codec, root: Node, display: string, mask: Mask)
    requires LoadableTree(root, mask) && DisplaysAs(display, root.name)
    ensures var q := Loaded(codec, root.name, SavedDocument(codec, root, display, mask));
      !q.forceStop && q.level == 0 && q.nodes == [[]] && q.root == Canon(codec, root, mask)
  {
    DisplaysRead(display, root.name);
    var p0 := Reinit(NewNode(root.name), false);
    var p := p0.(level := 1);
    DocumentStarted(p0);
    RootRead(codec, p, root, display, mask);
    TextIgnored(codec, p, "\n");
    var saved := SavedNode(codec, root, display, 1, mask);
    hide RunXml, Started, Ended, SavedNode, Canon;
    RunXmlConcat(codec, p, [Text("\n")], saved);
    RunElement(codec, p0, "properties", [Attribute("version", "1")], [Text("\n")] + saved);
    DocumentEnded(codec, p.(root := Canon(codec, root, mask), currentValueType := NoType));
  }

  lemma RootRead(codec: Codec, p: Parser, n: Node, display: string, mask: Mask)
    requires p == Reinit(NewNode(n.name), false).(level := 1)
    requires LoadableTree(n, mask) && '/' !in display && PartName(display) == n.name
    ensures p.Valid() && RunXml(codec, p, SavedNode(codec, n, display, 1, mask))
         == p.(root := Canon(codec, n, mask), currentValueType := NoType)
  {
    var content, attributes, t := SavedContent(codec, n, 1, mask), SavedAttributes(n, display), [Text(Indent(1))];
    RootStarted(p, n, display);
    var d := p.(root := Opened(n), nodes := [[], []], currentValueType := TypeOf(n.value), level := 2);
    assert p.nodes + [[]] == d.nodes;
    ContentRead(codec, d, n, 1, mask);
    var q := RunXml(codec, d, content);
    assert q.root == Canon(codec, n, mask);
    RootEnded(codec, q);
    var after := p.(root := Canon(codec, n, mask), currentValueType := NoType);
    TextIgnored(codec, p, Indent(1));
    TextIgnored(codec, after, "\n");
    hide RunXml, Indent, SavedContent, SavedAttributes, Canon, Started, Ended;
    RunXmlConcat(codec, p, t, [Element("property", attributes, content)] + [Text("\n")]);
    RunXmlConcat(codec, p, [Element("property", attributes, content)], [Text("\n")]);
    RunElement(codec, p, "property", attributes, content);
  }
}
