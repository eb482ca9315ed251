/** What every run of the property loader keeps, whatever the document, and exactly when saving and
    loading reproduce a tree. */
module LoaderRuns {
  import opened PropertySave
  import opened PropertySax
  import opened PropertyTree
  import opened SaveLoad
  import opened Strings

  // --- Character data in pieces -----------------------------------------------------------

  function Prepended(text: string, events: seq<Event>): seq<Event> {
    if text == "" then events
    else if events != [] && events[0].Chars? then [Chars(text + events[0].text)] + events[1..]
    else [Chars(text)] + events
  }

  /** The events with adjacent pieces of character data joined. */
  function Merged(events: seq<Event>): seq<Event> {
    if events == [] then []
    else if events[0].Chars? then Prepended(events[0].text, Merged(events[1..]))
    else [events[0]] + Merged(events[1..])
  }

  lemma GotPieces(p: Parser, a: string, b: string)
    requires p.Valid()
    ensures GotText(GotText(p, a), b) == GotText(p, a + b) && GotText(p, "") == p
  {
  }

  lemma RunPrepended(codec: Codec, p: Parser, text: string, events: seq<Event>)
    requires p.Valid()
    ensures Run(codec, p, Prepended(text, events)) == Run(codec, GotText(p, text), events)
  {
    hide GotText;
    GotPieces(p, text, if events != [] && events[0].Chars? then events[0].text else "");
    GotPieces(p, text, "");
    if text != "" {
      if events != [] && events[0].Chars? {
        assert Prepended(text, events)[1..] == events[1..];
      } else {
        assert Prepended(text, events)[1..] == events;
      }
    }
  }

  lemma {:induction false} RunMerged(codec: Codec, p: Parser, events: seq<Event>)
    requires p.Valid()
    ensures Run(codec, p, Merged(events)) == Run(codec, p, events)
    decreases |events|
  {
    if events != [] {
      hide Started, Ended, GotText, Prepended;
      RunMerged(codec, Handled(codec, p, events[0]), events[1..]);
      if events[0].Chars? {
        RunPrepended(codec, p, events[0].text, Merged(events[1..]));
      } else {
        assert Merged(events)[1..] == Merged(events[1..]);
      }
    }
  }

  /** How the XML parser cuts character data into pieces makes no difference. */
  lemma ChunkingIrrelevant(codec: Codec, p: Parser, a: seq<Event>, b: seq<Event>)
    requires p.Valid() && Merged(a) == Merged(b)
    ensures Run(codec, p, a) == Run(codec, p, b)
  {
    RunMerged(codec, p, a);
    RunMerged(codec, p, b);
  }

  // --- Stack and level --------------------------------------------------------------------

  /** The stack is not empty when the callback takes its last element. */
  predicate SafeAt(p: Parser, e: Event) {
    e == End("property") && !p.forceStop && p.level >= 1 && !p.ignored ==> p.nodes != []
  }

  predicate PopsSafely(codec: Codec, p: Parser, events: seq<Event>)
    requires p.Valid()
    decreases |events|
  {
    events == [] || (SafeAt(p, events[0]) && PopsSafely(codec, Handled(codec, p, events[0]), events[1..]))
  }

  lemma {:induction false} PopsConcat(codec: Codec, p: Parser, a: seq<Event>, b: seq<Event>)
    requires p.Valid()
    ensures PopsSafely(codec, p, a + b) <==> PopsSafely(codec, p, a) && PopsSafely(codec, Run(codec, p, a), b)
    decreases |a|
  {
    if a == [] {
      assert a + b == b;
    } else {
      hide Handled, SafeAt;
      assert (a + b)[1..] == a[1..] + b;
      PopsConcat(codec, Handled(codec, p, a[0]), a[1..], b);
    }
  }

  lemma {:induction false} StoppedStays(codec: Codec, p: Parser, events: seq<Event>)
    requires p.Valid() && p.forceStop
    ensures Run(codec, p, events) == p && PopsSafely(codec, p, events)
    decreases |events|
  {
    if events != [] {
      assert Handled(codec, p, events[0]) == p;
      StoppedStays(codec, p, events[1..]);
    }
  }

  predicate SamePlace(p: Parser, q: Parser) {
    && q.level == p.level && q.nodes == p.nodes && q.currentNode == p.currentNode
    && (p.level >= 2 ==> q.ignored == p.ignored)
  }

  /** Where a start tag leads, unless it stops the loader. */
  lemma StartedPlace(p: Parser, name: string, attributes: seq<Attribute>)
    requires p.Valid() && p.level >= 1
    ensures var q := Started(p, name, attributes);
      q.forceStop
      || (&& q.level == p.level + 1
          && if name == "property" && !q.ignored then q.nodes == p.nodes + [p.currentNode]
             else q.nodes == p.nodes && q.currentNode == p.currentNode)
    ensures p.level >= 2 && !Started(p, name, attributes).forceStop
      ==> Started(p, name, attributes).ignored == p.ignored
  {
  }

  /** Well-nested content leaves level, stack and current node as they were, and never pops the
      empty stack, unless the loader gives up. */
  lemma {:induction false} ContentBalanced(codec: Codec, p: Parser, xs: seq<Xml>)
    requires p.Valid() && p.level >= 1
    ensures PopsSafely(codec, p, EventsOf(xs))
    ensures var q := RunXml(codec, p, xs); q.forceStop || SamePlace(p, q)
    decreases xs, 0
  {
    if xs == [] {
    } else {
      var first, rest := [xs[0]], xs[1..];
      assert xs == first + rest;
      OneBalanced(codec, p, xs[0]);
      var q := RunXml(codec, p, first);
      hide RunXml, EventsOf, PopsSafely, Run;
      EventsConcat(first, rest);
      RunXmlConcat(codec, p, first, rest);
      PopsXml(codec, p, first, rest);
      if q.forceStop {
        StoppedXml(codec, q, rest);
      } else {
        ContentBalanced(codec, q, rest);
      }
    }
  }

  lemma PopsXml(codec: Codec, p: Parser, a: seq<Xml>, b: seq<Xml>)
    requires p.Valid()
    ensures PopsSafely(codec, p, EventsOf(a) + EventsOf(b))
       <==> PopsSafely(codec, p, EventsOf(a)) && PopsSafely(codec, RunXml(codec, p, a), EventsOf(b))
  {
    PopsConcat(codec, p, EventsOf(a), EventsOf(b));
  }

  lemma StoppedXml(codec: Codec, p: Parser, xs: seq<Xml>)
    requires p.Valid() && p.forceStop
    ensures RunXml(codec, p, xs) == p && PopsSafely(codec, p, EventsOf(xs))
  {
    StoppedStays(codec, p, EventsOf(xs));
  }

  lemma {:induction false} OneBalanced(codec: Codec, p: Parser, x: Xml)
    requires p.Valid() && p.level >= 1
    ensures PopsSafely(codec, p, EventsOf([x]))
    ensures var q := RunXml(codec, p, [x]); q.forceStop || SamePlace(p, q)
    decreases x
  {
    match x
    case Text(text) =>
      OneText(text);
      RunText(codec, p, text);
    case Element(name, attributes, content) =>
      ElementBalanced(codec, p, name, attributes, content);
  }

  lemma ElementBalanced(codec: Codec, p: Parser, name: string, attributes: seq<Attribute>, content: seq<Xml>)
    requires p.Valid() && p.level >= 1
    ensures PopsSafely(codec, p, EventsOf([Element(name, attributes, content)]))
    ensures var q := RunXml(codec, p, [Element(name, attributes, content)]); q.forceStop || SamePlace(p, q)
    decreases content, 1
  {
    hide Started, Ended, RunXml, EventsOf, PopsSafely;
    var q := Started(p, name, attributes);
    RunElement(codec, p, name, attributes, content);
    ElementPops(codec, p, name, attributes, content);
    if q.forceStop {
      StoppedXml(codec, q, content);
      StoppedEnds(codec, q, name);
    } else {
      StartedPlace(p, name, attributes);
      ContentBalanced(codec, q, content);
      var r := RunXml(codec, q, content);
      if r.forceStop {
        StoppedEnds(codec, r, name);
      } else {
        EndedPlace(codec, r, name);
        assert q.nodes == p.nodes + [p.currentNode] ==> q.nodes[..|q.nodes| - 1] == p.nodes;
      }
    }
  }

  lemma StoppedEnds(codec: Codec, q: Parser, name: string)
    requires q.Valid() && q.forceStop
    ensures Ended(codec, q, name) == q && SafeAt(q, End(name))
  {
    hide ValueFrom;
  }

  /** Where an end tag leads, unless it stops the loader. */
  lemma EndedPlace(codec: Codec, q: Parser, name: string)
    requires q.Valid() && q.level >= 2 && (name == "property" && !q.ignored ==> q.nodes != [])
    ensures SafeAt(q, End(name))
    ensures var r := Ended(codec, q, name);
      r.forceStop
      || (&& r.level == q.level - 1 && r.ignored == q.ignored
          && if name == "property" && !q.ignored then
               r.nodes == q.nodes[..|q.nodes| - 1] && r.currentNode == q.nodes[|q.nodes| - 1]
             else r.nodes == q.nodes && r.currentNode == q.currentNode)
  {
    hide ValueFrom;
  }

  lemma ElementPops(codec: Codec, p: Parser, name: string, attributes: seq<Attribute>, content: seq<Xml>)
    requires p.Valid()
    ensures var q := Started(p, name, attributes);
      PopsSafely(codec, p, EventsOf([Element(name, attributes, content)]))
      <==> (PopsSafely(codec, q, EventsOf(content)) && SafeAt(RunXml(codec, q, content), End(name)))
  {
    hide Started, Ended;
    OneElement(name, attributes, content);
    var start, events := [Start(name, attributes)], EventsOf(content);
    PopsConcat(codec, p, start + events, [End(name)]);
    PopsConcat(codec, p, start, events);
    RunConcat(codec, p, start, events);
    RunOne(codec, p, Start(name, attributes));
  }

  /** For every document, whatever tree it is loaded into. */
  lemma DocumentBalanced(codec: Codec, root: Node, ignoreVersion: bool, name: string, attributes: seq<Attribute>,
                         content: seq<Xml>)
    ensures var p, document := Reinit(root, ignoreVersion), [Element(name, attributes, content)];
      var q := RunXml(codec, p, document);
      && PopsSafely(codec, p, EventsOf(document))
      && (q.forceStop || (q.level == 0 && q.nodes == [[]] && q.currentNode == []))
  {
    var p := Reinit(root, ignoreVersion);
    var q := Started(p, name, attributes);
    RunElement(codec, p, name, attributes, content);
    ElementPops(codec, p, name, attributes, content);
    if q.forceStop {
      StoppedXml(codec, q, content);
    } else {
      ContentBalanced(codec, q, content);
    }
  }

  // --- The shape of what is loaded --------------------------------------------------------

  ghost predicate SiblingsShaped(cs: seq<Node>) {
    && (forall i | 0 <= i < |cs| :: Whole(cs[i].name) && cs[i].index == 0)
    && forall i, j | 0 <= i < j < |cs| :: cs[i].name != cs[j].name
  }

  /** Below the root, siblings have distinct names without slash or bracket, and index 0. */
  ghost predicate Shaped(t: Node)
    decreases t
  {
    SiblingsShaped(t.children) && forall i | 0 <= i < |t.children| :: Shaped(t.children[i])
  }

  lemma {:induction false} ShapedAt(t: Node, at: Position)
    requires Shaped(t) && Exists(t, at)
    ensures Shaped(NodeAt(t, at))
    decreases |at|
  {
    if at != [] {
      ShapedAt(t.children[at[0]], at[1..]);
    }
  }

  lemma {:induction false} WithShaped(t: Node, at: Position, n: Node)
    requires Shaped(t) && Exists(t, at) && Shaped(n) && n.name == NodeAt(t, at).name && n.index == NodeAt(t, at).index
    ensures Shaped(WithNode(t, at, n)) && WithNode(t, at, n).name == t.name && WithNode(t, at, n).index == t.index
    decreases |at|
  {
    if at != [] {
      WithShaped(t.children[at[0]], at[1..], n);
    }
  }

  lemma ChildShaped(n: Node, part: string)
    requires Shaped(n) && Whole(part) && ChildByName(n.children, part).None?
    ensures Shaped(WithChild(n, NewNode(part)))
  {
    NotNamed(n.children, part);
    NothingNamed(n.children, part);
    hide HasName, ChildByName, MaxIndex;
    var c := NewNode(part);
    assert WithChild(n, c).children == n.children + [c];
    AppendShaped(n.children, c);
  }

  lemma AppendShaped(cs: seq<Node>, c: Node)
    requires SiblingsShaped(cs) && Whole(c.name) && c.index == 0 && !HasName(cs, c.name)
    ensures SiblingsShaped(cs + [c])
  {
  }

  lemma NotNamed(cs: seq<Node>, name: string)
    requires SiblingsShaped(cs) && Whole(name) && ChildByName(cs, name).None?
    ensures !HasName(cs, name)
  {
  }

  lemma PartWhole(part: string)
    requires '/' !in part
    ensures Whole(PartName(part))
  {
  }

  lemma StepShaped(root: Node, level: int, current: Position, at: Position, part: string)
    requires Shaped(root) && Exists(root, current) && Exists(root, at) && Whole(part)
    ensures var w := StepTo(root, level, current, at, part);
      Shaped(w.root) && w.root.name == root.name && w.root.index == root.index
  {
    ShapedAt(root, at);
    var n := NodeAt(root, at);
    if ChildByName(n.children, part).None? {
      ChildShaped(n, part);
      hide ChildByName, Shaped;
      WithShaped(root, at, WithChild(n, NewNode(part)));
    }
  }

  lemma {:induction false} WalkShaped(root: Node, level: int, current: Position, at: Position, name: string)
    requires Shaped(root) && Exists(root, current) && Exists(root, at)
    ensures var w := Walk(root, level, current, at, name);
      Shaped(w.root) && w.root.name == root.name && w.root.index == root.index
    decreases |name|
  {
    var slash := Find(name, '/');
    PartWhole(name[..slash]);
    hide Shaped, StepTo, Whole;
    StepShaped(root, level, current, at, PartName(name[..slash]));
    var w := StepTo(root, level, current, at, PartName(name[..slash]));
    if slash < |name| {
      WalkShaped(w.root, level, current, w.at, name[slash + 1..]);
    }
  }

  lemma UpdatedShaped(p: Parser, n: Node)
    requires p.Valid() && Shaped(p.root)
    requires n.children == p.Current().children && n.name == p.Current().name && n.index == p.Current().index
    ensures Shaped(Updated(p, n).root)
    ensures Updated(p, n).root.name == p.root.name && Updated(p, n).root.index == p.root.index
  {
    ShapedAt(p.root, p.currentNode);
    WithShaped(p.root, p.currentNode, n);
  }

  lemma StartShaped(p: Parser, attributes: seq<Attribute>)
    requires p.Valid() && Shaped(p.root)
    ensures var q := StartProperty(p, attributes);
      Shaped(q.root) && q.root.name == p.root.name && q.root.index == p.root.index
  {
    hide Shaped, Entered, Updated, FlagsFrom, TypeFromString;
    var name, kind := Last(attributes, "name"), Last(attributes, "type");
    if name.Some? {
      var valueType := if kind.None? then Some(NoType) else TypeFromString(kind.value);
      if valueType.Some? {
        EnteredShaped(p, name.value, valueType.value);
        var q := Entered(p, name.value, valueType.value);
        UpdatedShaped(q, q.Current().(flags := FlagsFrom(attributes, q.Current().flags)));
      }
    }
  }

  lemma EnteredShaped(p: Parser, name: string, valueType: ValueType)
    requires p.Valid() && Shaped(p.root)
    ensures var q := Entered(p, name, valueType);
      Shaped(q.root) && q.root.name == p.root.name && q.root.index == p.root.index
  {
    WalkShaped(p.root, p.level, p.currentNode, p.currentNode, name);
  }

  lemma HandledShaped(codec: Codec, p: Parser, e: Event)
    requires p.Valid() && Shaped(p.root)
    ensures var q := Handled(codec, p, e);
      Shaped(q.root) && q.root.name == p.root.name && q.root.index == p.root.index
  {
    hide Shaped, StartProperty, Updated, ValueFrom;
    match e
    case Start(name, attributes) =>
      var q := if p.level == 1 then p.(expectValue := false, currentValueType := NoType, ignored := false) else p;
      StartShaped(q, attributes);
    case Chars(_) =>
    case End(name) =>
      var q := p.(level := p.level - 1, expectValue := false, temporaryValue := "");
      var v := ValueFrom(codec, p.currentValueType, p.temporaryValue);
      if v.Some? {
        UpdatedShaped(q, q.Current().(value := v.value));
      }
  }

  /** Whatever is loaded into a fresh root gets distinct, whole names and indices 0. */
  lemma {:induction false} RunShaped(codec: Codec, p: Parser, events: seq<Event>)
    requires p.Valid() && Shaped(p.root)
    ensures var q := Run(codec, p, events);
      Shaped(q.root) && q.root.name == p.root.name && q.root.index == p.root.index
    decreases |events|
  {
    if events != [] {
      hide Handled, Shaped;
      HandledShaped(codec, p, events[0]);
      RunShaped(codec, Handled(codec, p, events[0]), events[1..]);
    }
  }

  // --- Exactly when a tree comes back -----------------------------------------------------

  ghost predicate AllStored(t: Node)
    decreases t
  {
    Stored(t.value) && forall i | 0 <= i < |t.children| :: AllStored(t.children[i])
  }

  /** Index 0, default read and write flags, and no double that its text loses. */
  ghost predicate Unremarkable(codec: Codec, t: Node)
    decreases t
  {
    && t.index == 0 && t.flags.readable && t.flags.writeable && Reloaded(codec, t.value) == t.value
    && forall i | 0 <= i < |t.children| :: Unremarkable(codec, t.children[i])
  }

  ghost predicate Faithful(codec: Codec, t: Node) {
    Unremarkable(codec, t) && Shaped(t)
  }

  lemma KeptAll(cs: seq<Node>)
    ensures Kept(cs, NO_FLAGS) == cs
    decreases cs
  {
  }

  lemma {:induction false} ShapedLoads(cs: seq<Node>)
    requires SiblingsShaped(cs) && forall i | 0 <= i < |cs| :: Shaped(cs[i]) && AllStored(cs[i])
    ensures Loadable(cs, NO_FLAGS)
    decreases cs
  {
    if cs != [] {
      var c := cs[0];
      assert forall i | 0 <= i < |c.children| :: Shaped(c.children[i]) && AllStored(c.children[i]);
      ShapedLoads(c.children);
      assert forall i | 0 <= i < |cs[1..]| :: cs[1..][i] == cs[i + 1];
      ShapedLoads(cs[1..]);
      KeptAll(cs[1..]);
      assert !HasName(cs[1..], c.name);
    }
  }

  lemma {:induction false} CanonEach(codec: Codec, cs: seq<Node>)
    ensures var all := CanonAll(codec, cs, NO_FLAGS);
      |all| == |cs| && forall i | 0 <= i < |cs| :: all[i] == Canon(codec, cs[i], NO_FLAGS)
    decreases |cs|
  {
    if cs != [] {
      hide Canon;
      CanonEach(codec, cs[1..]);
      SelectedMeaning(cs[0], NO_FLAGS);
      var all, rest := CanonAll(codec, cs, NO_FLAGS), CanonAll(codec, cs[1..], NO_FLAGS);
      assert all == [Canon(codec, cs[0], NO_FLAGS)] + rest;
      forall i | 0 <= i < |cs| ensures all[i] == Canon(codec, cs[i], NO_FLAGS) {
        assert i > 0 ==> all[i] == rest[i - 1] && cs[i] == cs[1..][i - 1];
      }
    }
  }

  lemma {:induction false} CanonSame(codec: Codec, t: Node)
    ensures Canon(codec, t, NO_FLAGS) == t <==> Unremarkable(codec, t)
    decreases t
  {
    CanonEach(codec, t.children);
    forall i | 0 <= i < |t.children|
      ensures Canon(codec, t.children[i], NO_FLAGS) == t.children[i] <==> Unremarkable(codec, t.children[i])
    {
      CanonSame(codec, t.children[i]);
    }
    var all := CanonAll(codec, t.children, NO_FLAGS);
    assert all == t.children <==> forall i | 0 <= i < |all| :: all[i] == t.children[i];
  }

  /** A tree saved and loaded into a fresh root of its name comes back as it was exactly if it is
      faithful: sibling names distinct and whole, indices 0, default read and write flags, and
      doubles that survive as text. */
  lemma RoundTrip(codec: Codec, t: Node, display: string)
    requires Whole(t.name) && AllStored(t) && DisplaysAs(display, t.name)
    ensures Loaded(codec, t.name, SavedDocument(codec, t, display, NO_FLAGS)).root == t <==> Faithful(codec, t)
  {
    var document := SavedDocument(codec, t, display, NO_FLAGS);
    var p := Reinit(NewNode(t.name), false);
    assert Shaped(p.root);
    RunShaped(codec, p, EventsOf(document));
    var q := Loaded(codec, t.name, document);
    CanonSame(codec, t);
    if Shaped(t) {
      ShapedLoads(t.children);
      hide Loaded, SavedDocument, Loadable, Canon;
      LoadSaved(codec, t, display, NO_FLAGS);
    }
  }
}
