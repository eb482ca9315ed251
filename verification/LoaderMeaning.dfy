/** What the property loader of `src/property-parser.cpp` makes of a document, read as a tree: without
    its stack, its level and its other members. */
module LoaderMeaning {
  import opened PropertySave
  import opened PropertySax
  import opened PropertyTree
  import opened SaveLoad
  import opened Strings
  import LoaderPaths
  import Numbers

  // --- Reading a tree of elements ---------------------------------------------------------

  /** The tree loaded into, the node that is current, and the type its value has to have. */
  datatype Place = Place(root: Node, at: Position, kind: ValueType)

  /** A flag attribute sets its flag with the text "true" and clears it with any other. */
  function FlagOf(attributes: seq<Attribute>, name: string, flag: bool): bool {
    match Last(attributes, name)
    case None => flag
    case Some(text) => text == "true"
  }

  function FlagsOf(attributes: seq<Attribute>, flags: Flags): Flags {
    Flags(FlagOf(attributes, "readable", flags.readable), FlagOf(attributes, "writable", flags.writeable),
          FlagOf(attributes, "archive", flags.archive))
  }

  function TextOf(content: seq<Xml>): string {
    if content == [] then ""
    else (if content[0].Text? then content[0].text else "") + TextOf(content[1..])
  }

  /** Text as a value of a type; none where there is no type, or the text is no number. */
  function ValueOf(codec: Codec, kind: ValueType, text: string): Option<Value> {
    match kind
    case NoType => None
    case StringType => Some(StringValue(text))
    case BooleanType => Some(BooleanValue(text == "true"))
    case FloatingType => Some(FloatingValue(codec.read(text)))
    case IntegerType => if Numbers.StrToInt(text).None? then None else Some(IntegerValue(Numbers.StrToInt(text).value))
    case UnsignedType =>
      if Numbers.StrToUInt(text).None? then None else Some(UnsignedValue(Numbers.StrToUInt(text).value))
  }

  /** The type a property asks for: "none" without a type attribute. */
  function KindOf(attributes: seq<Attribute>): Option<ValueType> {
    match Last(attributes, "type")
    case None => Some(NoType)
    case Some(text) => TypeFromString(text)
  }

  /** Of several attributes of one name the last counts. */
  lemma {:induction false} LastMeaning(attributes: seq<Attribute>, name: string)
    ensures match Last(attributes, name)
            case None => forall i | 0 <= i < |attributes| :: attributes[i].name != name
            case Some(v) => exists i :: 0 <= i < |attributes| && attributes[i] == Attribute(name, v)
                              && forall j | i < j < |attributes| :: attributes[j].name != name
    decreases |attributes|
  {
    if attributes != [] {
      var front := attributes[..|attributes| - 1];
      LastMeaning(front, name);
      if attributes[|attributes| - 1].name == name {
        assert attributes[|attributes| - 1] == Attribute(name, Last(attributes, name).value);
      } else if Last(front, name).Some? {
        var i :| 0 <= i < |front| && front[i] == Attribute(name, Last(front, name).value)
                 && forall j | i < j < |front| :: front[j].name != name;
        assert attributes[i] == front[i];
        assert forall j | i < j < |front| :: attributes[j] == front[j];
      }
    }
  }

  /** The texts of types and of the values that have fixed ones. */
  lemma Texts(codec: Codec)
    ensures TypeFromString("none") == Some(NoType) && TypeFromString("string") == Some(StringType)
    ensures TypeFromString("integer") == Some(IntegerType) && TypeFromString("unsignedinteger") == Some(UnsignedType)
    ensures TypeFromString("boolean") == Some(BooleanType) && TypeFromString("floating") == Some(FloatingType)
    ensures AsString(codec, BooleanValue(true)) == "true" && AsString(codec, BooleanValue(false)) == "false"
  {
    assert |"none"| == 4 && |"string"| == 6 && |"integer"| == 7 && |"unsignedinteger"| == 15 && |"boolean"| == 7
        && |"floating"| == 8 && "integer"[0] != "boolean"[0];
  }

  lemma Grows(t: Node, at: Position, n: Node)
    requires Exists(t, at) && n.children == NodeAt(t, at).children
    ensures forall other | Exists(t, other) :: Exists(WithNode(t, at, n), other)
  {
    forall other | Exists(t, other) ensures Exists(WithNode(t, at, n), other) {
      ReplacingKeeps(t, at, n, other);
    }
  }

  /** At the node a property is about, with its flags set. */
  function AtProperty(p: Place, outer: bool, attributes: seq<Attribute>): (r: Option<Place>)
    requires Exists(p.root, p.at)
    ensures r.Some? ==>
      Exists(r.value.root, r.value.at) && forall other | Exists(p.root, other) :: Exists(r.value.root, other)
  {
    var name, kind := Last(attributes, "name"), KindOf(attributes);
    if name.None? || kind.None? then None
    else
      var w := Walk(p.root, if outer then 1 else 2, p.at, p.at, name.value);
      var n := NodeAt(w.root, w.at);
      Grows(w.root, w.at, n.(flags := FlagsOf(attributes, n.flags)));
      Some(Place(WithNode(w.root, w.at, n.(flags := FlagsOf(attributes, n.flags))), w.at, kind.value))
  }

  function ReadElement(codec: Codec, outer: bool, p: Place, x: Xml): (r: Option<Place>)
    requires Exists(p.root, p.at)
    ensures r.Some? ==> r.value.at == p.at && forall other | Exists(p.root, other) :: Exists(r.value.root, other)
    decreases x, 0
  {
    match x
    case Text(_) => Some(p)
    case Element(name, attributes, content) =>
      if name == "property" then
        match AtProperty(p, outer, attributes)
        case None => None
        case Some(q) =>
          (match ReadAll(codec, false, q, content)
           case None => None
           case Some(r) => Some(Place(r.root, p.at, NoType)))
      else if outer then Some(p.(kind := NoType))
      else if name == "value" then
        match ValueOf(codec, p.kind, TextOf(content))
        case None => None
        case Some(v) =>
          var n := NodeAt(p.root, p.at).(value := v);
          Grows(p.root, p.at, n);
          Some(p.(root := WithNode(p.root, p.at, n)))
      else ReadAll(codec, false, p, content)
  }

  /** The elements of some content, one after the other; none where the loader gives up. */
  function ReadAll(codec: Codec, outer: bool, p: Place, xs: seq<Xml>): (r: Option<Place>)
    requires Exists(p.root, p.at)
    ensures r.Some? ==> r.value.at == p.at && forall other | Exists(p.root, other) :: Exists(r.value.root, other)
    decreases xs, 1
  {
    if xs == [] then Some(p)
    else
      match ReadElement(codec, outer, p, xs[0])
      case None => None
      case Some(q) => ReadAll(codec, outer, q, xs[1..])
  }

  /** Values hold nothing but text. */
  predicate PlainValues(xs: seq<Xml>)
    decreases xs
  {
    forall i | 0 <= i < |xs| && xs[i].Element? ::
      if xs[i].name == "value" then forall j | 0 <= j < |xs[i].content| :: xs[i].content[j].Text?
      else PlainValues(xs[i].content)
  }

  // --- The loader between elements --------------------------------------------------------

  /** Within a property, with no value expected. */
  predicate Inner(p: Parser) {
    p.Valid() && !p.forceStop && !p.ignored && !p.expectValue && p.temporaryValue == "" && p.level >= 2
  }

  /** Within the outermost element, with no value expected. */
  predicate Outer(p: Parser) {
    p.Valid() && !p.forceStop && !p.expectValue && p.temporaryValue == "" && p.level == 1
  }

  function PlaceOf(p: Parser): Place {
    Place(p.root, p.currentNode, p.currentValueType)
  }

  /** The loader at another place. */
  function Moved(p: Parser, r: Place): Parser {
    p.(root := r.root, currentNode := r.at, currentValueType := r.kind)
  }

  /** What the loader is after content that reads as r. */
  ghost predicate Reads(p: Parser, r: Option<Place>, q: Parser) {
    if r.None? then q.forceStop else q == Moved(p, r.value)
  }

  lemma {:induction false} WalkDeep(root: Node, level: int, current: Position, at: Position, name: string)
    requires Exists(root, current) && Exists(root, at) && level >= 2
    ensures Walk(root, level, current, at, name) == Walk(root, 2, current, at, name)
    decreases |name|
  {
    hide PartName, StepTo, Exists, NodeAt, Find, Walk;
    var slash := Find(name, '/');
    var part := PartName(name[..slash]);
    StepDeep(root, level, current, at, part);
    LoaderPaths.WalkSteps(root, level, current, at, name, part);
    LoaderPaths.WalkSteps(root, 2, current, at, name, part);
    if slash < |name| {
      var w := StepTo(root, 2, current, at, part);
      WalkDeep(w.root, level, current, w.at, name[slash + 1..]);
    }
  }

  lemma StepDeep(root: Node, level: int, current: Position, at: Position, part: string)
    requires Exists(root, current) && Exists(root, at) && level >= 2
    ensures StepTo(root, level, current, at, part) == StepTo(root, 2, current, at, part)
  {
    hide ChildByName, WithChild, WithNode, NodeAt, Exists;
  }

  /** The start of a property that is not ignored. */
  lemma PropertyStarts(p: Parser, attributes: seq<Attribute>)
    requires Inner(p) || Outer(p)
    ensures var q := Started(p, "property", attributes);
      match AtProperty(PlaceOf(p), p.level == 1, attributes)
      case None => q.forceStop
      case Some(r) =>
        && Inner(q) && PlaceOf(q) == r && q.level == p.level + 1 && q.nodes == p.nodes + [p.currentNode]
        && q == Moved(p, r).(level := p.level + 1, nodes := q.nodes, ignored := false)
  {
    hide Walk, TypeFromString, Last;
    var name := Last(attributes, "name");
    if name.Some? && p.level != 1 {
      WalkDeep(p.root, p.level, p.currentNode, p.currentNode, name.value);
    }
    FlagsSame(attributes);
  }

  lemma FlagsSame(attributes: seq<Attribute>)
    ensures forall flags :: FlagsFrom(attributes, flags) == FlagsOf(attributes, flags)
  {
    hide Last;
  }

  lemma {:induction false} StoppedStays(codec: Codec, p: Parser, events: seq<Event>)
    requires p.Valid() && p.forceStop
    ensures Run(codec, p, events) == p
    decreases |events|
  {
    if events != [] {
      StoppedStays(codec, p, events[1..]);
    }
  }

  /** The text of a value is collected. */
  lemma {:induction false} TextCollected(codec: Codec, p: Parser, content: seq<Xml>)
    requires p.Valid() && !p.forceStop && p.expectValue && p.currentValueType != NoType
    requires forall j | 0 <= j < |content| :: content[j].Text?
    ensures RunXml(codec, p, content) == p.(temporaryValue := p.temporaryValue + TextOf(content))
    decreases |content|
  {
    if content == [] {
      assert p.temporaryValue + "" == p.temporaryValue;
    } else {
      hide RunXml;
      var q := GotText(p, content[0].text);
      assert content == [Text(content[0].text)] + content[1..];
      RunXmlConcat(codec, p, [Text(content[0].text)], content[1..]);
      RunText(codec, p, content[0].text);
      TextCollected(codec, q, content[1..]);
      assert p.temporaryValue + content[0].text + TextOf(content[1..]) == p.temporaryValue + TextOf(content);
    }
  }

  lemma ValueRead(codec: Codec, p: Parser, attributes: seq<Attribute>, content: seq<Xml>)
    requires Inner(p) && forall j | 0 <= j < |content| :: content[j].Text?
    ensures var x := Element("value", attributes, content);
      Reads(p, ReadElement(codec, false, PlaceOf(p), x), RunXml(codec, p, [x]))
  {
    hide RunXml, TextOf, Started, Ended;
    RunElement(codec, p, "value", attributes, content);
    var q := Started(p, "value", attributes);
    ValueStarts(p, attributes);
    if p.currentValueType == NoType {
      StoppedRun(codec, q, content);
      StoppedEnds(codec, q, "value");
    } else {
      TextCollected(codec, q, content);
      assert "" + TextOf(content) == TextOf(content);
      ValueEnds(codec, p, TextOf(content));
    }
  }

  lemma ValueStarts(p: Parser, attributes: seq<Attribute>)
    requires Inner(p)
    ensures var q := Started(p, "value", attributes);
      if p.currentValueType == NoType then q.forceStop else q == p.(expectValue := true, level := p.level + 1)
  {
    assert |"value"| == 5 && |"property"| == 8;
  }

  lemma StoppedEnds(codec: Codec, q: Parser, name: string)
    requires q.Valid() && q.forceStop
    ensures Ended(codec, q, name) == q
  {
  }

  lemma ValueEnds(codec: Codec, p: Parser, text: string)
    requires Inner(p) && p.currentValueType != NoType
    ensures var q := Ended(codec, p.(expectValue := true, level := p.level + 1, temporaryValue := text), "value");
      match ValueOf(codec, p.currentValueType, text)
      case None => q.forceStop
      case Some(v) => q == p.(root := WithNode(p.root, p.currentNode, NodeAt(p.root, p.currentNode).(value := v)))
  {
    hide Numbers.StrToInt, Numbers.StrToUInt;
    assert |"value"| == 5 && |"property"| == 8;
  }

  /** Other elements within a property do not matter. */
  lemma OtherRead(codec: Codec, p: Parser, name: string, attributes: seq<Attribute>, content: seq<Xml>)
    requires Inner(p) && name != "property" && name != "value"
    requires var q := Started(p, name, attributes);
      q.Valid() && Reads(q, ReadAll(codec, false, PlaceOf(q), content), RunXml(codec, q, content))
    ensures var x := Element(name, attributes, content);
      Reads(p, ReadElement(codec, false, PlaceOf(p), x), RunXml(codec, p, [x]))
  {
    hide RunXml, ReadAll;
    RunElement(codec, p, name, attributes, content);
  }

  lemma PropertyRead(codec: Codec, p: Parser, attributes: seq<Attribute>, content: seq<Xml>)
    requires Inner(p) || Outer(p)
    requires var q := Started(p, "property", attributes);
      q.Valid() && (!q.forceStop ==> Reads(q, ReadAll(codec, false, PlaceOf(q), content), RunXml(codec, q, content)))
    ensures var x := Element("property", attributes, content);
      Reads(p.(ignored := false), ReadElement(codec, p.level == 1, PlaceOf(p), x), RunXml(codec, p, [x]))
  {
    hide RunXml, ReadAll, Started, AtProperty;
    RunElement(codec, p, "property", attributes, content);
    PropertyStarts(p, attributes);
    var q := Started(p, "property", attributes);
    if q.forceStop {
      StoppedRun(codec, q, content);
    } else {
      assert (p.nodes + [p.currentNode])[..|p.nodes|] == p.nodes;
      assert |"value"| == 5 && |"property"| == 8;
    }
  }

  lemma StoppedRun(codec: Codec, q: Parser, content: seq<Xml>)
    requires q.Valid() && q.forceStop
    ensures RunXml(codec, q, content) == q
  {
    StoppedStays(codec, q, EventsOf(content));
  }

  // --- The loader reads the tree ----------------------------------------------------------

  lemma {:induction false} ElementReads(codec: Codec, p: Parser, x: Xml)
    requires Inner(p) && PlainValues([x])
    ensures Reads(p, ReadElement(codec, false, PlaceOf(p), x), RunXml(codec, p, [x]))
    decreases x, 0
  {
    hide Started, ReadAll, RunXml, ReadElement, Reads, AtProperty;
    match x
    case Text(text) => TextReads(codec, false, p, text);
    case Element(name, attributes, content) =>
      assert [x][0] == x;
      if name == "property" {
        PropertyStarts(p, attributes);
        var q := Started(p, name, attributes);
        if !q.forceStop {
          ContentReads(codec, q, content);
        }
        PropertyRead(codec, p, attributes, content);
        NotIgnored(p);
      } else if name == "value" {
        ValueRead(codec, p, attributes, content);
      } else {
        OtherStarts(p, name, attributes);
        ContentReads(codec, Started(p, name, attributes), content);
        OtherRead(codec, p, name, attributes, content);
      }
  }

  lemma NotIgnored(p: Parser)
    requires Inner(p)
    ensures p.(ignored := false) == p && p.level != 1
  {
  }

  lemma OtherStarts(p: Parser, name: string, attributes: seq<Attribute>)
    requires Inner(p) && name != "property" && name != "value"
    ensures Inner(Started(p, name, attributes))
  {
  }

  lemma TextReads(codec: Codec, outer: bool, p: Parser, text: string)
    requires Inner(p) || Outer(p)
    ensures Reads(p, ReadElement(codec, outer, PlaceOf(p), Text(text)), RunXml(codec, p, [Text(text)]))
  {
    RunText(codec, p, text);
    hide RunXml;
  }

  lemma {:induction false} ContentReads(codec: Codec, p: Parser, xs: seq<Xml>)
    requires Inner(p) && PlainValues(xs)
    ensures Reads(p, ReadAll(codec, false, PlaceOf(p), xs), RunXml(codec, p, xs))
    decreases xs, 1
  {
    hide RunXml, ReadElement;
    if xs == [] {
      NothingRuns(codec, p);
    } else {
      assert xs == [xs[0]] + xs[1..];
      RunXmlConcat(codec, p, [xs[0]], xs[1..]);
      PlainParts(xs);
      ElementReads(codec, p, xs[0]);
      var r, q := ReadElement(codec, false, PlaceOf(p), xs[0]), RunXml(codec, p, [xs[0]]);
      if r.None? {
        StoppedRun(codec, q, xs[1..]);
      } else {
        assert q == Moved(p, r.value) && PlaceOf(q) == r.value;
        ContentReads(codec, q, xs[1..]);
      }
    }
  }

  lemma NothingRuns(codec: Codec, p: Parser)
    requires p.Valid()
    ensures RunXml(codec, p, []) == p
  {
  }

  lemma PlainParts(xs: seq<Xml>)
    requires xs != [] && PlainValues(xs)
    ensures PlainValues([xs[0]]) && PlainValues(xs[1..])
  {
    assert forall i | 0 <= i < |xs| - 1 :: xs[1..][i] == xs[i + 1];
  }

  // --- Within the outermost element -------------------------------------------------------

  /** Whatever is in an element that is ignored changes nothing. */
  lemma {:induction false} IgnoredRuns(codec: Codec, p: Parser, xs: seq<Xml>)
    requires p.Valid() && !p.forceStop && p.ignored && !p.expectValue && p.level >= 2
    ensures RunXml(codec, p, xs) == p
    decreases xs
  {
    if xs == [] {
      NothingRuns(codec, p);
    } else {
      hide RunXml;
      assert xs == [xs[0]] + xs[1..];
      RunXmlConcat(codec, p, [xs[0]], xs[1..]);
      IgnoredRuns(codec, p, xs[1..]);
      match xs[0]
      case Text(text) => RunText(codec, p, text);
      case Element(name, attributes, content) =>
        RunElement(codec, p, name, attributes, content);
        IgnoredRuns(codec, p.(level := p.level + 1), content);
    }
  }

  lemma OuterOther(codec: Codec, p: Parser, name: string, attributes: seq<Attribute>, content: seq<Xml>)
    requires Outer(p) && name != "property"
    ensures var x := Element(name, attributes, content);
      Reads(p.(ignored := true), ReadElement(codec, true, PlaceOf(p), x), RunXml(codec, p, [x]))
  {
    RunElement(codec, p, name, attributes, content);
    IgnoredRuns(codec, Started(p, name, attributes), content);
    hide RunXml;
  }

  predicate OuterPlain(xs: seq<Xml>) {
    forall i | 0 <= i < |xs| && xs[i].Element? && xs[i].name == "property" :: PlainValues(xs[i].content)
  }

  /** As Reads, but for whether the last element was ignored. */
  ghost predicate ReadsOuter(p: Parser, r: Option<Place>, q: Parser) {
    if r.None? then q.forceStop else q == Moved(p, r.value).(ignored := q.ignored)
  }

  lemma OuterElement(codec: Codec, p: Parser, x: Xml)
    requires Outer(p) && OuterPlain([x])
    ensures ReadsOuter(p, ReadElement(codec, true, PlaceOf(p), x), RunXml(codec, p, [x]))
  {
    hide Started, ReadAll, RunXml, ReadElement, AtProperty;
    match x
    case Text(text) => TextReads(codec, true, p, text);
    case Element(name, attributes, content) =>
      assert [x][0] == x;
      if name == "property" {
        PropertyStarts(p, attributes);
        var q := Started(p, name, attributes);
        if !q.forceStop {
          ContentReads(codec, q, content);
        }
        PropertyRead(codec, p, attributes, content);
      } else {
        OuterOther(codec, p, name, attributes, content);
      }
  }

  lemma {:induction false} OuterReads(codec: Codec, p: Parser, xs: seq<Xml>)
    requires Outer(p) && OuterPlain(xs)
    ensures ReadsOuter(p, ReadAll(codec, true, PlaceOf(p), xs), RunXml(codec, p, xs))
    decreases |xs|
  {
    hide RunXml, ReadElement;
    if xs == [] {
      NothingRuns(codec, p);
    } else {
      assert xs == [xs[0]] + xs[1..];
      RunXmlConcat(codec, p, [xs[0]], xs[1..]);
      OuterElement(codec, p, xs[0]);
      var r, q := ReadElement(codec, true, PlaceOf(p), xs[0]), RunXml(codec, p, [xs[0]]);
      if r.None? {
        StoppedRun(codec, q, xs[1..]);
      } else {
        assert PlaceOf(q) == r.value;
        OuterReads(codec, q, xs[1..]);
      }
    }
  }

  // --- Documents --------------------------------------------------------------------------

  /** A version is given, and whenever it is given it is 1. */
  predicate RightVersion(attributes: seq<Attribute>) {
    && (exists i :: 0 <= i < |attributes| && attributes[i].name == "version")
    && forall i | 0 <= i < |attributes| && attributes[i].name == "version" ::
         Numbers.StrToInt(attributes[i].value) == Some(1)
  }

  /** What a whole document is read as. */
  function ReadDocument(codec: Codec, root: Node, ignoreVersion: bool, name: string, attributes: seq<Attribute>,
                        content: seq<Xml>): Option<Node>
  {
    if name != "properties" || !(ignoreVersion || RightVersion(attributes)) then None
    else
      match ReadAll(codec, true, Place(root, [], NoType), content)
      case None => None
      case Some(r) => Some(r.root)
  }

  /** The loader makes of every document, into whatever tree, what the document is read as; where the
      reading gives up so does the loader, and nowhere else. */
  lemma DocumentReads(codec: Codec, root: Node, ignoreVersion: bool, name: string, attributes: seq<Attribute>,
                      content: seq<Xml>)
    requires OuterPlain(content)
    ensures var q := RunXml(codec, Reinit(root, ignoreVersion), [Element(name, attributes, content)]);
      match ReadDocument(codec, root, ignoreVersion, name, attributes, content)
      case None => q.forceStop
      case Some(t) => !q.forceStop && q.root == t && q.level == 0 && q.nodes == [[]]
  {
    var p := Reinit(root, ignoreVersion);
    RunElement(codec, p, name, attributes, content);
    var q := Started(p, name, attributes);
    assert |"properties"| == 10 && |"property"| == 8 && |"value"| == 5;
    hide RunXml, ReadAll;
    if q.forceStop {
      StoppedRun(codec, q, content);
    } else {
      assert Outer(q);
      OuterReads(codec, q, content);
    }
  }
}
