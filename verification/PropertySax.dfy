/** The property loader of `src/property-parser.cpp` as a machine over the callbacks of an XML
    parser. Nodes are known by their positions in the tree that is loaded into. */
module PropertySax {
  import opened PropertyTree
  import opened Strings
  import Numbers

  datatype Attribute = Attribute(name: string, value: string)

  datatype Event = Start(name: string, attributes: seq<Attribute>) | Chars(text: string) | End(name: string)

  datatype ValueType = NoType | IntegerType | UnsignedType | StringType | BooleanType | FloatingType

  /** How doubles are written and read. */
  datatype Codec = Codec(show: Double -> string, read: string -> Double)

  const PROPERTY_FORMAT_VERSION: int := 1

  datatype Parser = Parser(
    level: int,
    ignoreVersion: bool,
    expectValue: bool,
    ignored: bool,
    currentValueType: ValueType,
    nodes: seq<Position>,
    currentNode: Position,
    temporaryValue: string,
    forceStop: bool,
    root: Node)
  {
    predicate Valid() {
      Exists(root, currentNode) && forall i | 0 <= i < |nodes| :: Exists(root, nodes[i])
    }

    function Stopped(): Parser {
      this.(forceStop := true)
    }

    function Current(): Node
      requires Valid()
    {
      NodeAt(root, currentNode)
    }
  }

  /** reinitMembers, on a root node without a parser error before. */
  function Reinit(root: Node, ignoreVersion: bool): (p: Parser)
    ensures p.Valid()
  {
    Parser(0, ignoreVersion, false, false, NoType, [[]], [], "", false, root)
  }

  // --- Attributes -------------------------------------------------------------------------

  /** The value of the last attribute of a name. */
  function Last(attributes: seq<Attribute>, name: string): Option<string> {
    if attributes == [] then None
    else if attributes[|attributes| - 1].name == name then Some(attributes[|attributes| - 1].value)
    else Last(attributes[..|attributes| - 1], name)
  }

  /** A version attribute is present, and each has the expected number. */
  predicate VersionMatches(attributes: seq<Attribute>) {
    && (exists i :: 0 <= i < |attributes| && attributes[i].name == "version")
    && forall i | 0 <= i < |attributes| && attributes[i].name == "version" ::
         Numbers.StrToInt(attributes[i].value) == Some(PROPERTY_FORMAT_VERSION)
  }

  function TypeFromString(s: string): Option<ValueType> {
    if s == "none" then Some(NoType)
    else if s == "integer" then Some(IntegerType)
    else if s == "unsignedinteger" then Some(UnsignedType)
    else if s == "boolean" then Some(BooleanType)
    else if s == "string" then Some(StringType)
    else if s == "floating" then Some(FloatingType)
    else None
  }

  // --- Paths in names ---------------------------------------------------------------------

  datatype Walked = Walked(root: Node, at: Position)

  lemma {:induction false} AddingKeeps(t: Node, at: Position, c: Node, other: Position)
    requires Exists(t, at) && Exists(t, other)
    ensures var t' := WithNode(t, at, WithChild(NodeAt(t, at), c));
      && Exists(t', other) && Exists(t', at + [|NodeAt(t, at).children|])
    decreases |at|
  {
    if at == [] {
      assert [|t.children|][1..] == [];
    } else {
      assert (at + [|NodeAt(t, at).children|])[1..] == at[1..] + [|NodeAt(t, at).children|];
      if other == [] || other[0] != at[0] {
        AddingKeeps(t.children[at[0]], at[1..], c, []);
      } else {
        AddingKeeps(t.children[at[0]], at[1..], c, other[1..]);
      }
    }
  }

  /** One part of a path: at the top level the current node itself is reused; a child that is
      missing is added. */
  function StepTo(root: Node, level: int, current: Position, at: Position, part: string): (w: Walked)
    requires Exists(root, current) && Exists(root, at)
    ensures Exists(w.root, w.at)
    ensures forall p | Exists(root, p) :: Exists(w.root, p)
  {
    if level == 1 && NodeAt(root, current).name == part then Walked(root, current)
    else
      var n := NodeAt(root, at);
      match ChildByName(n.children, part)
      case Some(k) => ChildAt(root, at, k); Walked(root, at + [k])
      case None =>
        AddingKeepsAll(root, at, NewNode(part));
        Walked(WithNode(root, at, WithChild(n, NewNode(part))), at + [|n.children|])
  }

  lemma AddingKeepsAll(t: Node, at: Position, c: Node)
    requires Exists(t, at)
    ensures var t' := WithNode(t, at, WithChild(NodeAt(t, at), c));
      && Exists(t', at + [|NodeAt(t, at).children|])
      && forall p | Exists(t, p) :: Exists(t', p)
  {
    var t' := WithNode(t, at, WithChild(NodeAt(t, at), c));
    AddingKeeps(t, at, c, at);
    forall p | Exists(t, p) ensures Exists(t', p) {
      AddingKeeps(t, at, c, p);
    }
  }

  /** A part of a path loses what follows its first bracket. */
  function PartName(part: string): string {
    part[..Find(part, '[')]
  }

  function Walk(root: Node, level: int, current: Position, at: Position, name: string): (w: Walked)
    requires Exists(root, current) && Exists(root, at)
    ensures Exists(w.root, w.at)
    ensures forall p | Exists(root, p) :: Exists(w.root, p)
    decreases |name|
  {
    var slash := Find(name, '/');
    var w := StepTo(root, level, current, at, PartName(name[..slash]));
    if slash < |name| then Walk(w.root, level, current, w.at, name[slash + 1..]) else w
  }

  // --- The callbacks ----------------------------------------------------------------------

  function FlagFrom(attribute: Option<string>, flag: bool): bool {
    match attribute
    case None => flag
    case Some(v) => v == "true"
  }

  function FlagsFrom(attributes: seq<Attribute>, flags: Flags): Flags {
    Flags(FlagFrom(Last(attributes, "readable"), flags.readable),
          FlagFrom(Last(attributes, "writable"), flags.writeable),
          FlagFrom(Last(attributes, "archive"), flags.archive))
  }

  lemma {:induction false} ReplacingKeeps(t: Node, at: Position, n: Node, other: Position)
    requires Exists(t, at) && Exists(t, other) && n.children == NodeAt(t, at).children
    ensures Exists(WithNode(t, at, n), other)
    decreases |at|
  {
    if at != [] && other != [] && other[0] == at[0] {
      ReplacingKeeps(t.children[at[0]], at[1..], n, other[1..]);
    }
  }

  /** Changes value or flags of the current node. */
  function Updated(p: Parser, n: Node): (q: Parser)
    requires p.Valid() && n.children == p.Current().children
    ensures q.Valid()
  {
    forall other | Exists(p.root, other) ensures Exists(WithNode(p.root, p.currentNode, n), other) {
      ReplacingKeeps(p.root, p.currentNode, n, other);
    }
    p.(root := WithNode(p.root, p.currentNode, n))
  }

  function StartProperty(p: Parser, attributes: seq<Attribute>): (q: Parser)
    requires p.Valid()
    ensures q.Valid()
  {
    var name, kind := Last(attributes, "name"), Last(attributes, "type");
    if name.None? then p.(currentValueType := NoType).Stopped()
    else
      var valueType := if kind.None? then Some(NoType) else TypeFromString(kind.value);
      if valueType.None? then p.(currentValueType := NoType).Stopped()
      else
        var q := Entered(p, name.value, valueType.value);
        Updated(q, q.Current().(flags := FlagsFrom(attributes, q.Current().flags)))
  }

  /** At the node that a name leads to, with the one before it on the stack. */
  function Entered(p: Parser, name: string, valueType: ValueType): (q: Parser)
    requires p.Valid()
    ensures q.Valid()
  {
    var w := Walk(p.root, p.level, p.currentNode, p.currentNode, name);
    p.(root := w.root, nodes := p.nodes + [p.currentNode], currentNode := w.at,
       currentValueType := valueType, level := p.level + 1)
  }

  function Started(p: Parser, name: string, attributes: seq<Attribute>): (q: Parser)
    requires p.Valid()
    ensures q.Valid()
  {
    if p.forceStop then p
    else if p.level == 0 then
      var q := p.(expectValue := false);
      if name != "properties" || (!p.ignoreVersion && !VersionMatches(attributes)) then q.Stopped()
      else q.(level := p.level + 1)
    else if p.level == 1 && name != "property" then
      p.(expectValue := false, currentValueType := NoType, ignored := true, level := p.level + 1)
    else
      var q := if p.level == 1 then p.(expectValue := false, currentValueType := NoType, ignored := false) else p;
      if q.level > 1 && q.ignored then q.(level := q.level + 1)
      else if name == "property" then StartProperty(q, attributes)
      else if name == "value" then
        if q.currentValueType == NoType then q.Stopped() else q.(expectValue := true, level := q.level + 1)
      else q.(level := q.level + 1)
  }

  /** The value that collected text stands for; none if it does not parse. */
  function ValueFrom(codec: Codec, valueType: ValueType, text: string): Option<Value> {
    match valueType
    case NoType => None
    case StringType => Some(StringValue(text))
    case IntegerType =>
      (match Numbers.StrToInt(text) case None => None case Some(n) => Some(IntegerValue(n)))
    case UnsignedType =>
      (match Numbers.StrToUInt(text) case None => None case Some(n) => Some(UnsignedValue(n)))
    case BooleanType => Some(BooleanValue(text == "true"))
    case FloatingType => Some(FloatingValue(codec.read(text)))
  }

  function Ended(codec: Codec, p: Parser, name: string): (q: Parser)
    requires p.Valid()
    ensures q.Valid()
  {
    if p.forceStop then p
    else
      var q := p.(level := p.level - 1);
      if q.level < 0 then q.Stopped()
      else if q.ignored then q.(expectValue := false)
      else if name == "property" then
        if q.nodes == [] then q.(expectValue := false).Stopped()   // taking the back of an empty vector
        else q.(expectValue := false, currentNode := q.nodes[|q.nodes| - 1], nodes := q.nodes[..|q.nodes| - 1],
                currentValueType := NoType, temporaryValue := "")
      else if name == "value" then
        match ValueFrom(codec, q.currentValueType, q.temporaryValue)
        case None =>
          if q.currentValueType == NoType then q.(expectValue := false, temporaryValue := "").Stopped()
          else q.(expectValue := false).Stopped()
        case Some(v) => Updated(q.(expectValue := false, temporaryValue := ""), q.Current().(value := v))
      else q.(expectValue := false, temporaryValue := "")
  }

  function GotText(p: Parser, text: string): (q: Parser)
    requires p.Valid()
    ensures q.Valid()
  {
    if p.forceStop || !p.expectValue || p.currentValueType == NoType then p
    else p.(temporaryValue := p.temporaryValue + text)
  }

  function Handled(codec: Codec, p: Parser, e: Event): (q: Parser)
    requires p.Valid()
    ensures q.Valid()
  {
    match e
    case Start(name, attributes) => Started(p, name, attributes)
    case Chars(text) => GotText(p, text)
    case End(name) => Ended(codec, p, name)
  }

  function Run(codec: Codec, p: Parser, events: seq<Event>): (q: Parser)
    requires p.Valid()
    ensures q.Valid()
    decreases |events|
  {
    if events == [] then p else Run(codec, Handled(codec, p, events[0]), events[1..])
  }

  lemma {:induction false} RunConcat(codec: Codec, p: Parser, a: seq<Event>, b: seq<Event>)
    requires p.Valid()
    ensures Run(codec, p, a + b) == Run(codec, Run(codec, p, a), b)
    decreases |a|
  {
    if a == [] {
      assert a + b == b;
    } else {
      assert (a + b)[1..] == a[1..] + b;
      RunConcat(codec, Handled(codec, p, a[0]), a[1..], b);
    }
  }
}
