/** How `src/propertysystem.cpp` writes property trees as XML. */
module PropertySave {
  import opened PropertySax
  import opened PropertyTree
  import opened Strings
  import Numbers

  /** Well-nested content of a document. */
  datatype Xml = Element(name: string, attributes: seq<Attribute>, content: seq<Xml>) | Text(text: string)

  /** What an XML parser reports for it. */
  function EventsOf(xs: seq<Xml>): seq<Event> {
    if xs == [] then []
    else
      var first := match xs[0]
                   case Text(text) => [Chars(text)]
                   case Element(name, attributes, content) => [Start(name, attributes)] + EventsOf(content) + [End(name)];
      first + EventsOf(xs[1..])
  }

  /** The flags in a mask; a mask without flags selects everything. */
  datatype Mask = Mask(readable: bool, writeable: bool, archive: bool)

  const NO_FLAGS: Mask := Mask(false, false, false)

  predicate HasFlags(flags: Flags, mask: Mask) {
    (mask.readable ==> flags.readable) && (mask.writeable ==> flags.writeable) && (mask.archive ==> flags.archive)
  }

  predicate SearchForFlag(n: Node, mask: Mask)
    decreases n
  {
    HasFlags(n.flags, mask) || exists i :: 0 <= i < |n.children| && SearchForFlag(n.children[i], mask)
  }

  predicate Selected(n: Node, mask: Mask) {
    mask == NO_FLAGS || SearchForFlag(n, mask)
  }

  function TypeOf(v: Value): ValueType {
    match v
    case NoValue => NoType
    case IntegerValue(_) => IntegerType
    case UnsignedValue(_) => UnsignedType
    case StringValue(_) => StringType
    case BooleanValue(_) => BooleanType
    case FloatingValue(_) => FloatingType
  }

  function TypeString(t: ValueType): string {
    match t
    case NoType => "none"
    case IntegerType => "integer"
    case UnsignedType => "unsignedinteger"
    case StringType => "string"
    case BooleanType => "boolean"
    case FloatingType => "floating"
  }

  /** getAsString */
  function AsString(codec: Codec, v: Value): string {
    match v
    case NoValue => ""
    case IntegerValue(n) => Numbers.IntToString(n)
    case UnsignedValue(n) => Numbers.IntToString(n)
    case StringValue(s) => s
    case BooleanValue(b) => if b then "true" else "false"
    case FloatingValue(d) => codec.show(d)
  }

  /** getDisplayName, given the children of the parent. */
  function DisplayName(n: Node, siblings: seq<Node>): string {
    if CountNamed(siblings, n.name) > 1 then n.name + ("[" + Numbers.IntToString(n.index) + "]") else n.name
  }

  function TrueIf(flag: bool, name: string): seq<Attribute> {
    if flag then [Attribute(name, "true")] else []
  }

  function SavedAttributes(n: Node, display: string): seq<Attribute> {
    [Attribute("type", TypeString(TypeOf(n.value))), Attribute("name", display)]
    + (TrueIf(n.flags.archive, "archive")
       + (TrueIf(n.flags.readable, "readable") + TrueIf(n.flags.writeable, "writeable")))
  }

  function Indent(indent: nat): string {
    if indent == 0 then "" else "    " + Indent(indent - 1)
  }

  lemma {:induction false} IndentWidth(indent: nat)
    ensures |Indent(indent)| == 4 * indent && forall c | c in Indent(indent) :: c == ' '
  {
    if indent > 0 {
      IndentWidth(indent - 1);
    }
  }

  function SavedValue(codec: Codec, v: Value, indent: nat): seq<Xml> {
    if v == NoValue then []
    else [Text(Indent(indent))] + ([Element("value", [], [Text(AsString(codec, v))])] + [Text("\n")])
  }

  /** An element with what is written for its children. */
  function SavedElement(codec: Codec, n: Node, display: string, below: seq<Xml>, indent: nat): seq<Xml> {
    var content := [Text("\n")] + (SavedValue(codec, n.value, indent + 1) + (below + [Text(Indent(indent))]));
    [Text(Indent(indent))] + ([Element("property", SavedAttributes(n, display), content)] + [Text("\n")])
  }

  /** saveChildrenAsXML on some of the children of a node. */
  function SavedChildren(codec: Codec, cs: seq<Node>, siblings: seq<Node>, indent: nat, mask: Mask): seq<Xml> {
    if cs == [] then []
    else
      var first :=
        if Selected(cs[0], mask) then
          var below := SavedChildren(codec, cs[0].children, cs[0].children, indent + 1, mask);
          SavedElement(codec, cs[0], DisplayName(cs[0], siblings), below, indent)
        else [];
      first + SavedChildren(codec, cs[1..], siblings, indent, mask)
  }

  /** saveAsXML */
  function SavedNode(codec: Codec, n: Node, display: string, indent: nat, mask: Mask): seq<Xml> {
    SavedElement(codec, n, display, SavedChildren(codec, n.children, n.children, indent + 1, mask), indent)
  }

  /** saveToXML */
  function SavedDocument(codec: Codec, root: Node, display: string, mask: Mask): seq<Xml> {
    [Element("properties", [Attribute("version", "1")], [Text("\n")] + SavedNode(codec, root, display, 1, mask))]
  }

  lemma {:induction false} EventsConcat(a: seq<Xml>, b: seq<Xml>)
    ensures EventsOf(a + b) == EventsOf(a) + EventsOf(b)
  {
    if a == [] {
      assert a + b == b;
    } else {
      assert (a + b)[1..] == a[1..] + b;
      EventsConcat(a[1..], b);
    }
  }

  // --- The code ---------------------------------------------------------------------------

  /** An output stream, with its tags recognised. */
  class XmlWriter {
    const codec: Codec
    var out: seq<Event>

    constructor (codec: Codec)
      ensures this.codec == codec && out == []
    {
      this.codec := codec;
      out := [];
    }

    method SearchFor(n: Node, mask: Mask) returns (found: bool)
      ensures found == SearchForFlag(n, mask)
      decreases n
    {
      if !HasFlags(n.flags, mask) {
        var i := 0;
        while i < |n.children|
          invariant 0 <= i <= |n.children|
          invariant forall j | 0 <= j < i :: !SearchForFlag(n.children[j], mask)
        {
          var below := SearchFor(n.children[i], mask);
          if below {
            return true;
          }
          i := i + 1;
        }
        return false;
      }
      return true;
    }

    method SaveAsXml(n: Node, display: string, indent: nat, mask: Mask)
      modifies this
      ensures out == old(out) + EventsOf(SavedNode(codec, n, display, indent, mask))
      decreases n, 1
    {
      hide EventsOf, SavedChildren, SavedElement, SavedAttributes, Indent, AsString;
      var attributes := SavedAttributes(n, display);
      out := out + [Chars(Indent(indent)), Start("property", attributes), Chars("\n")];
      if TypeOf(n.value) != NoType {
        out := out + [Chars(Indent(indent + 1)), Start("value", []), Chars(AsString(codec, n.value)), End("value"),
                      Chars("\n")];
      }
      SaveChildrenAsXml(n, indent + 1, mask);
      out := out + [Chars(Indent(indent)), End("property"), Chars("\n")];
      SavedEvents(codec, n, display, SavedChildren(codec, n.children, n.children, indent + 1, mask), indent);
    }

    method SaveChildrenAsXml(n: Node, indent: nat, mask: Mask)
      modifies this
      ensures out == old(out) + EventsOf(SavedChildren(codec, n.children, n.children, indent, mask))
      decreases n, 0
    {
      hide EventsOf, SavedChildren, SavedNode, DisplayName, SearchForFlag;
      ghost var start, all := out, n.children;
      var i := 0;
      assert all[0..] == all;
      while i < |n.children|
        invariant 0 <= i <= |n.children|
        invariant start + EventsOf(SavedChildren(codec, all, all, indent, mask))
               == out + EventsOf(SavedChildren(codec, all[i..], all, indent, mask))
      {
        var c := n.children[i];
        assert all[i..][1..] == all[i + 1..];
        ChildrenEvents(codec, all[i..], all, indent, mask);
        var found := SearchFor(c, mask);
        if mask == NO_FLAGS || found {
          SaveAsXml(c, DisplayName(c, n.children), indent, mask);
        }
        i := i + 1;
      }
      NoChildren(codec, all[i..], all, indent, mask);
    }
  }

  lemma OneText(text: string)
    ensures EventsOf([Text(text)]) == [Chars(text)]
  {
  }

  lemma OneElement(name: string, attributes: seq<Attribute>, content: seq<Xml>)
    ensures EventsOf([Element(name, attributes, content)])
         == [Start(name, attributes)] + EventsOf(content) + [End(name)]
  {
  }

  function ValueEvents(codec: Codec, v: Value, indent: nat): seq<Event> {
    if v == NoValue then []
    else [Chars(Indent(indent)), Start("value", []), Chars(AsString(codec, v)), End("value"), Chars("\n")]
  }

  lemma SavedValueEvents(codec: Codec, v: Value, indent: nat)
    ensures EventsOf(SavedValue(codec, v, indent)) == ValueEvents(codec, v, indent)
  {
    if v != NoValue {
      var text := AsString(codec, v);
      OneText(Indent(indent));
      OneText(text);
      OneText("\n");
      OneElement("value", [], [Text(text)]);
      EventsConcat([Element("value", [], [Text(text)])], [Text("\n")]);
      EventsConcat([Text(Indent(indent))], [Element("value", [], [Text(text)])] + [Text("\n")]);
      hide EventsOf, Indent, AsString;
    }
  }

  lemma SavedEvents(codec: Codec, n: Node, display: string, below: seq<Xml>, indent: nat)
    ensures EventsOf(SavedElement(codec, n, display, below, indent)) ==
      [Chars(Indent(indent)), Start("property", SavedAttributes(n, display)), Chars("\n")]
      + ValueEvents(codec, n.value, indent + 1)
      + EventsOf(below)
      + [Chars(Indent(indent)), End("property"), Chars("\n")]
  {
    hide EventsOf, Indent, SavedValue, SavedAttributes, ValueEvents;
    var v, t, attributes := SavedValue(codec, n.value, indent + 1), [Text(Indent(indent))], SavedAttributes(n, display);
    SavedValueEvents(codec, n.value, indent + 1);
    OneText(Indent(indent));
    OneText("\n");
    EventsConcat(below, t);
    EventsConcat(v, below + t);
    EventsConcat([Text("\n")], v + (below + t));
    var content := [Text("\n")] + (v + (below + t));
    OneElement("property", attributes, content);
    EventsConcat([Element("property", attributes, content)], [Text("\n")]);
    EventsConcat(t, [Element("property", attributes, content)] + [Text("\n")]);
  }

  lemma ChildrenEvents(codec: Codec, cs: seq<Node>, siblings: seq<Node>, indent: nat, mask: Mask)
    requires cs != []
    ensures EventsOf(SavedChildren(codec, cs, siblings, indent, mask)) ==
      (if Selected(cs[0], mask) then EventsOf(SavedNode(codec, cs[0], DisplayName(cs[0], siblings), indent, mask)) else [])
      + EventsOf(SavedChildren(codec, cs[1..], siblings, indent, mask))
  {
    hide EventsOf, SavedElement, Selected, DisplayName;
    var rest := SavedChildren(codec, cs[1..], siblings, indent, mask);
    EventsConcat(SavedNode(codec, cs[0], DisplayName(cs[0], siblings), indent, mask), rest);
    assert [] + rest == rest;
  }

  lemma NoChildren(codec: Codec, cs: seq<Node>, siblings: seq<Node>, indent: nat, mask: Mask)
    requires cs == []
    ensures EventsOf(SavedChildren(codec, cs, siblings, indent, mask)) == []
  {
  }
}
