/** The callbacks of `src/property-parser.cpp` on the fields of a parser object. The tree loaded
    into is a value here, so that the pointers to its nodes become positions. */
module PropertyParser {
  import opened PropertySax
  import opened PropertyTree
  import opened Strings
  import Numbers

  class TreeParser {
    const codec: Codec
    var level: int
    var ignoreVersion: bool
    var expectValue: bool
    var ignored: bool
    var currentValueType: ValueType
    var nodes: seq<Position>
    var currentNode: Position
    var temporaryValue: string
    var forceStop: bool
    var root: Node

    ghost function View(): Parser
      reads this
    {
      Parser(level, ignoreVersion, expectValue, ignored, currentValueType, nodes, currentNode, temporaryValue,
             forceStop, root)
    }

    ghost predicate Valid()
      reads this
    {
      View().Valid()
    }

    constructor (codec: Codec, root: Node)
      ensures View() == Reinit(root, false) && this.codec == codec
    {
      this.codec := codec;
      level, ignoreVersion, expectValue, ignored, currentValueType := 0, false, false, false, NoType;
      nodes, currentNode, temporaryValue, forceStop := [[]], [], "", false;
      this.root := root;
    }

    method ReinitMembers(root: Node, ignoreVersion: bool)
      modifies this
      ensures View() == Reinit(root, ignoreVersion).(forceStop := old(forceStop))
    {
      level, this.ignoreVersion, expectValue, ignored, currentValueType := 0, ignoreVersion, false, false, NoType;
      temporaryValue, nodes := "", [];
      nodes := nodes + [[]];
      this.root, currentNode := root, [];
    }

    /** The loop over the attributes of the document element. */
    static method CheckVersion(attributes: seq<Attribute>) returns (matches: bool)
      ensures matches == VersionMatches(attributes)
    {
      hide Numbers.StrToInt;
      var versionFound, i := false, 0;
      while i < |attributes|
        invariant 0 <= i <= |attributes|
        invariant versionFound <==> exists j :: 0 <= j < i && attributes[j].name == "version"
        invariant forall j | 0 <= j < i && attributes[j].name == "version" ::
          Numbers.StrToInt(attributes[j].value) == Some(PROPERTY_FORMAT_VERSION)
      {
        if attributes[i].name == "version" {
          if Numbers.StrToInt(attributes[i].value) != Some(PROPERTY_FORMAT_VERSION) {
            return false;
          }
          versionFound := true;
        }
        i := i + 1;
      }
      return versionFound;
    }

    /** The loop over the attributes of a property. */
    static method ReadAttributes(attributes: seq<Attribute>)
      returns (name: Option<string>, kind: Option<string>, writable: Option<string>, readable: Option<string>,
               archive: Option<string>)
      ensures name == Last(attributes, "name") && kind == Last(attributes, "type")
      ensures writable == Last(attributes, "writable") && readable == Last(attributes, "readable")
      ensures archive == Last(attributes, "archive")
    {
      name, kind, writable, readable, archive := None, None, None, None, None;
      var i := 0;
      while i < |attributes|
        invariant 0 <= i <= |attributes|
        invariant name == Last(attributes[..i], "name") && kind == Last(attributes[..i], "type")
        invariant writable == Last(attributes[..i], "writable") && readable == Last(attributes[..i], "readable")
        invariant archive == Last(attributes[..i], "archive")
      {
        var a := attributes[i];
        LastUpTo(attributes, i);
        assert LastStep(attributes, i, "name") && LastStep(attributes, i, "type") && LastStep(attributes, i, "writable");
        assert LastStep(attributes, i, "readable") && LastStep(attributes, i, "archive");
        if a.name == "name" {
          name := Some(a.value);
        } else if a.name == "type" {
          kind := Some(a.value);
        } else if a.name == "writable" {
          writable := Some(a.value);
        } else if a.name == "readable" {
          readable := Some(a.value);
        } else if a.name == "archive" {
          archive := Some(a.value);
        }
        i := i + 1;
      }
      assert attributes[..i] == attributes;
    }

    /** The loop over the parts of a path; the node found or added is the current one of the result. */
    method FindOrCreate(name: string) returns (node: Position)
      requires Valid()
      modifies `root
      ensures Valid() && Walked(root, node) == Walk(old(root), level, currentNode, currentNode, name)
    {
      hide StepTo, Exists;
      var temp, rest := currentNode, name;
      ghost var w := Walked(root, temp);
      while true
        invariant Exists(root, currentNode) && Exists(root, temp) && (forall i | 0 <= i < |nodes| :: Exists(root, nodes[i]))
        invariant Walk(root, level, currentNode, temp, rest) == Walk(old(root), level, currentNode, currentNode, name)
        decreases |rest|
      {
        var slash := Find(rest, '/');
        var step := StepTo(root, level, currentNode, temp, PartName(rest[..slash]));
        root, temp := step.root, step.at;
        if slash == |rest| {
          return temp;
        }
        rest := rest[slash + 1..];
      }
    }

    /** Writes value or flags of the current node. */
    method SetNode(n: Node)
      requires Valid() && n.children == NodeAt(root, currentNode).children
      modifies `root
      ensures Valid() && View() == Updated(old(View()), n)
    {
      ghost var q := Updated(View(), n);
      root := WithNode(root, currentNode, n);
      assert View() == q;
    }

    method StartProperty(attributes: seq<Attribute>)
      requires Valid()
      modifies this
      ensures Valid() && View() == PropertySax.StartProperty(old(View()), attributes)
    {
      hide Walk, Last, TypeFromString, Updated, Entered;
      currentValueType := NoType;
      var name, kind, writable, readable, archive := ReadAttributes(attributes);
      if name.None? {
        forceStop := true;
        return;
      }
      if kind.Some? {
        var valueType := TypeFromString(kind.value);
        if valueType.None? {
          forceStop := true;
          return;
        }
        currentValueType := valueType.value;
      }
      TypeReplaced(old(View()), name.value, currentValueType);
      Enter(name.value);
      var n := NodeAt(root, currentNode);
      var flags := Flags(FlagFrom(readable, n.flags.readable), FlagFrom(writable, n.flags.writeable),
                         FlagFrom(archive, n.flags.archive));
      SetNode(n.(flags := flags));
    }

    /** Goes to the node that a name leads to. */
    method Enter(name: string)
      requires Valid()
      modifies this
      ensures Valid() && View() == Entered(old(View()), name, old(currentValueType))
    {
      hide Walk;
      var node := FindOrCreate(name);
      nodes := nodes + [currentNode];
      currentNode := node;
      level := level + 1;
    }

    method ElementStart(name: string, attributes: seq<Attribute>)
      requires Valid()
      modifies this
      ensures Valid() && View() == Started(old(View()), name, attributes)
    {
      hide PropertySax.StartProperty, VersionMatches;
      if forceStop {
        return;
      }
      if level == 0 {
        expectValue := false;
        if name != "properties" {
          forceStop := true;
          return;
        }
        if !ignoreVersion {
          var matches := CheckVersion(attributes);
          if !matches {
            forceStop := true;
            return;
          }
        }
        level := level + 1;
        return;
      }
      if level == 1 {
        expectValue := false;
        currentValueType := NoType;
        if name != "property" {
          ignored := true;
          level := level + 1;
          return;
        } else {
          ignored := false;
        }
      }
      if level > 1 && ignored {
        level := level + 1;
        return;
      }
      if name == "property" {
        StartProperty(attributes);
        return;
      } else if name == "value" {
        if currentValueType == NoType {
          forceStop := true;
          return;
        }
        expectValue := true;
      }
      level := level + 1;
    }

    method ElementEnd(name: string)
      requires Valid()
      modifies this
      ensures Valid() && View() == Ended(codec, old(View()), name)
    {
      hide ValueFrom, Updated;
      if forceStop {
        return;
      }
      level := level - 1;
      if level < 0 {
        forceStop := true;
        return;
      }
      expectValue := false;
      if ignored {
        return;
      }
      if name == "property" {
        if nodes == [] {
          forceStop := true;
          return;
        }
        currentNode := nodes[|nodes| - 1];
        nodes := nodes[..|nodes| - 1];
        currentValueType := NoType;
      } else if name == "value" {
        var v := ValueFrom(codec, currentValueType, temporaryValue);
        if v.None? {
          forceStop := true;
          if currentValueType != NoType {
            return;
          }
        } else {
          var n := NodeAt(root, currentNode).(value := v.value);
          UpdatedText(View(), n, "");
          SetNode(n);
        }
      }
      temporaryValue := "";
    }

    method CharacterData(text: string)
      requires Valid()
      modifies this
      ensures Valid() && View() == GotText(old(View()), text)
    {
      if forceStop {
        return;
      }
      if !expectValue {
        return;
      }
      if currentValueType == NoType {
        return;
      }
      if text != "" {
        temporaryValue := temporaryValue + text;
      }
      assert old(temporaryValue) + "" == old(temporaryValue);
    }

    /** loadFromXML, given the callbacks the XML parser makes for the file; parsing starts without an
        error before. */
    method LoadFromXml(root: Node, ignoreVersion: bool, events: seq<Event>) returns (ret: bool)
      modifies this
      ensures var q := Run(codec, Reinit(root, ignoreVersion), events);
        ret == !q.forceStop && View() == q.(nodes := [])
    {
      ReinitMembers(root, ignoreVersion);
      forceStop := false;
      Feed(events);
      ret := !forceStop;
      nodes := [];
    }

    /** The callbacks for a whole document. */
    method Feed(events: seq<Event>)
      requires Valid()
      modifies this
      ensures Valid() && View() == Run(codec, old(View()), events)
    {
      hide Handled, Started, Ended, GotText;
      var i := 0;
      assert events[0..] == events;
      while i < |events|
        invariant 0 <= i <= |events| && Valid()
        invariant Run(codec, View(), events[i..]) == Run(codec, old(View()), events)
        decreases |events| - i
      {
        assert events[i..][1..] == events[i + 1..];
        ghost var p := View();
        HandledCases(codec, p, events[i]);
        match events[i] {
          case Start(name, attributes) => ElementStart(name, attributes);
          case Chars(text) => CharacterData(text);
          case End(name) => ElementEnd(name);
        }
        i := i + 1;
      }
    }
  }

  lemma TypeReplaced(p: Parser, name: string, valueType: ValueType)
    requires p.Valid()
    ensures Entered(p.(currentValueType := valueType), name, valueType) == Entered(p, name, valueType)
  {
    hide Walk;
  }

  ghost predicate LastStep(attributes: seq<Attribute>, i: nat, name: string)
    requires i < |attributes|
  {
    Last(attributes[..i + 1], name)
    == if attributes[i].name == name then Some(attributes[i].value) else Last(attributes[..i], name)
  }

  lemma LastUpTo(attributes: seq<Attribute>, i: nat)
    requires i < |attributes|
    ensures forall name :: LastStep(attributes, i, name)
  {
    assert attributes[..i + 1][..i] == attributes[..i];
  }

  lemma UpdatedText(p: Parser, n: Node, text: string)
    requires p.Valid() && n.children == p.Current().children
    ensures var q := p.(temporaryValue := text);
      q.Valid() && n.children == q.Current().children && Updated(q, n) == Updated(p, n).(temporaryValue := text)
  {
  }

  lemma HandledCases(codec: Codec, p: Parser, e: Event)
    requires p.Valid()
    ensures e.Start? ==> Handled(codec, p, e) == Started(p, e.name, e.attributes)
    ensures e.Chars? ==> Handled(codec, p, e) == GotText(p, e.text)
    ensures e.End? ==> Handled(codec, p, e) == Ended(codec, p, e.name)
  {
  }
}
