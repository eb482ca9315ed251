/** The element tree that `src/protobufjson.cpp` builds from the parts of a property query. */
module ElementTree {
  import opened PropertyQuery
  import opened QueryText

  /** An element as a value. */
  datatype Element = Element(name: string, value: string, elements: seq<Element>)

  // --- What setupMessage adds -------------------------------------------------------------

  function Leaves(properties: seq<KeyValue>): (r: seq<Element>)
    ensures |r| == |properties|
    ensures forall i | 0 <= i < |r| :: r[i] == Element(properties[i].name, properties[i].value, [])
  {
    if properties == [] then []
    else [Element(properties[0].name, properties[0].value, [])] + Leaves(properties[1..])
  }

  /** The elements added under a root: a part goes under the one before it if it is a child. */
  function Forest(parts: seq<Part>): seq<Element> {
    if parts == [] then []
    else
      var own, rest := Leaves(parts[0].properties), Forest(parts[1..]);
      if |parts| > 1 && parts[1].child then [Element(parts[0].name, "", own + rest)]
      else [Element(parts[0].name, "", own)] + rest
  }

  // --- The code ---------------------------------------------------------------------------

  class PropertyElement {
    var name: string
    var value: string
    var elements: seq<PropertyElement>

    constructor (name: string, value: string)
      ensures this.name == name && this.value == value && elements == []
    {
      this.name := name;
      this.value := value;
      elements := [];
    }
  }

  /** The object e, with everything below it in the region, has the value t. */
  ghost predicate Shows(e: PropertyElement, t: Element, region: set<PropertyElement>)
    reads region
    decreases t
  {
    && e in region && e.name == t.name && e.value == t.value && |e.elements| == |t.elements|
    && forall i | 0 <= i < |t.elements| :: Shows(e.elements[i], t.elements[i], region)
  }

  ghost predicate AllShow(es: seq<PropertyElement>, ts: seq<Element>, region: set<PropertyElement>)
    reads region
  {
    |es| == |ts| && forall i | 0 <= i < |ts| :: Shows(es[i], ts[i], region)
  }

  lemma ShowsInLarger(e: PropertyElement, t: Element, region: set<PropertyElement>, larger: set<PropertyElement>)
    requires Shows(e, t, region) && region <= larger
    ensures Shows(e, t, larger)
    decreases t
  {
  }

  lemma AllShowInLarger(es: seq<PropertyElement>, ts: seq<Element>, region: set<PropertyElement>,
                        larger: set<PropertyElement>)
    requires AllShow(es, ts, region) && region <= larger
    ensures AllShow(es, ts, larger)
  {
    forall i | 0 <= i < |ts| ensures Shows(es[i], ts[i], larger) {
      ShowsInLarger(es[i], ts[i], region, larger);
    }
  }

  lemma AllShowConcat(es: seq<PropertyElement>, ts: seq<Element>, es': seq<PropertyElement>, ts': seq<Element>,
                      region: set<PropertyElement>, region': set<PropertyElement>)
    requires AllShow(es, ts, region) && AllShow(es', ts', region')
    ensures AllShow(es + es', ts + ts', region + region')
  {
    AllShowInLarger(es, ts, region, region + region');
    AllShowInLarger(es', ts', region', region + region');
  }

  /** Adds an element for each property; the values keep their text. */
  method AddProperties(root: PropertyElement, properties: seq<KeyValue>) returns (ghost region: set<PropertyElement>)
    modifies root
    ensures fresh(region) && root.name == old(root.name) && root.value == old(root.value)
    ensures old(root.elements) <= root.elements
    ensures AllShow(root.elements[|old(root.elements)|..], Leaves(properties), region)
  {
    hide Shows, AllShow, Leaves;
    region := {};
    NoneShow();
    var i, n := 0, |root.elements|;
    assert root.elements[n..] == [] && Leaves(properties)[..i] == [];
    while i < |properties|
      invariant 0 <= i <= |properties| && fresh(region) && root !in region
      invariant root.name == old(root.name) && root.value == old(root.value)
      invariant old(root.elements) <= root.elements && |root.elements| == n + i
      invariant AllShow(root.elements[n..], Leaves(properties)[..i], region)
    {
      var element := new PropertyElement(properties[i].name, properties[i].value);
      ghost var before, leaves := root.elements[n..], Leaves(properties);
      root.elements := root.elements + [element];
      NoneShow();
      NodeShows(element, [], {});
      assert {element} + {} == {element};
      AllShowConcat(before, leaves[..i], [element], [leaves[i]], region, {element});
      assert leaves[i] == Element(element.name, element.value, []);
      assert root.elements[n..] == before + [element] && leaves[..i + 1] == leaves[..i] + [leaves[i]];
      region := region + {element};
      i := i + 1;
    }
    assert Leaves(properties)[..i] == Leaves(properties);
  }

  method SetupMessage(root: PropertyElement, parts: seq<Part>) returns (ghost region: set<PropertyElement>)
    modifies root
    ensures fresh(region) && root.name == old(root.name) && root.value == old(root.value)
    ensures old(root.elements) <= root.elements
    ensures AllShow(root.elements[|old(root.elements)|..], Forest(parts), region)
    decreases |parts|
  {
    hide Shows, AllShow, Forest, Leaves;
    region := {};
    ForestCases(parts);
    if |parts| == 0 {
      NoneShow();
      assert root.elements[|old(root.elements)|..] == [];
      return;
    }
    var newProp := new PropertyElement(parts[0].name, "");
    ghost var n, own := |root.elements|, Leaves(parts[0].properties);
    root.elements := root.elements + [newProp];
    ghost var leaves := AddProperties(newProp, parts[0].properties);
    assert newProp.elements[0..] == newProp.elements;
    var rest := parts[1..];
    if |rest| > 0 && rest[0].child {
      ghost var mine := newProp.elements;
      ghost var below := SetupMessage(newProp, rest);
      ghost var added := newProp.elements[|mine|..];
      assert newProp.elements == mine + added;
      AllShowConcat(mine, own, added, Forest(rest), leaves, below);
      region := {newProp} + (leaves + below);
      NodeShows(newProp, own + Forest(rest), leaves + below);
      assert root.elements[n..] == [newProp];
    } else {
      NodeShows(newProp, own, leaves);
      ghost var beside := SetupMessage(root, rest);
      region := {newProp} + leaves + beside;
      AllShowConcat([newProp], [Element(newProp.name, newProp.value, own)], root.elements[n + 1..], Forest(rest),
                    {newProp} + leaves, beside);
      assert root.elements[n..] == [newProp] + root.elements[n + 1..];
    }
  }

  lemma ForestCases(parts: seq<Part>)
    ensures parts == [] ==> Forest(parts) == []
    ensures parts != [] ==>
      var own, rest := Leaves(parts[0].properties), Forest(parts[1..]);
      Forest(parts) == if |parts| > 1 && parts[1].child then [Element(parts[0].name, "", own + rest)]
                       else [Element(parts[0].name, "", own)] + rest
  {
  }

  lemma NoneShow()
    ensures AllShow([], [], {})
  {
  }

  lemma NodeShows(e: PropertyElement, ts: seq<Element>, region: set<PropertyElement>)
    requires AllShow(e.elements, ts, region)
    ensures AllShow([e], [Element(e.name, e.value, ts)], {e} + region)
  {
    AllShowInLarger(e.elements, ts, region, {e} + region);
  }

  // --- Shape of the tree ------------------------------------------------------------------

  /** The keys of a component side by side, the next component under the last of them. */
  function Nested(q: seq<Component>): seq<Element>
    requires forall i | 0 <= i < |q| :: q[i] != []
  {
    if q == [] then [] else NestedUnder(q[0], Nested(q[1..]))
  }

  function NestedUnder(c: Component, below: seq<Element>): seq<Element>
    requires c != []
  {
    if |c| == 1 then [Element(c[0].name, "", Leaves(c[0].properties) + below)]
    else [Element(c[0].name, "", Leaves(c[0].properties))] + NestedUnder(c[1..], below)
  }

  /** A component's parts followed by those of the next component. */
  lemma {:induction false} ComponentForest(c: Component, child: bool, rest: seq<Part>)
    requires c != [] && (rest != [] ==> rest[0].child)
    ensures Forest(FlattenComponent(c, child) + rest) == NestedUnder(c, Forest(rest))
    decreases |c|
  {
    hide Leaves;
    var part, tail := Part(c[0].name, c[0].properties, child), FlattenComponent(c[1..], false);
    var parts := FlattenComponent(c, child) + rest;
    assert parts[0] == part && parts[1..] == tail + rest;
    if |c| == 1 {
      assert tail + rest == rest;
      if rest == [] {
        assert Leaves(part.properties) + [] == Leaves(part.properties);
        assert [Element(part.name, "", Leaves(part.properties))] + [] == [Element(part.name, "", Leaves(part.properties))];
      }
    } else {
      assert !parts[1].child;
      ComponentForest(c[1..], false, rest);
    }
  }

  /** Each component nests under the last key of the one before it. */
  lemma {:induction false} ForestNests(q: seq<Component>)
    requires forall i | 0 <= i < |q| :: q[i] != []
    ensures Forest(Flatten(q)) == Nested(q)
  {
    if q != [] {
      ForestNests(q[1..]);
      ComponentForest(q[0], true, Flatten(q[1..]));
    }
  }

  // --- Every part and property once, in order ---------------------------------------------

  /** Names and values in preorder. */
  function Preorder(ts: seq<Element>): seq<KeyValue>
  {
    if ts == [] then []
    else [KeyValue(ts[0].name, ts[0].value)] + Preorder(ts[0].elements) + Preorder(ts[1..])
  }

  /** The parts and their properties in the order of the query. */
  function Listed(parts: seq<Part>): seq<KeyValue> {
    if parts == [] then []
    else [KeyValue(parts[0].name, "")] + parts[0].properties + Listed(parts[1..])
  }

  lemma {:induction false} PreorderConcat(a: seq<Element>, b: seq<Element>)
    ensures Preorder(a + b) == Preorder(a) + Preorder(b)
  {
    if a == [] {
      assert a + b == b;
    } else {
      assert (a + b)[1..] == a[1..] + b;
      PreorderConcat(a[1..], b);
    }
  }

  lemma {:induction false} PreorderLeaves(properties: seq<KeyValue>)
    ensures Preorder(Leaves(properties)) == properties
  {
    if properties != [] {
      PreorderLeaves(properties[1..]);
      assert Leaves(properties)[1..] == Leaves(properties[1..]);
    }
  }

  /** Whatever the child flags, each part and each property appears exactly once, in preorder;
      the flag of the first part does not matter. */
  lemma {:induction false} ForestPreorder(parts: seq<Part>)
    ensures Preorder(Forest(parts)) == Listed(parts)
  {
    if parts != [] {
      ForestPreorder(parts[1..]);
      var own, rest := Leaves(parts[0].properties), Forest(parts[1..]);
      PreorderLeaves(parts[0].properties);
      PreorderConcat(own, rest);
      if |parts| > 1 && parts[1].child {
      } else {
        PreorderConcat([Element(parts[0].name, "", own)], rest);
      }
    }
  }

  lemma FirstFlagIgnored(parts: seq<Part>, flag: bool)
    requires parts != []
    ensures Forest(parts) == Forest([parts[0].(child := flag)] + parts[1..])
  {
  }
}
