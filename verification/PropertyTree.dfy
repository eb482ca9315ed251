/** Property trees as values, and what the lookups of `src/propertysystem.cpp` find in them.

    A node is known by its position, the child numbers on the way to it from the root.
    PropertyPaths has the properties of runs, and PropertyNode the nodes on the heap. */
module PropertyTree {
  import opened Exceptions
  import opened Strings
  import Numbers

  /** A double, known by its representation. */
  datatype Double = Double(bits: bv64)

  datatype Value =
    | NoValue
    | IntegerValue(integer: int)
    | UnsignedValue(unsigned: int)
    | StringValue(text: string)
    | BooleanValue(boolean: bool)
    | FloatingValue(floating: Double)

  datatype Flags = Flags(readable: bool, writeable: bool, archive: bool)

  datatype Node = Node(name: string, index: int, value: Value, flags: Flags, children: seq<Node>)

  type Position = seq<nat>

  // --- Positions --------------------------------------------------------------------------

  predicate Exists(t: Node, at: Position)
    decreases |at|
  {
    at == [] || (at[0] < |t.children| && Exists(t.children[at[0]], at[1..]))
  }

  function NodeAt(t: Node, at: Position): (n: Node)
    requires Exists(t, at)
    decreases |at|
  {
    if at == [] then t else NodeAt(t.children[at[0]], at[1..])
  }

  function WithNode(t: Node, at: Position, n: Node): (t': Node)
    requires Exists(t, at)
    decreases |at|
  {
    if at == [] then n
    else t.(children := t.children[at[0] := WithNode(t.children[at[0]], at[1..], n)])
  }

  lemma {:induction false} WithNodeAt(t: Node, at: Position, n: Node)
    requires Exists(t, at)
    ensures Exists(WithNode(t, at, n), at) && NodeAt(WithNode(t, at, n), at) == n
    decreases |at|
  {
    if at != [] {
      WithNodeAt(t.children[at[0]], at[1..], n);
    }
  }

  lemma {:induction false} WithNodeTwice(t: Node, at: Position, m: Node, n: Node)
    requires Exists(t, at)
    ensures Exists(WithNode(t, at, m), at) && WithNode(WithNode(t, at, m), at, n) == WithNode(t, at, n)
    decreases |at|
  {
    WithNodeAt(t, at, m);
    if at != [] {
      WithNodeTwice(t.children[at[0]], at[1..], m, n);
    }
  }

  lemma {:induction false} SameNode(t: Node, at: Position)
    requires Exists(t, at)
    ensures WithNode(t, at, NodeAt(t, at)) == t
    decreases |at|
  {
    if at != [] {
      SameNode(t.children[at[0]], at[1..]);
    }
  }

  /** A child of the node at a position. */
  lemma {:induction false} ChildAt(t: Node, at: Position, k: nat)
    requires Exists(t, at) && k < |NodeAt(t, at).children|
    ensures Exists(t, at + [k]) && NodeAt(t, at + [k]) == NodeAt(t, at).children[k]
    decreases |at|
  {
    if at != [] {
      ChildAt(t.children[at[0]], at[1..], k);
      assert (at + [k])[1..] == at[1..] + [k];
    }
  }

  lemma {:induction false} WithChildAt(t: Node, at: Position, k: nat, n: Node)
    requires Exists(t, at) && k < |NodeAt(t, at).children|
    ensures Exists(t, at + [k])
    ensures var p := NodeAt(t, at);
      WithNode(t, at + [k], n) == WithNode(t, at, p.(children := p.children[k := n]))
    decreases |at|
  {
    ChildAt(t, at, k);
    if at == [] {
      assert (at + [k])[1..] == [];
    } else {
      WithChildAt(t.children[at[0]], at[1..], k, n);
      assert (at + [k])[1..] == at[1..] + [k];
    }
  }

  // --- Names and paths --------------------------------------------------------------------

  datatype Path = Path(head: string, tail: string)

  /** carCdrPath */
  function CarCdr(path: string): (p: Path)
    ensures path != "" ==> |p.tail| < |path|
  {
    var slash := Find(path, '/');
    if slash < |path| then Path(path[..slash], path[slash + 1..]) else Path(path, "")
  }

  datatype Indexed = Indexed(name: string, index: int)

  /** getAndRemoveIndexFromPropertyName; the length passed to erase is a position, so that more
      than the index may go. */
  function NameAndIndex(name: string): Indexed {
    var pos := Find(name, '[');
    if pos == |name| then Indexed(name, 0)
    else
      var end := Find(name, ']');
      var text := if pos < end < |name| then name[pos + 1..end] else name[pos + 1..];
      var rest := if end < |name| && pos + end < |name| then name[pos + end..] else "";
      Indexed(name[..pos] + rest, if Trim(text) == "last" then LAST else Numbers.Atoi(text))
  }

  const LAST: int := -1

  function MatchFrom(children: seq<Node>, name: string, index: int, i: nat): (k: nat)
    requires i <= |children|
    ensures i <= k <= |children|
    ensures k < |children| ==> children[k].name == name && children[k].index == index
    ensures forall j | i <= j < k :: !(children[j].name == name && children[j].index == index)
    decreases |children| - i
  {
    if i == |children| || (children[i].name == name && children[i].index == index) then i
    else MatchFrom(children, name, index, i + 1)
  }

  /** The last child of a name; |children| if there is none. */
  function LastNamed(children: seq<Node>, name: string): (k: nat)
    ensures k <= |children|
    ensures k < |children| ==> children[k].name == name
    ensures forall j | 0 <= j < |children| && (k < j || k == |children|) :: children[j].name != name
  {
    if children == [] then 0
    else if children[|children| - 1].name == name then |children| - 1
    else
      var k := LastNamed(children[..|children| - 1], name);
      if k == |children| - 1 then |children| else k
  }

  /** getPropertyByName: the number of the child that a name with or without an index selects. */
  function ChildByName(children: seq<Node>, name: string): (r: Option<nat>)
    ensures r.Some? ==> r.value < |children|
  {
    var n := NameAndIndex(name);
    var k := MatchFrom(children, n.name, n.index, 0);
    if k < |children| then Some(k)
    else
      var last := LastNamed(children, n.name);
      if n.index == LAST && last < |children| then Some(last) else None
  }

  /** getProperty */
  function Get(t: Node, path: string): (r: Option<Position>)
    ensures r.Some? ==> Exists(t, r.value)
    decreases |path|
  {
    if path == "" || path == "/" then Some([])
    else
      var p := CarCdr(path);
      match ChildByName(t.children, p.head)
      case None => None
      case Some(k) =>
        if p.tail == "" then Some([k]) else Under(k, Get(t.children[k], p.tail))
  }

  function Under(k: nat, at: Option<Position>): Option<Position> {
    match at
    case None => None
    case Some(a) => Some([k] + a)
  }

  // --- Adding and removing children -------------------------------------------------------

  function MaxIndex(children: seq<Node>, name: string): (m: int)
    ensures m >= -1
    ensures forall c | c in children && c.name == name :: c.index <= m
    ensures m == -1 || exists c :: c in children && c.name == name && c.index == m
  {
    if children == [] then -1
    else
      var m := MaxIndex(children[..|children| - 1], name);
      var c := children[|children| - 1];
      if c.name == name && c.index > m then c.index else m
  }

  lemma NoIndex(children: seq<Node>, name: string)
    requires forall i | 0 <= i < |children| :: children[i].name != name
    ensures MaxIndex(children, name) == -1
  {
  }

  lemma MaxIndexSnoc(children: seq<Node>, c: Node, name: string)
    ensures var m := MaxIndex(children, name);
      MaxIndex(children + [c], name) == if c.name == name && c.index > m then c.index else m
  {
    assert (children + [c])[..|children|] == children;
  }

  /** addChild: the index given to the constructor is replaced. */
  function WithChild(t: Node, c: Node): Node {
    t.(children := t.children + [c.(index := MaxIndex(t.children, c.name) + 1)])
  }

  function WithoutChild(t: Node, k: nat): Node
    requires k < |t.children|
  {
    t.(children := t.children[..k] + t.children[k + 1..])
  }

  function NewNode(name: string): Node {
    Node(name, 0, NoValue, Flags(true, true, false), [])
  }

  // --- createProperty ---------------------------------------------------------------------

  /** The tree afterwards, also when the call throws half-way, and the position of the node. */
  datatype Created = Created(tree: Node, at: Result<Position>)

  /** The name a new node gets: without a final plus and without its index. */
  function NewName(name: string): string {
    var stripped := if name != "" && name[|name| - 1] == '+' then name[..|name| - 1] else name;
    NameAndIndex(stripped).name
  }

  function Below(k: nat, at: Result<Position>): Result<Position> {
    var a :- at; Ok([k] + a)
  }

  function Create(t: Node, path: string): (r: Created)
    decreases |path|
  {
    if path == "" || path == "/" then Created(t, Ok([]))
    else
      var p := CarCdr(path);
      var next := Next(t, p.head);
      if next.Throw? then Created(t, Throw(next.error))
      else if p.tail == "" then Created(next.value.tree, Ok([next.value.child]))
      else
        var t', k := next.value.tree, next.value.child;
        var below := Create(t'.children[k], p.tail);
        Created(t'.(children := t'.children[k := below.tree]), Below(k, below.at))
  }

  datatype Stepped = Stepped(tree: Node, child: nat)

  /** The child a name selects, added if there is none. */
  function Next(t: Node, name: string): (r: Result<Stepped>)
    ensures r.Ok? ==> r.value.child < |r.value.tree.children|
  {
    match ChildByName(t.children, name)
    case Some(k) => Ok(Stepped(t, k))
    case None =>
      if NewName(name) == "" then Throw(RuntimeError)
      else Ok(Stepped(WithChild(t, NewNode(NewName(name))), |t.children|))
  }

  // --- Indices of siblings ----------------------------------------------------------------

  ghost predicate SiblingsDistinct(children: seq<Node>) {
    && (forall i | 0 <= i < |children| :: children[i].index >= 0)
    && forall i, j | 0 <= i < j < |children| ::
         children[i].name == children[j].name ==> children[i].index != children[j].index
  }

  /** No two siblings share name and index, anywhere in the tree. */
  ghost predicate Distinct(t: Node)
    decreases t
  {
    SiblingsDistinct(t.children) && forall i | 0 <= i < |t.children| :: Distinct(t.children[i])
  }

  function CountNamed(children: seq<Node>, name: string): nat {
    if children == [] then 0
    else CountNamed(children[..|children| - 1], name) + if children[|children| - 1].name == name then 1 else 0
  }

  ghost predicate SiblingsCompact(children: seq<Node>) {
    forall i | 0 <= i < |children| :: children[i].index == CountNamed(children[..i], children[i].name)
  }

  /** Same-named siblings carry the indices 0, 1, 2 and so on, in order. */
  ghost predicate Compact(t: Node)
    decreases t
  {
    SiblingsCompact(t.children) && forall i | 0 <= i < |t.children| :: Compact(t.children[i])
  }

  lemma NewSiblingDistinct(children: seq<Node>, c: Node)
    requires SiblingsDistinct(children) && c.index == MaxIndex(children, c.name) + 1
    ensures SiblingsDistinct(children + [c])
  {
    forall i | 0 <= i < |children| && children[i].name == c.name ensures children[i].index != c.index {
      assert children[i] in children;
    }
  }

  lemma {:induction false} CompactMax(children: seq<Node>, name: string)
    requires SiblingsCompact(children)
    ensures MaxIndex(children, name) + 1 == CountNamed(children, name)
  {
    if children != [] {
      var front, c := children[..|children| - 1], children[|children| - 1];
      assert forall i | 0 <= i < |front| :: front[i] == children[i] && front[..i] == children[..i];
      CompactMax(front, name);
    }
  }

  lemma NewSiblingCompact(children: seq<Node>, c: Node)
    requires SiblingsCompact(children) && c.index == MaxIndex(children, c.name) + 1
    ensures SiblingsCompact(children + [c])
  {
    CompactMax(children, c.name);
    var all := children + [c];
    forall i | 0 <= i < |all| ensures all[i].index == CountNamed(all[..i], all[i].name) {
      assert all[..i] == children[..i];
      assert children[..|children|] == children;
    }
  }

  lemma WithChildDistinct(t: Node, c: Node)
    requires Distinct(t) && Distinct(c)
    ensures Distinct(WithChild(t, c))
  {
    hide SiblingsDistinct, MaxIndex;
    var c' := c.(index := MaxIndex(t.children, c.name) + 1);
    NewSiblingDistinct(t.children, c');
    assert Distinct(c');
  }

  lemma WithChildCompact(t: Node, c: Node)
    requires Compact(t) && Compact(c)
    ensures Compact(WithChild(t, c))
  {
    hide SiblingsCompact, MaxIndex;
    var c' := c.(index := MaxIndex(t.children, c.name) + 1);
    NewSiblingCompact(t.children, c');
    assert Compact(c');
  }

  /** Replacing a child by one of the same name and index. */
  lemma ReplaceKeeps(t: Node, k: nat, c: Node)
    requires k < |t.children| && c.name == t.children[k].name && c.index == t.children[k].index
    ensures var t' := t.(children := t.children[k := c]);
      && (Distinct(t) && Distinct(c) ==> Distinct(t'))
      && (Compact(t) && Compact(c) ==> Compact(t'))
  {
    var t' := t.(children := t.children[k := c]);
    forall i, name | 0 <= i <= |t.children| ensures CountNamed(t'.children[..i], name) == CountNamed(t.children[..i], name) {
      SameNames(t.children[..i], t'.children[..i], name);
    }
  }

  lemma {:induction false} SameNames(a: seq<Node>, b: seq<Node>, name: string)
    requires |a| == |b| && forall i | 0 <= i < |a| :: a[i].name == b[i].name
    ensures CountNamed(a, name) == CountNamed(b, name)
  {
    if a != [] {
      SameNames(a[..|a| - 1], b[..|b| - 1], name);
    }
  }

  lemma {:induction false} CreateKeepsIndices(t: Node, path: string)
    ensures var t' := Create(t, path).tree;
      && t'.name == t.name && t'.index == t.index
      && (Distinct(t) ==> Distinct(t')) && (Compact(t) ==> Compact(t'))
    decreases |path|
  {
    if path != "" && path != "/" {
      var p := CarCdr(path);
      var next := Next(t, p.head);
      NextKeepsIndices(t, p.head);
      hide Next, Distinct, Compact;
      if next.Ok? && p.tail != "" {
        var t', k := next.value.tree, next.value.child;
        CreateKeepsIndices(t'.children[k], p.tail);
        ReplaceKeeps(t', k, Create(t'.children[k], p.tail).tree);
      }
    }
  }

  lemma NextKeepsIndices(t: Node, name: string)
    ensures var next := Next(t, name);
      next.Ok? ==>
        var t' := next.value.tree;
        t'.name == t.name && t'.index == t.index && (Distinct(t) ==> Distinct(t')) && (Compact(t) ==> Compact(t'))
  {
    hide Distinct, Compact, NewName;
    var n := NewNode(NewName(name));
    LeafKeeps(n);
    if Distinct(t) {
      WithChildDistinct(t, n);
    }
    if Compact(t) {
      WithChildCompact(t, n);
    }
  }

  lemma LeafKeeps(n: Node)
    requires n.children == []
    ensures Distinct(n) && Compact(n)
  {
  }

  lemma WithoutChildDistinct(t: Node, k: nat)
    requires k < |t.children| && Distinct(t)
    ensures Distinct(WithoutChild(t, k))
  {
  }
}
