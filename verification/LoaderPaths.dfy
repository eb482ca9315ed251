/** Paths in the names of a document: where the loader of `src/property-parser.cpp` goes on them. */
module LoaderPaths {
  import opened Exceptions
  import opened PropertySax
  import opened PropertyTree
  import opened Strings
  import P = PropertyPaths

  /** Names without index and plus, and none behind a last slash. */
  predicate PlainPath(path: string) {
    P.PlainPath(path) && path[|path| - 1] != '/'
  }

  /** A node with another in place of one below it. */
  lemma Replaced(root: Node, at: Position, t: Node, k: nat, n: Node)
    requires Exists(root, at) && k < |t.children|
    ensures Exists(WithNode(root, at, t), at + [k])
    ensures NodeAt(WithNode(root, at, t), at + [k]) == t.children[k]
    ensures WithNode(WithNode(root, at, t), at + [k], n) == WithNode(root, at, t.(children := t.children[k := n]))
  {
    WithNodeAt(root, at, t);
    ChildAt(WithNode(root, at, t), at, k);
    WithChildAt(WithNode(root, at, t), at, k, n);
    WithNodeTwice(root, at, t, t.(children := t.children[k := n]));
  }

  /** One step: as Next of createProperty. */
  lemma StepCreates(root: Node, current: Position, at: Position, part: string)
    requires Exists(root, current) && Exists(root, at) && P.PlainName(part)
    ensures var next := Next(NodeAt(root, at), part);
      && next.Ok?
      && StepTo(root, 2, current, at, part) == Walked(WithNode(root, at, next.value.tree), at + [next.value.child])
  {
    P.PlainNameAlone(part);
    SameNode(root, at);
    hide ChildByName, WithChild, Exists, NodeAt, WithNode, NewName;
  }

  lemma PartPlain(path: string)
    requires PlainPath(path)
    ensures var p := CarCdr(path);
      && path[..Find(path, '/')] == p.head == PartName(p.head) && P.PlainName(p.head)
      && (Find(path, '/') < |path| ==> path[Find(path, '/') + 1..] == p.tail && PlainPath(p.tail))
      && (Find(path, '/') == |path| ==> p.tail == "") && (Find(path, '/') < |path| ==> p.tail != "")
  {
    var slash := Find(path, '/');
    FindUnique(CarCdr(path).head, '[', 0, |CarCdr(path).head|);
    if slash < |path| {
      assert slash != |path| - 1;
      assert path[|path| - 1] == path[slash + 1..][|path[slash + 1..]| - 1];
    }
  }

  lemma CreateSteps(n: Node, path: string)
    requires path != "" && path != "/" && Next(n, CarCdr(path).head).Ok?
    ensures var p, next := CarCdr(path), Next(n, CarCdr(path).head).value;
      Create(n, path)
      == if p.tail == "" then Created(next.tree, Ok([next.child]))
         else
           var below := Create(next.tree.children[next.child], p.tail);
           Created(next.tree.(children := next.tree.children[next.child := below.tree]), Below(next.child, below.at))
  {
    hide CarCdr, Next;
  }

  lemma WalkSteps(root: Node, level: int, current: Position, at: Position, path: string, part: string)
    requires Exists(root, current) && Exists(root, at) && PartName(path[..Find(path, '/')]) == part
    ensures var w := StepTo(root, level, current, at, part);
      Walk(root, level, current, at, path)
      == if Find(path, '/') < |path| then Walk(w.root, level, current, w.at, path[Find(path, '/') + 1..]) else w
  {
    hide StepTo, PartName, Exists, NodeAt, Find;
  }

  /** Below the outermost level a plain path leads where createProperty leads, and what it adds on the
      way is what createProperty adds. */
  lemma {:induction false} WalkCreates(root: Node, current: Position, at: Position, path: string)
    requires Exists(root, current) && Exists(root, at) && PlainPath(path)
    ensures var c := Create(NodeAt(root, at), path);
      && c.at.Ok?
      && Walk(root, 2, current, at, path) == Walked(WithNode(root, at, c.tree), at + c.at.value)
    decreases |path|
  {
    hide CarCdr, Next, StepTo, PartName, Create, WithNode, Exists, NodeAt, Walk, Find, PlainPath, P.PlainPath,
         P.PlainName;
    PlainNotRoot(path);
    PartPlain(path);
    var slash, p, n := Find(path, '/'), CarCdr(path), NodeAt(root, at);
    WalkSteps(root, 2, current, at, path, p.head);
    StepCreates(root, current, at, p.head);
    CreateSteps(n, path);
    if slash < |path| {
      var next := Next(n, p.head).value;
      var w := StepTo(root, 2, current, at, p.head);
      Replaced(root, at, next.tree, next.child, next.tree.children[next.child]);
      WalkCreates(w.root, current, w.at, p.tail);
      var below := Create(next.tree.children[next.child], p.tail);
      Replaced(root, at, next.tree, next.child, below.tree);
      assert at + [next.child] + below.at.value == at + ([next.child] + below.at.value);
    }
  }

  lemma PlainNotRoot(path: string)
    requires PlainPath(path)
    ensures path != "" && path != "/"
  {
  }

  /** What follows a bracket in a name is disregarded, whichever sibling it asks for. */
  lemma WalkDropsIndex(root: Node, level: int, current: Position, at: Position, name: string, index: string)
    requires Exists(root, current) && Exists(root, at) && '/' !in name && '[' !in name && '/' !in index
    ensures Walk(root, level, current, at, name + ("[" + index)) == Walk(root, level, current, at, name)
  {
    hide StepTo, PartName, Exists, NodeAt, Walk;
    IndexDropped(name, index);
    WalkSteps(root, level, current, at, name + ("[" + index), name);
    WalkSteps(root, level, current, at, name, name);
  }

  lemma IndexDropped(name: string, index: string)
    requires '/' !in name && '[' !in name && '/' !in index
    ensures var s := name + ("[" + index);
      Find(s, '/') == |s| && Find(name, '/') == |name| && s[..|s|] == s && name[..|name|] == name
      && PartName(s) == name == PartName(name)
  {
    var s := name + ("[" + index);
    FindUnique(s, '[', 0, |name|);
    FindUnique(name, '[', 0, |name|);
    assert s[..|name|] == name;
  }

  /** On the outermost level a part that is the name of the current node leads back to that node. */
  lemma OuterReuses(root: Node, at: Position, name: string, tail: string)
    requires Exists(root, at) && '/' !in name && '[' !in name && NodeAt(root, at).name == name
    ensures Walk(root, 1, at, at, name) == Walked(root, at)
    ensures forall from | Exists(root, from) ::
      Walk(root, 1, at, from, name + ("/" + tail)) == Walk(root, 1, at, at, tail)
  {
    var s := name + ("/" + tail);
    FindUnique(s, '/', 0, |name|);
    FindUnique(name, '[', 0, |name|);
    assert s[..|name|] == name && s[|name| + 1..] == tail && name[..|name|] == name;
    assert PartName(name) == name;
    hide PartName;
  }
}
