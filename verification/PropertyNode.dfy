/** The nodes of `src/propertysystem.cpp` on the heap, linked to children and parent. */
module PropertyNode {
  import opened Exceptions
  import opened PropertyTree
  import opened Strings

  class TreeNode {
    var name: string
    var index: int
    var value: Value
    var flags: Flags
    var children: seq<TreeNode>
    var parent: TreeNode?
    ghost var repr: set<TreeNode>   // this node and all below it

    /** The node and what is below it has the value t; no node is shared. */
    ghost predicate Shows(t: Node)
      reads this, repr
      decreases t, 0
    {
      && this in repr
      && name == t.name && index == t.index && value == t.value && flags == t.flags
      && |children| == |t.children|
      && (forall i | 0 <= i < |children| :: Holds(children[i], t.children[i]))
      && forall i, j | 0 <= i < j < |children| :: children[i].repr !! children[j].repr
    }

    ghost predicate Holds(child: TreeNode, c: Node)
      reads this, repr
      decreases c, 1
    {
      && child in repr && child.repr <= repr && this !in child.repr && child.parent == this
      && child.Shows(c)
    }

    lemma ChildFields(t: Node)
      requires Shows(t)
      ensures |children| == |t.children|
      ensures forall i | 0 <= i < |children| ::
                children[i].name == t.children[i].name && children[i].index == t.children[i].index
    {
      forall i | 0 <= i < |children|
        ensures children[i].name == t.children[i].name && children[i].index == t.children[i].index
      {
        assert Holds(children[i], t.children[i]);
        children[i].OwnFields(t.children[i]);
      }
    }

    lemma OwnFields(t: Node)
      requires Shows(t)
      ensures this in repr && name == t.name && index == t.index && value == t.value && flags == t.flags
    {
    }

    /** The node n is at a position below this one. */
    ghost predicate Reaches(at: Position, n: TreeNode)
      reads this, repr
      decreases |at|
    {
      if at == [] then n == this
      else
        && at[0] < |children|
        && children[at[0]] in repr && children[at[0]].repr <= repr && children[at[0]].Reaches(at[1..], n)
    }

    constructor (name: string)
      ensures Shows(NewNode(name)) && repr == {this} && parent == null
    {
      this.name, index, value, flags, children, parent := name, 0, NoValue, Flags(true, true, false), [], null;
      repr := {this};
    }

    method Count(propertyName: string, ghost t: Node) returns (result: nat)
      requires Shows(t)
      ensures result == CountNamed(t.children, propertyName)
    {
      ChildFields(t);
      hide Shows;
      result := 0;
      var i := 0;
      while i < |children|
        invariant 0 <= i <= |children| && result == CountNamed(t.children[..i], propertyName)
      {
        assert t.children[..i + 1][..i] == t.children[..i];
        if children[i].name == propertyName {
          result := result + 1;
        }
        i := i + 1;
      }
      assert t.children[..i] == t.children;
    }

    method GetPropertyByName(name: string, ghost t: Node) returns (r: TreeNode?)
      requires Shows(t)
      ensures match ChildByName(t.children, name)
              case None => r == null
              case Some(k) => r == children[k]
    {
      hide NameAndIndex, Shows;
      var n := NameAndIndex(name);
      ChildFields(t);
      var lastMatch, i := |children|, 0;
      while i < |children|
        invariant 0 <= i <= |children|
        invariant MatchFrom(t.children, n.name, n.index, 0) == MatchFrom(t.children, n.name, n.index, i)
        invariant lastMatch == if LastNamed(t.children[..i], n.name) < i then LastNamed(t.children[..i], n.name)
                               else |children|
      {
        assert t.children[..i + 1][..i] == t.children[..i];
        if children[i].name == n.name {
          if children[i].index == n.index {
            return children[i];
          }
          lastMatch := i;
        }
        i := i + 1;
      }
      assert t.children[..i] == t.children;
      if n.index == LAST && lastMatch < |children| {
        return children[lastMatch];
      }
      return null;
    }

    method GetProperty(path: string, ghost t: Node) returns (r: TreeNode?)
      requires Shows(t)
      ensures match Get(t, path)
              case None => r == null
              case Some(at) => r != null && Reaches(at, r)
      decreases |path|
    {
      if path == "" || path == "/" {
        return this;
      }
      var p := CarCdr(path);
      hide CarCdr, ChildByName;
      var child := GetPropertyByName(p.head, t);
      if child == null || p.tail == "" {
        return child;
      }
      r := child.GetProperty(p.tail, t.children[ChildByName(t.children, p.head).value]);
    }

    /** The greatest index of the children of a name. */
    method GreatestIndex(childName: string, ghost t: Node) returns (maxIndex: int)
      requires Shows(t)
      ensures maxIndex == MaxIndex(t.children, childName)
    {
      hide Shows, MaxIndex;
      ChildFields(t);
      maxIndex := -1;
      var i := 0;
      NoIndex(t.children[..0], childName);
      while i < |children|
        invariant 0 <= i <= |children| && maxIndex == MaxIndex(t.children[..i], childName)
      {
        assert t.children[..i + 1] == t.children[..i] + [t.children[i]];
        MaxIndexSnoc(t.children[..i], t.children[i], childName);
        if children[i].name == childName && children[i].index > maxIndex {
          maxIndex := children[i].index;
        }
        i := i + 1;
      }
      assert t.children[..i] == t.children;
    }

    method Attach(newParent: TreeNode?, newIndex: int, ghost t: Node)
      requires Shows(t)
      modifies `parent, `index
      ensures parent == newParent && Shows(t.(index := newIndex))
    {
      parent := newParent;
      index := newIndex;
      forall i | 0 <= i < |children| ensures Holds(children[i], t.children[i]) {
        assert old(Holds(children[i], t.children[i]));
        assert children[i].Shows(t.children[i]);
      }
    }

    /** addChild of a node that has no parent. */
    method AddChild(child: TreeNode, ghost t: Node, ghost c: Node)
      requires Shows(t) && child.Shows(c) && child.repr !! repr && child.parent == null
      modifies this, child
      ensures Shows(WithChild(t, c)) && repr == old(repr) + old(child.repr)
      ensures children == old(children) + [child] && child.repr == old(child.repr)
      ensures parent == old(parent)
    {
      hide MaxIndex;
      var maxIndex := GreatestIndex(child.name, t);
      ghost var c' := c.(index := maxIndex + 1);
      child.Attach(this, maxIndex + 1, c);
      assert this !in child.repr && child in child.repr;
      children := children + [child];
      repr := repr + child.repr;
      assert child.Shows(c');
      forall i | 0 <= i < |t.children| ensures Holds(children[i], t.children[i]) {
        assert children[i] == old(children[i]) && old(Holds(children[i], t.children[i]));
        assert children[i].Shows(t.children[i]);
      }
      assert Holds(child, c');
    }

    /** removeChild of a child of this node. */
    method RemoveChild(child: TreeNode, ghost t: Node) returns (ghost k: nat)
      requires Shows(t) && child in children
      modifies this, child
      ensures k < |old(children)| && old(children)[k] == child
      ensures Shows(WithoutChild(t, k)) && repr == old(repr) - old(child.repr)
      ensures child.Shows(t.children[k]) && child.parent == null && parent == old(parent)
    {
      var i := 0;
      while children[i] != child
        invariant 0 <= i < |children| && child in children[i..]
        decreases |children| - i
      {
        i := i + 1;
      }
      k := i;
      ghost var c := t.children[k];
      assert Holds(child, c);
      child.Attach(null, child.index, c);
      children := children[..i] + children[i + 1..];
      repr := repr - child.repr;
      assert child.Shows(c);
      forall j | 0 <= j < |children| ensures Holds(children[j], WithoutChild(t, k).children[j]) {
        var m := if j < k then j else j + 1;
        assert children[j] == old(children[m]) && old(Holds(children[m], t.children[m]));
        assert children[j].Shows(t.children[m]);
      }
    }

    /** The child a name selects, added if there is none. */
    method NextChild(childName: string, ghost t: Node) returns (r: Result<TreeNode>)
      requires Shows(t)
      modifies this
      ensures old(repr) <= repr && fresh(repr - old(repr)) && parent == old(parent)
      ensures match Next(t, childName)
              case Ok(next) => Shows(next.tree) && r == Ok(children[next.child])
              case Throw(e) => Shows(t) && r == Throw(e)
    {
      hide NameAndIndex, ChildByName, WithChild;
      var child := GetPropertyByName(childName, t);
      if child != null {
        return Ok(child);
      }
      var nextOne := childName;
      if nextOne != "" && nextOne[|nextOne| - 1] == '+' {
        nextOne := nextOne[..|nextOne| - 1];
      }
      nextOne := NameAndIndex(nextOne).name;
      if nextOne == "" {
        return Throw(RuntimeError);
      }
      child := new TreeNode(nextOne);
      AddChild(child, t, NewNode(nextOne));
      assert |children| == |t.children| + 1;
      return Ok(child);
    }

    method CreateProperty(path: string, ghost t: Node) returns (r: Result<TreeNode>)
      requires Shows(t)
      modifies repr
      ensures Shows(Create(t, path).tree)
      ensures old(repr) <= repr && fresh(repr - old(repr)) && parent == old(parent)
      ensures match Create(t, path).at
              case Ok(at) => r.Ok? && Reaches(at, r.value)
              case Throw(e) => r == Throw(e)
      decreases |path|, 0
    {
      if path == "" || path == "/" {
        return Ok(this);
      }
      var p := CarCdr(path);
      hide CarCdr, NewName, NameAndIndex, ChildByName;
      ghost var next := Next(t, p.head);
      hide Next;
      var child :- NextChild(p.head, t);
      if p.tail == "" {
        return Ok(child);
      }
      r := CreateBelow(child, p.tail, next.value.tree, next.value.child);
    }

    /** createProperty goes on at a child. */
    method CreateBelow(child: TreeNode, path: string, ghost t: Node, ghost k: nat) returns (r: Result<TreeNode>)
      requires Shows(t) && k < |children| && children[k] == child
      modifies repr
      ensures Shows(t.(children := t.children[k := Create(t.children[k], path).tree]))
      ensures old(repr) <= repr && fresh(repr - old(repr)) && parent == old(parent)
      ensures match Create(t.children[k], path).at
              case Ok(at) => r.Ok? && Reaches([k] + at, r.value)
              case Throw(e) => r == Throw(e)
      decreases |path|, 1
    {
      ghost var below := Create(t.children[k], path);
      hide Create;
      assert Holds(child, t.children[k]);
      forall j | 0 <= j < |children| && j != k
        ensures children[j].repr !! child.repr && children[j] in children[j].repr
      {
        assert Holds(children[j], t.children[j]);
        children[j].OwnFields(t.children[j]);
      }
      r := child.CreateProperty(path, t.children[k]);
      forall j | 0 <= j < |children| && j != k
        ensures children[j].repr == old(children[j].repr) && Holds(children[j], t.children[j])
      {
        assert old(Holds(children[j], t.children[j]));
        assert children[j].Shows(t.children[j]);
      }
      Regrow(child, k, t, below.tree);
      if below.at.Ok? {
        assert child.Reaches(below.at.value, r.value);
        assert ([k] + below.at.value)[1..] == below.at.value;
      }
    }

    /** Takes the nodes that have come below a child into the footprint. */
    ghost method Regrow(child: TreeNode, k: nat, t: Node, c: Node)
      requires this in repr && |children| == |t.children| && k < |children| && children[k] == child
      requires name == t.name && index == t.index && value == t.value && flags == t.flags
      requires child in repr && this !in child.repr && child.parent == this && child.Shows(c)
      requires forall j | 0 <= j < |children| && j != k ::
        Holds(children[j], t.children[j]) && children[j].repr !! child.repr
      requires forall i, j | 0 <= i < j < |children| && i != k && j != k :: children[i].repr !! children[j].repr
      modifies `repr
      ensures repr == old(repr) + child.repr && Shows(t.(children := t.children[k := c]))
    {
      repr := repr + child.repr;
      assert child.Shows(c);
      forall j | 0 <= j < |children| && j != k ensures Holds(children[j], t.children[j]) {
        assert old(Holds(children[j], t.children[j]));
        assert children[j].Shows(t.children[j]);
      }
      ghost var t' := t.(children := t.children[k := c]);
      assert Holds(child, c);
      assert forall j | 0 <= j < |children| :: Holds(children[j], t'.children[j]);
    }
  }
}
