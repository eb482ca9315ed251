/** The two-sided registration of listeners at nodes, `src/propertysystem.cpp`. */
module Listeners {
  import opened Lists

  /** All but the occurrences of x. */
  function Without<T(==)>(s: seq<T>, x: T): seq<T> {
    if s == [] then [] else (if s[0] == x then [] else [s[0]]) + Without(s[1..], x)
  }

  function Count<T(==)>(s: seq<T>, x: T): nat {
    if s == [] then 0 else (if s[0] == x then 1 else 0) + Count(s[1..], x)
  }

  lemma {:induction false} RemoveFirstCount<T>(s: seq<T>, x: T, y: T)
    ensures Count(RemoveFirst(s, x), y) == if x == y && x in s then Count(s, y) - 1 else Count(s, y)
    ensures x in s <==> Count(s, x) > 0
    ensures forall z | z in RemoveFirst(s, x) :: z in s
  {
    if s != [] {
      RemoveFirstCount(s[1..], x, y);
    }
  }

  lemma RemoveFirstLength<T>(s: seq<T>, x: T)
    ensures |RemoveFirst(s, x)| == if x in s then |s| - 1 else |s|
    ensures x !in s ==> RemoveFirst(s, x) == s
  {
  }

  lemma {:induction false} CountSnoc<T>(s: seq<T>, x: T, y: T)
    ensures Count(s + [x], y) == Count(s, y) + if x == y then 1 else 0
  {
    if s == [] {
      assert s + [x] == [x];
      assert [x][1..] == [];
    } else {
      assert (s + [x])[1..] == s[1..] + [x];
      CountSnoc(s[1..], x, y);
    }
  }

  lemma {:induction false} WithoutRemoved<T>(s: seq<T>, x: T)
    ensures Without(RemoveFirst(s, x), x) == Without(s, x)
    ensures x !in s ==> Without(s, x) == s
  {
    if s != [] {
      WithoutRemoved(s[1..], x);
      assert s == [s[0]] + s[1..];
    }
  }

  class Node {
    var listeners: seq<Listener>
    var hasList: bool   // m_Listeners is not NULL; it is created for the first listener

    constructor ()
      ensures listeners == [] && !hasList
    {
      listeners, hasList := [], false;
    }

    method AddListener(l: Listener, ghost nodes: set<Node>, ghost ls: set<Listener>)
      requires this in nodes && l in ls && Mirrored(nodes, ls)
      modifies this, l
      ensures Mirrored(nodes, ls)
      ensures hasList && listeners == old(listeners) + [l] && l.properties == old(l.properties) + [this]
    {
      l.RegisterProperty(this);
      if !hasList {
        hasList := true;
      }
      listeners := listeners + [l];
      forall n, k | n in nodes && k in ls ensures Count(n.listeners, k) == Count(k.properties, n) {
        assert old(Count(n.listeners, k) == Count(k.properties, n));
        CountSnoc(old(listeners), l, k);
        CountSnoc(old(l.properties), this, n);
      }
    }

    /** The list is searched without a look whether there is one. */
    method RemoveListener(l: Listener, ghost nodes: set<Node>, ghost ls: set<Listener>)
      requires this in nodes && l in ls && Mirrored(nodes, ls) && hasList
      modifies this, l
      ensures Mirrored(nodes, ls) && hasList
      ensures listeners == RemoveFirst(old(listeners), l)
      ensures l.properties == if l in old(listeners) then RemoveFirst(old(l.properties), this) else old(l.properties)
    {
      hide RemoveFirst, Mirrored;
      if l in listeners {
        Unlink(l, nodes, ls);
      } else {
        RemoveFirstLength(listeners, l);
      }
    }

    /** Takes one registration from both sides. */
    method Unlink(l: Listener, ghost nodes: set<Node>, ghost ls: set<Listener>)
      requires this in nodes && l in ls && Mirrored(nodes, ls) && l in listeners
      modifies this, l
      ensures Mirrored(nodes, ls) && hasList == old(hasList)
      ensures listeners == RemoveFirst(old(listeners), l) && l.properties == RemoveFirst(old(l.properties), this)
    {
      hide RemoveFirst, Count;
      listeners := RemoveFirst(listeners, l);
      l.UnregisterProperty(this);
      RemoveFirstCount(old(listeners), l, l);
      RemoveFirstCount(old(l.properties), this, this);
      forall n, k | n in nodes && k in ls ensures Count(n.listeners, k) == Count(k.properties, n) {
        assert old(Count(n.listeners, k) == Count(k.properties, n));
        assert old(Count(listeners, l) == Count(l.properties, this));
        RemoveFirstCount(old(listeners), l, k);
        RemoveFirstCount(old(l.properties), this, n);
      }
    }

    /** The part of the destructor that takes the node from its listeners. */
    method Destroy(ghost nodes: set<Node>, ghost ls: set<Listener>)
      requires this in nodes && Mirrored(nodes, ls)
      modifies this, ls
      ensures Mirrored(nodes, ls) && listeners == []
      ensures forall l | l in ls :: l.properties == Without(old(l.properties), this)
      ensures Mirrored(nodes - {this}, ls)
    {
      while listeners != []
        invariant Mirrored(nodes, ls)
        invariant forall l | l in ls :: Without(l.properties, this) == Without(old(l.properties), this)
        decreases |listeners|
      {
        var l := listeners[0];
        assert l in listeners && l in ls;
        hide Mirrored, Without, RemoveFirst;
        WithoutRemoved(l.properties, this);
        RemoveFirstLength(listeners, l);
        Unlink(l, nodes, ls);
      }
      Isolated(this, nodes, ls);
      hide Mirrored, Without, RemoveFirst;
      forall l | l in ls ensures l.properties == Without(old(l.properties), this) {
        WithoutRemoved(l.properties, this);
      }
    }
  }

  class Listener {
    var properties: seq<Node>

    constructor ()
      ensures properties == []
    {
      properties := [];
    }

    method RegisterProperty(n: Node)
      modifies this
      ensures properties == old(properties) + [n]
    {
      properties := properties + [n];
    }

    method UnregisterProperty(n: Node)
      modifies this
      ensures properties == RemoveFirst(old(properties), n)
    {
      properties := RemoveFirst(properties, n);
    }

    /** Every round takes one node from the list, because the node holds the listener too. */
    method Unsubscribe(ghost nodes: set<Node>, ghost ls: set<Listener>)
      requires this in ls && Mirrored(nodes, ls)
      modifies this, nodes
      ensures Mirrored(nodes, ls) && properties == []
      ensures forall n | n in nodes :: n.listeners == Without(old(n.listeners), this)
    {
      while properties != []
        invariant Mirrored(nodes, ls)
        invariant forall n | n in nodes :: Without(n.listeners, this) == Without(old(n.listeners), this)
        decreases |properties|
      {
        var n := properties[0];
        assert n in properties && n in nodes;
        RemoveFirstCount(properties, n, n);
        RemoveFirstCount(n.listeners, this, this);
        assert this in n.listeners && n.hasList;
        hide Mirrored, Without, RemoveFirst;
        WithoutRemoved(n.listeners, this);
        RemoveFirstLength(properties, n);
        n.RemoveListener(this, nodes, ls);
      }
      forall n | n in nodes ensures n.listeners == Without(old(n.listeners), this) {
        RemoveFirstCount(n.listeners, this, this);
        WithoutRemoved(n.listeners, this);
      }
    }
  }

  /** A node holds a listener as often as the listener holds the node, and only in a list. */
  ghost predicate Mirrored(nodes: set<Node>, ls: set<Listener>)
    reads nodes, ls
  {
    && (forall n, l | n in nodes && l in n.listeners :: l in ls && n.hasList)
    && (forall l, n | l in ls && n in l.properties :: n in nodes)
    && forall n, l | n in nodes && l in ls :: Count(n.listeners, l) == Count(l.properties, n)
  }

  lemma Isolated(node: Node, nodes: set<Node>, ls: set<Listener>)
    requires node in nodes && Mirrored(nodes, ls) && node.listeners == []
    ensures forall l | l in ls :: node !in l.properties
    ensures Mirrored(nodes - {node}, ls)
  {
    forall l | l in ls ensures node !in l.properties {
      assert Count(node.listeners, l) == Count(l.properties, node);
      RemoveFirstCount(l.properties, node, node);
    }
  }

  // --- Runs -------------------------------------------------------------------------------

  /** Nodes and listeners by number. */
  datatype Step =
    | Add(n: nat, l: nat)
    | Remove(n: nat, l: nat)
    | UnsubscribeAll(l: nat)
    | DestroyNode(n: nat)

  predicate InRange(step: Step, nodes: nat, ls: nat) {
    && (step.Add? || step.Remove? ==> step.n < nodes && step.l < ls)
    && (step.UnsubscribeAll? ==> step.l < ls) && (step.DestroyNode? ==> step.n < nodes)
  }

  /** Whatever calls are made in whatever order, on nodes that have not been destroyed, and removals on
      nodes that have had a listener: at the end the counts agree between the nodes that are left and
      the listeners, and no listener holds a node that is gone. */
  method RunKeepsMirror(nodes: seq<Node>, ls: seq<Listener>, steps: seq<Step>) returns (alive: set<Node>)
    requires forall i | 0 <= i < |steps| :: InRange(steps[i], |nodes|, |ls|)
    requires Mirrored(set n | n in nodes, set l | l in ls)
    modifies nodes, ls
    ensures alive <= (set n | n in nodes) && Mirrored(alive, set l | l in ls)
    ensures forall l, n | l in ls && n in nodes && n !in alive :: Count(l.properties, n) == 0
  {
    hide Count;
    ghost var all := set l | l in ls;
    alive := set n | n in nodes;
    var i := 0;
    while i < |steps|
      invariant 0 <= i <= |steps| && alive <= (set n | n in nodes) && Mirrored(alive, all)
    {
      hide Mirrored;
      assert InRange(steps[i], |nodes|, |ls|);
      match steps[i] {
        case Add(n, l) =>
          if nodes[n] in alive {
            nodes[n].AddListener(ls[l], alive, all);
          }
        case Remove(n, l) =>
          if nodes[n] in alive && nodes[n].hasList {
            nodes[n].RemoveListener(ls[l], alive, all);
          }
        case UnsubscribeAll(l) => ls[l].Unsubscribe(alive, all);
        case DestroyNode(n) =>
          if nodes[n] in alive {
            nodes[n].Destroy(alive, all);
            alive := alive - {nodes[n]};
          }
      }
      i := i + 1;
    }
    forall l, n | l in ls && n in nodes && n !in alive ensures Count(l.properties, n) == 0 {
      RemoveFirstCount(l.properties, n, n);
    }
  }
}
