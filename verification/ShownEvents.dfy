/** What the monitor node of the runner in `src/event.cpp` shows of an event: two properties under its
    ID once it is added, and two more after a pass. */
module ShownEvents {
  import opened EventMonitor
  import opened Events
  import opened Exceptions
  import opened PropertyPaths
  import opened Schedule
  import opened Strings
  import P = PropertyTree

  predicate WholeName(name: string) {
    PlainName(name) && '/' !in name
  }

  /** Nothing keeps lookups of the ID, and of what is below it, from finding what was created. */
  ghost predicate Showable(m: Node, id: string) {
    && P.Distinct(m)
    && match P.ChildByName(m.children, id)
       case None => !HasNamed(m.children, id)
       case Some(k) => P.Compact(m.children[k])
  }

  lemma Parts(id: string, leaf: string)
    requires WholeName(id) && WholeName(leaf)
    ensures var path := id + ("/" + leaf);
      P.CarCdr(path) == P.Path(id, leaf) && P.CarCdr(leaf) == P.Path(leaf, "") && |path| > 1
  {
    var path := id + ("/" + leaf);
    FindUnique(path, '/', 0, |id|);
    assert path[..|id|] == id && path[|id| + 1..] == leaf;
  }

  lemma TwoPlain(id: string, leaf: string)
    requires WholeName(id) && WholeName(leaf)
    ensures PlainPath(id + ("/" + leaf)) && PlainPath(leaf)
  {
    Parts(id, leaf);
    hide P.CarCdr, PlainName;
    assert PlainPath(leaf);
  }

  lemma NoGap(m: Node, id: string, leaf: string)
    requires WholeName(id) && WholeName(leaf) && Showable(m, id)
    ensures !MeetsGap(m, id + ("/" + leaf))
  {
    Parts(id, leaf);
    TwoPlain(id, leaf);
    hide P.CarCdr, PlainName, PlainPath, P.Compact, P.Distinct;
    match P.ChildByName(m.children, id)
    case None =>
    case Some(k) => CompactMeetsNoGap(m.children[k], leaf);
  }

  lemma CreateInto(m: Node, id: string, leaf: string)
    requires WholeName(id) && WholeName(leaf)
    ensures var next := P.Next(m, id);
      && next.Ok?
      && P.Create(m, id + ("/" + leaf)).tree
         == var t, k := next.value.tree, next.value.child;
            t.(children := t.children[k := P.Create(t.children[k], leaf).tree])
  {
    Parts(id, leaf);
    PlainNameAlone(id);
    hide P.CarCdr, P.ChildByName, P.NewName, P.WithChild;
  }

  lemma StaysShowable(m: Node, id: string, leaf: string)
    requires WholeName(id) && WholeName(leaf) && Showable(m, id)
    ensures Showable(P.Create(m, id + ("/" + leaf)).tree, id)
  {
    hide P.Create, P.Next, P.Compact, P.Distinct, PlainName, P.ChildByName, HasNamed;
    P.CreateKeepsIndices(m, id + ("/" + leaf));
    CreateInto(m, id, leaf);
    var next := P.Next(m, id).value;
    NextShows(m, id);
    P.CreateKeepsIndices(next.tree.children[next.child], leaf);
    var c := P.Create(next.tree.children[next.child], leaf).tree;
    SameSelection(next.tree.children, next.tree.children[next.child := c], id);
  }

  lemma NextShows(m: Node, id: string)
    requires WholeName(id) && Showable(m, id)
    ensures var next := P.Next(m, id);
      && next.Ok?
      && P.ChildByName(next.value.tree.children, id) == Some(next.value.child)
      && P.Compact(next.value.tree.children[next.value.child])
  {
    hide P.Compact, P.Distinct, PlainName, P.WithChild;
    match P.ChildByName(m.children, id)
    case Some(k) =>
    case None =>
      NewChildFound(m, id);
      PlainNameAlone(id);
      NewLeaf(m, id);
  }

  lemma NewLeaf(m: Node, id: string)
    ensures var t := P.WithChild(m, P.NewNode(id));
      |t.children| == |m.children| + 1 && P.Compact(t.children[|m.children|])
  {
    P.LeafKeeps(P.WithChild(m, P.NewNode(id)).children[|m.children|]);
  }

  /** What is created below the ID is found there. */
  lemma CreatedFound(m: Node, id: string, leaf: string)
    requires WholeName(id) && WholeName(leaf) && Showable(m, id)
    ensures var path := id + ("/" + leaf);
      var c := P.Create(m, path);
      c.at.Ok? && P.Get(c.tree, path) == Some(c.at.value) && Showable(c.tree, id)
  {
    hide P.Create, P.Get, PlainPath, WholeName;
    TwoPlain(id, leaf);
    NoGap(m, id, leaf);
    CreateThenGet(m, id + ("/" + leaf));
    StaysShowable(m, id, leaf);
  }

  /** And stays so when more is created. */
  lemma StaysFound(m: Node, id: string, leaf: string, created: string)
    requires WholeName(id) && WholeName(leaf) && P.Get(m, id + ("/" + leaf)).Some?
    ensures P.Get(P.Create(m, created).tree, id + ("/" + leaf)) == P.Get(m, id + ("/" + leaf))
  {
    hide P.Create, P.Get, PlainPath, WholeName, AsksNoLast;
    TwoPlain(id, leaf);
    PlainAsksNoLast(id + ("/" + leaf));
    CreateKeepsPaths(m, created, id + ("/" + leaf));
  }

  /** An event that is added, and not merged, is shown with its ID and its name. */
  lemma AddedShows(r: Runner, s: Scheduled)
    requires r.monitor.Some? && WholeName(s.id) && Showable(r.monitor.value, s.id) && !Merges(r.pending, s)
    ensures var added := Added(r, s);
      && added.result == Ok(()) && added.runner.monitor.Some?
      && P.Get(added.runner.monitor.value, s.id + "/id").Some?
      && P.Get(added.runner.monitor.value, s.id + "/name").Some?
      && Showable(added.runner.monitor.value, s.id)
  {
    Leaves();
    hide P.Create, P.Get, WholeName, Showable, Merges, WithEvent;
    var m := r.monitor.value;
    Joined(s.id, "id");
    Joined(s.id, "name");
    CreatedFound(m, s.id, "id");
    var first := P.Create(m, s.id + "/id").tree;
    CreatedFound(first, s.id, "name");
    StaysFound(first, s.id, "id", s.id + "/name");
  }

  /** A pass over an event that has not ended shows its time and the seconds until then. */
  lemma TouchedShows(m: Node, id: string)
    requires WholeName(id) && Showable(m, id)
    ensures P.Get(Touched(m, id), id + "/time").Some? && P.Get(Touched(m, id), id + "/ticks").Some?
    ensures Showable(Touched(m, id), id)
  {
    Leaves();
    hide P.Create, P.Get, WholeName, Showable;
    Joined(id, "time");
    Joined(id, "ticks");
    CreatedFound(m, id, "time");
    var t := if P.Get(m, id + "/time") == None then P.Create(m, id + "/time").tree else m;
    CreatedFound(t, id, "ticks");
    StaysFound(t, id, "time", id + "/ticks");
  }

  lemma Leaves()
    ensures WholeName("id") && WholeName("name") && WholeName("time") && WholeName("ticks")
  {
  }

  lemma Joined(id: string, leaf: string)
    ensures id + ("/" + leaf) == id + "/" + leaf
    ensures leaf == "id" ==> id + ("/" + leaf) == id + "/id"
    ensures leaf == "name" ==> id + ("/" + leaf) == id + "/name"
    ensures leaf == "time" ==> id + ("/" + leaf) == id + "/time"
    ensures leaf == "ticks" ==> id + ("/" + leaf) == id + "/ticks"
  {
    assert "/" + "id" == "/id" && "/" + "name" == "/name" && "/" + "time" == "/time" && "/" + "ticks" == "/ticks";
  }

  /** Where a name has nothing between two slashes showing it throws: the event is not added, but the
      node of what comes before the slashes stays. */
  lemma ThrowLeavesNode(pending: seq<Scheduled>, s: Scheduled, x: string, y: string)
    requires s.id == x + ("/" + ("/" + y)) && WholeName(x) && !Merges(pending, s)
    ensures var added := Added(Runner(pending, Some(P.NewNode("monitor"))), s);
      && added.result == Throw(RuntimeError) && added.runner.pending == pending
      && added.runner.monitor.Some? && P.Get(added.runner.monitor.value, x).Some?
  {
    hide Merges, WithEvent, WholeName, P.Create, P.Get;
    assert s.id + "/id" == x + ("/" + ("/" + (y + "/id")));
    EmptyPart(x, y + "/id");
  }

  lemma EmptyName(n: Node, rest: string)
    requires n.children == [] && rest != ""
    ensures P.Create(n, "/" + rest) == P.Created(n, Throw(RuntimeError))
  {
    var path := "/" + rest;
    assert P.CarCdr(path) == P.Path("", rest) by { assert path[..0] == "" && path[1..] == rest; }
    NothingYet(n, "");
    hide P.CarCdr, P.ChildByName;
  }

  lemma EmptyPart(x: string, rest: string)
    requires WholeName(x) && rest != ""
    ensures var c := P.Create(P.NewNode("monitor"), x + ("/" + ("/" + rest)));
      c.at == Throw(RuntimeError) && P.Get(c.tree, x).Some?
  {
    hide WholeName, P.CarCdr, P.ChildByName, P.NewName, P.WithChild, P.Create, P.Get;
    var m, tail := P.NewNode("monitor"), "/" + rest;
    FirstPart(x, tail);
    NothingYet(m, x);
    OneChild(m, x);
    var t, n := P.WithChild(m, P.NewNode(x)), P.WithChild(m, P.NewNode(x)).children[0];
    EmptyName(n, rest);
    assert t.(children := t.children[0 := n]) == t;
    CreateFirst(m, x, tail);
    GetFirst(t, x);
  }

  lemma FirstPart(x: string, tail: string)
    requires WholeName(x)
    ensures P.CarCdr(x + ("/" + tail)) == P.Path(x, tail) && P.CarCdr(x) == P.Path(x, "")
  {
    var path := x + ("/" + tail);
    FindUnique(path, '/', 0, |x|);
    assert path[..|x|] == x && path[|x| + 1..] == tail;
  }

  lemma OneChild(m: Node, x: string)
    requires m.children == [] && WholeName(x)
    ensures P.Next(m, x) == Ok(P.Stepped(P.WithChild(m, P.NewNode(x)), 0))
    ensures var t := P.WithChild(m, P.NewNode(x));
      |t.children| == 1 && t.children[0].children == [] && P.ChildByName(t.children, x) == Some(0)
  {
    hide P.NewName;
    PlainNameAlone(x);
    NothingYet(m, x);
  }

  lemma CreateFirst(m: Node, x: string, tail: string)
    requires P.CarCdr(x + ("/" + tail)) == P.Path(x, tail) && tail != "" && P.Next(m, x).Ok?
    ensures var t, k := P.Next(m, x).value.tree, P.Next(m, x).value.child;
      var below := P.Create(t.children[k], tail);
      && P.Create(m, x + ("/" + tail)).tree == t.(children := t.children[k := below.tree])
      && (below.at.Throw? ==> P.Create(m, x + ("/" + tail)).at == Throw(below.at.error))
  {
    hide P.CarCdr, P.Next;
    assert |x + ("/" + tail)| > 1;
  }

  lemma GetFirst(t: Node, x: string)
    requires WholeName(x) && P.CarCdr(x) == P.Path(x, "")
    ensures P.Get(t, x).Some? <==> P.ChildByName(t.children, x).Some?
  {
    hide P.CarCdr, P.ChildByName;
  }

  lemma NothingYet(m: Node, x: string)
    requires m.children == []
    ensures P.ChildByName(m.children, x) == None
  {
  }

  /** Removing an event takes its node from the monitor node and leaves the others as they are. */
  lemma RemovedHides(r: Runner, id: string, k: nat)
    requires r.monitor.Some? && WholeName(id) && P.Distinct(r.monitor.value)
    requires P.Get(r.monitor.value, id) == Some([k])
    ensures var m, after := r.monitor.value, Removed(r, id).monitor;
      && k < |m.children| && m.children[k].name == id
      && after == Some(m.(children := m.children[..k] + m.children[k + 1..]))
      && P.Get(after.value, id) == None
  {
    hide P.Get, P.Distinct, PlainName;
    var m := r.monitor.value;
    ChildFound(m, id, k);
    RemovalLeavesGap(m, id, k);
  }

  lemma ChildFound(m: Node, id: string, k: nat)
    requires WholeName(id) && P.Get(m, id) == Some([k])
    ensures k < |m.children| && P.ChildByName(m.children, id) == Some(k) && m.children[k].name == id
  {
    WholePath(id);
    PlainSelects(m.children, id);
    assert [k][0] == k;
    hide P.ChildByName;
  }
}
