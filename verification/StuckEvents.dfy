/** Events whose names keep the runner of `src/event.cpp` from removing them: their IDs do not lead to
    the nodes that are named by them. */
module StuckEvents {
  import opened EventMonitor
  import opened Events
  import opened EventRuns
  import opened Exceptions
  import opened Schedule
  import opened Strings
  import Numbers
  import PropertyPaths
  import PropertyTree

  /** The monitor node as it is created. */
  const MONITOR: Node := PropertyTree.NewNode("ScheduledEvents")

  // --- A slash in the name ----------------------------------------------------------------

  predicate PlainName(name: string) {
    Plain(name) && PropertyPaths.PlainName(name)
  }

  /** The path leads to a node below a child, with the last name. */
  ghost predicate Below(t: Node, x: string, b: string) {
    match PropertyTree.Get(t, x + ("/" + b))
    case None => false
    case Some(at) => |at| == 2 && PropertyTree.NodeAt(t, at).name == b
  }

  lemma Split(x: string, tail: string)
    requires '/' !in x
    ensures PropertyTree.CarCdr(x + ("/" + tail)) == PropertyTree.Path(x, tail)
  {
    var s := x + ("/" + tail);
    FindUnique(s, '/', 0, |x|);
    assert s[..|x|] == x && s[|x| + 1..] == tail;
  }

  lemma Whole(b: string)
    requires '/' !in b
    ensures PropertyTree.CarCdr(b) == PropertyTree.Path(b, "")
  {
  }

  /** What a path with two parts leads to. */
  lemma GetInto(t: Node, x: string, tail: string)
    requires '/' !in x && tail != ""
    ensures PropertyTree.Get(t, x + ("/" + tail))
         == match PropertyTree.ChildByName(t.children, x)
            case None => None
            case Some(k) => PropertyTree.Under(k, PropertyTree.Get(t.children[k], tail))
  {
    Split(x, tail);
    assert |x + ("/" + tail)| > 1;
    hide PropertyTree.CarCdr, PropertyTree.ChildByName, PropertyTree.Under;
  }

  /** What a name leads to. */
  lemma GetChild(t: Node, b: string)
    requires '/' !in b && b != ""
    ensures PropertyTree.Get(t, b)
         == match PropertyTree.ChildByName(t.children, b)
            case None => None
            case Some(k) => Some([k])
  {
    Whole(b);
    hide PropertyTree.CarCdr, PropertyTree.ChildByName;
  }

  lemma AtTwo(t: Node, k: nat, j: nat)
    requires k < |t.children| && j < |t.children[k].children|
    ensures PropertyTree.Exists(t, [k] + [j]) && PropertyTree.NodeAt(t, [k] + [j]) == t.children[k].children[j]
  {
    assert ([k] + [j])[1..] == [j] && [j][1..] == [];
    assert PropertyTree.NodeAt(t.children[k], [j]) == t.children[k].children[j];
  }

  lemma PlainFirst(x: string, tail: string)
    requires PlainName(x) && PropertyPaths.PlainPath(tail)
    ensures PropertyPaths.PlainPath(x + ("/" + tail))
  {
    Split(x, tail);
    hide PropertyTree.CarCdr, PropertyPaths.PlainName;
  }

  lemma PathOfThree(x: string, b: string, q: string)
    requires PlainName(x) && PlainName(b) && PlainName(q)
    ensures PropertyPaths.PlainPath(x + ("/" + (b + ("/" + q))))
  {
    Whole(q);
    assert PropertyPaths.PlainPath(q);
    hide PropertyPaths.PlainPath, PlainName;
    PlainFirst(b, q);
    PlainFirst(x, b + ("/" + q));
  }

  lemma Selected(children: seq<Node>, name: string)
    requires PlainName(name) && PropertyTree.ChildByName(children, name).Some?
    ensures children[PropertyTree.ChildByName(children, name).value].name == name
  {
    NoBracket(name);
  }

  /** Where three names lead, two do. */
  lemma PrefixBelow(t: Node, x: string, b: string, q: string)
    requires PlainName(x) && PlainName(b) && q != ""
    requires PropertyTree.Get(t, x + ("/" + (b + ("/" + q)))).Some?
    ensures Below(t, x, b)
  {
    hide PropertyTree.Get, PropertyTree.NodeAt, PropertyTree.ChildByName, PropertyTree.Exists;
    GetInto(t, x, b + ("/" + q));
    var k := PropertyTree.ChildByName(t.children, x).value;
    var c := t.children[k];
    GetInto(c, b, q);
    var j := PropertyTree.ChildByName(c.children, b).value;
    GetInto(t, x, b);
    GetChild(c, b);
    Selected(c.children, b);
    AtTwo(t, k, j);
  }

  lemma {:induction false} ExtendsAt(t: Node, t': Node, at: PropertyTree.Position)
    requires PropertyPaths.Extends(t', t) && PropertyTree.Exists(t, at)
    ensures PropertyTree.Exists(t', at) && PropertyTree.NodeAt(t', at).name == PropertyTree.NodeAt(t, at).name
    decreases |at|
  {
    if at != [] {
      ExtendsAt(t.children[at[0]], t'.children[at[0]], at[1..]);
    }
  }

  lemma StaysBelow(t: Node, t': Node, x: string, b: string)
    requires PropertyPaths.Extends(t', t) && Below(t, x, b) && PlainName(x) && PlainName(b)
    ensures Below(t', x, b)
  {
    hide PropertyTree.Get, PropertyTree.NodeAt, PropertyTree.Exists, PropertyPaths.Extends, PropertyPaths.AsksNoLast,
         PropertyTree.NameAndIndex;
    var path := x + ("/" + b);
    NoBracket(x);
    NoBracket(b);
    NameAsksNoLast(b);
    PathAsksNoLast(x, b);
    PropertyPaths.ExtensionKeepsPath(t, t', path);
    ExtendsAt(t, t', PropertyTree.Get(t, path).value);
  }

  lemma PathAsksNoLast(x: string, tail: string)
    requires '/' !in x && PropertyTree.NameAndIndex(x).index != PropertyTree.LAST && PropertyPaths.AsksNoLast(tail)
    ensures PropertyPaths.AsksNoLast(x + ("/" + tail))
  {
    Split(x, tail);
    hide PropertyTree.CarCdr, PropertyTree.NameAndIndex;
  }

  lemma TouchedExtends(t: Node, id: string)
    ensures PropertyPaths.Extends(Touched(t, id), t)
  {
    hide PropertyTree.Create, PropertyTree.Get, PropertyPaths.Extends;
    PropertyPaths.ExtendsSelf(t);
    PropertyPaths.CreateExtends(t, id + "/time");
    var t1 := if PropertyTree.Get(t, id + "/time") == None then PropertyTree.Create(t, id + "/time").tree else t;
    PropertyPaths.CreateExtends(t1, id + "/ticks");
    PropertyPaths.ExtendsOn(t, t1, Touched(t, id));
  }

  /** Showing such an event in the new monitor node succeeds. */
  lemma AnnouncedBelow(x: string, b: string)
    requires PlainName(x) && PlainName(b)
    ensures var shown := Announced(MONITOR, x + ("/" + b)); shown.at.Ok? && Below(shown.tree, x, b)
  {
    hide PropertyTree.Create, PropertyTree.Get, PropertyPaths.Extends, PropertyPaths.PlainPath, Below, PlainName,
         PropertyTree.Distinct, PropertyTree.Compact;
    var id := x + ("/" + b);
    assert id + "/id" == x + ("/" + (b + ("/" + "id"))) && id + "/name" == x + ("/" + (b + ("/" + "name")));
    ShownNames();
    PathOfThree(x, b, "id");
    PathOfThree(x, b, "name");
    NewIsDistinct();
    PropertyPaths.CompactMeetsNoGap(MONITOR, id + "/id");
    PropertyPaths.CreateThenGet(MONITOR, id + "/id");
    var first := PropertyTree.Create(MONITOR, id + "/id");
    PropertyTree.CreateKeepsIndices(MONITOR, id + "/id");
    PropertyPaths.CreateThenGet(first.tree, id + "/name");
    PrefixBelow(first.tree, x, b, "id");
    PropertyPaths.CreateExtends(first.tree, id + "/name");
    StaysBelow(first.tree, PropertyTree.Create(first.tree, id + "/name").tree, x, b);
  }

  /** Nothing is pending but a one-shot event with a slash in its ID, and that is shown. */
  ghost predicate Stuck(st: State, x: string, b: string, when: int) {
    && |st.pending| == 1 && st.pending[0].id == x + ("/" + b) && st.pending[0].schedule == StaticSchedule(when)
    && st.monitor.Some? && Below(st.monitor.value, x, b)
  }

  /** Its removal comes down to another name, and takes no node away. */
  lemma RemovalMisses(r: Runner, x: string, b: string)
    requires |r.pending| == 1 && r.pending[0].id == x + ("/" + b)
    requires r.monitor.Some? && Below(r.monitor.value, x, b)
    ensures RemovedAll(r, [x + ("/" + b)]) == r
  {
    hide PropertyTree.Get, PropertyTree.NodeAt;
    var s, id := r.pending[0], x + ("/" + b);
    assert |id| > |b|;
    assert r.pending == [s] && [s][1..] == [];
    assert WithoutId([s], b) == [s] + [];
    assert Removed(r, id) == r;
    assert [id][1..] == [];
  }

  /** A pass at or after its time raises it, and does not remove it. */
  lemma StuckPass(calendar: Calendar, st: State, x: string, b: string, when: int, now: nat)
    requires Stuck(st, x, b, when) && PlainName(x) && PlainName(b) && when <= now && now > 0
    ensures var st', id := Next(calendar, st, PassAt(now)), x + ("/" + b);
      Stuck(st', x, b, when) && |RaisesOf(st'.history, id)| == |RaisesOf(st.history, id)| + 1
  {
    hide Touched, PlainName, Below, Looped, EndedIds, Raises, RaisedEvents, TouchedAll, RemovedAll, Pass, Stripped,
         QueuedAll, RaisesOf, NextOccurrence;
    var s, id := st.pending[0], x + ("/" + b);
    assert st.pending == [s];
    DueAlone(s, when, now);
    TouchedExtends(st.monitor.value, id);
    StaysBelow(st.monitor.value, Touched(st.monitor.value, id), x, b);
    OneTouched(st.monitor, s, now);
    RemovalMisses(LoopedOver(st.Runs(), now), x, b);
    OneMore(st.history, Raise(s.id, now, now, Stripped(s.event)), id);
  }

  lemma OneMore(history: seq<Traffic>, raise: Traffic, id: string)
    requires raise.Raise? && raise.id == id
    ensures |RaisesOf(history + [raise], id)| == |RaisesOf(history, id)| + 1
  {
    assert (history + [raise])[..|history|] == history;
  }

  function Passes(times: seq<nat>): (steps: seq<Step>)
    ensures |steps| == |times|
  {
    if times == [] then [] else [PassAt(times[0])] + Passes(times[1..])
  }

  lemma {:induction false} StuckRun(calendar: Calendar, st: State, x: string, b: string, when: int, times: seq<nat>)
    requires Stuck(st, x, b, when) && PlainName(x) && PlainName(b) && forall t | t in times :: when <= t && t > 0
    ensures var st', id := Exec(calendar, st, Passes(times)), x + ("/" + b);
      Stuck(st', x, b, when) && |RaisesOf(st'.history, id)| == |RaisesOf(st.history, id)| + |times|
    decreases |times|
  {
    hide Stuck, Next, PlainName, RaisesOf;
    if times != [] {
      assert times[0] in times && forall t | t in times[1..] :: t in times;
      StuckPass(calendar, st, x, b, when, times[0]);
      PassesFirst(calendar, st, times);
      StuckRun(calendar, Next(calendar, st, PassAt(times[0])), x, b, when, times[1..]);
    }
  }

  lemma PassesFirst(calendar: Calendar, st: State, times: seq<nat>)
    requires times != []
    ensures Exec(calendar, st, Passes(times))
         == Exec(calendar, Next(calendar, st, PassAt(times[0])), Passes(times[1..]))
  {
    hide Next;
    assert Passes(times)[0] == PassAt(times[0]) && Passes(times)[1..] == Passes(times[1..]);
  }

  lemma InFive(calendar: Calendar, e: Event, now: nat)
    requires e.time == Some("+5")
    ensures ScheduleFromEvent(calendar, e, now) == Some(StaticSchedule(now + 5))
  {
    assert "+5"[1..] == "5";
    Numbers.NatToStringDigits(5);
    assert Numbers.NatToString(5) == "5";
    Numbers.IntRoundTrip(5);
  }

  /** What an ID that is given out begins with. */
  function Prefix(counter: nat, now: nat): string {
    Numbers.NatToString(counter) + ("-" + (Numbers.NatToString(now) + "_"))
  }

  lemma PrefixPlain(counter: nat, now: nat, a: string)
    requires Plain(a) && (a != "" ==> a[|a| - 1] != '+')
    ensures PlainName(Prefix(counter, now) + a)
  {
    Numbers.NatToStringDigits(counter);
    Numbers.NatToStringDigits(now);
    DigitsPlain(Numbers.NatToString(counter));
    DigitsPlain(Numbers.NatToString(now));
  }

  lemma PrefixOfId(counter: nat, now: nat, a: string, rest: string)
    ensures ScheduledId(counter, now, a + rest) == (Prefix(counter, now) + a) + rest
  {
  }

  lemma Pushed(calendar: Calendar, e: Event, now: nat)
    requires e.time == Some("+5") && Announced(MONITOR, ScheduledId(0, now, e.name)).at.Ok?
    ensures var st, id := Next(calendar, Init(Some(MONITOR)), Push(e, now)), ScheduledId(0, now, e.name);
      && st.pending == [Scheduled(id, e, StaticSchedule(now + 5))] && st.history == []
      && st.monitor == Some(Announced(MONITOR, id).tree)
  {
    InFive(calendar, e, now);
    hide ScheduleFromEvent, ScheduledId, Announced, IsUnique;
  }

  /** An event with a slash in its name, to be raised in 5 seconds, is raised by every later pass. */
  lemma SlashNeverEnds(calendar: Calendar, e: Event, a: string, b: string, now: nat, times: seq<nat>)
    requires e.name == a + ("/" + b) && e.time == Some("+5")
    requires Plain(a) && (a != "" ==> a[|a| - 1] != '+') && PlainName(b)
    requires forall t | t in times :: t >= now + 5
    ensures var st := Exec(calendar, Init(Some(MONITOR)), [Push(e, now)] + Passes(times));
      |RaisesOf(st.history, ScheduledId(0, now, e.name))| == |times|
  {
    var x := Prefix(0, now) + a;
    PrefixPlain(0, now, a);
    PrefixOfId(0, now, a, "/" + b);
    hide Next, PlainName, Announced, Below, ScheduledId, Prefix;
    AnnouncedBelow(x, b);
    Pushed(calendar, e, now);
    var steps := [Push(e, now)] + Passes(times);
    assert steps[0] == Push(e, now) && steps[1..] == Passes(times);
    StuckRun(calendar, Next(calendar, Init(Some(MONITOR)), Push(e, now)), x, b, now + 5, times);
  }

  // --- A zero index in the name -----------------------------------------------------------

  lemma ZeroText()
    ensures Trim("0") == "0" && Numbers.Atoi("0") == 0
  {
    assert "0"[1..] == "" && "0"[..1] == "0" && Numbers.DigitValue('0') == 0;
    TrimKeeps("0");
  }

  lemma ZeroIndex(x: string)
    requires Plain(x) && ']' !in x && x != ""
    ensures PropertyTree.NameAndIndex(x + "[0]") == PropertyTree.Indexed(x, 0)
  {
    hide Trim, Numbers.Atoi, Find;
    var name := x + "[0]";
    FindUnique(name, '[', 0, |x|);
    FindUnique(name, ']', 0, |x| + 2);
    assert name[..|x|] == x && name[|x| + 1..|x| + 2] == "0";
    assert "0"[0] != "last"[0];
    ZeroText();
  }

  /** The path with the index leads to a child without it in its name. */
  ghost predicate ZeroLed(t: Node, x: string) {
    match PropertyTree.Get(t, x + "[0]")
    case None => false
    case Some(at) => |at| == 1 && PropertyTree.NodeAt(t, at).name == x
  }

  predicate Base(x: string) {
    Plain(x) && ']' !in x && x != ""
  }

  lemma SelectedZero(children: seq<Node>, x: string)
    requires Base(x) && PropertyTree.ChildByName(children, x + "[0]").Some?
    ensures children[PropertyTree.ChildByName(children, x + "[0]").value].name == x
  {
    ZeroIndex(x);
    hide PropertyTree.NameAndIndex;
  }

  lemma ZeroPrefix(t: Node, x: string, q: string)
    requires Base(x) && q != "" && PropertyTree.Get(t, x + "[0]" + ("/" + q)).Some?
    ensures ZeroLed(t, x)
  {
    hide PropertyTree.Get, PropertyTree.ChildByName;
    var id := x + "[0]";
    NoSlash(x);
    GetInto(t, id, q);
    GetChild(t, id);
    var k := PropertyTree.ChildByName(t.children, id).value;
    SelectedZero(t.children, x);
    assert PropertyTree.NodeAt(t, [k]) == t.children[k];
  }

  lemma NoSlash(x: string)
    requires Base(x)
    ensures '/' !in x + "[0]"
  {
  }

  lemma StaysZero(t: Node, t': Node, x: string)
    requires Base(x) && PropertyPaths.Extends(t', t) && ZeroLed(t, x)
    ensures ZeroLed(t', x)
  {
    hide PropertyTree.Get, PropertyTree.NodeAt, PropertyTree.Exists, PropertyPaths.Extends, PropertyPaths.AsksNoLast, Plain;
    var id := x + "[0]";
    ZeroIndex(x);
    NoSlash(x);
    NameAsksNoLast(id);
    PropertyPaths.ExtensionKeepsPath(t, t', id);
    ExtendsAt(t, t', PropertyTree.Get(t, id).value);
  }

  lemma NameAsksNoLast(name: string)
    requires '/' !in name && name != "" && PropertyTree.NameAndIndex(name).index != PropertyTree.LAST
    ensures PropertyPaths.AsksNoLast(name)
  {
    Whole(name);
    hide PropertyTree.CarCdr, PropertyTree.NameAndIndex;
  }

  /** The first creation adds a child without the index, and finds it by the path. */
  lemma FirstZero(x: string)
    requires Base(x)
    ensures PropertyTree.Next(MONITOR, x + "[0]")
         == Ok(PropertyTree.Stepped(PropertyTree.WithChild(MONITOR, PropertyTree.NewNode(x)), 0))
    ensures var t := PropertyTree.WithChild(MONITOR, PropertyTree.NewNode(x));
      PropertyTree.ChildByName(t.children, x + "[0]") == Some(0)
  {
    hide PropertyTree.NameAndIndex, PropertyTree.MaxIndex, Plain;
    ZeroIndex(x);
    NoneYet(x);
    var t' := PropertyTree.WithChild(MONITOR, PropertyTree.NewNode(x));
    assert t'.children[0].name == x && t'.children[0].index == 0;
  }

  lemma NoneYet(x: string)
    ensures PropertyTree.MaxIndex([], x) == -1
  {
  }

  /** Creating below what a name selects. */
  lemma CreatedUnder(t: Node, id: string, q: string, t': Node, k: nat)
    requires '/' !in id && id != "" && PlainName(q)
    requires PropertyTree.Next(t, id) == Ok(PropertyTree.Stepped(t', k)) && k < |t'.children|
    requires PropertyTree.ChildByName(t'.children, id) == Some(k) && t'.children[k].children == []
    ensures var r := PropertyTree.Create(t, id + ("/" + q));
      r.at.Ok? && PropertyTree.Get(r.tree, id + ("/" + q)).Some?
  {
    Split(id, q);
    Whole(q);
    assert PropertyPaths.PlainPath(q);
    var c := t'.children[k];
    PropertyTree.LeafKeeps(c);
    hide PropertyTree.CarCdr, PropertyTree.Next, PropertyTree.ChildByName, PropertyPaths.PlainPath, PropertyTree.Create,
         PropertyTree.Get, PropertyTree.Distinct, PropertyTree.Compact, PlainName;
    PropertyPaths.PathStep(t, id + ("/" + q), t', k);
    PropertyPaths.CompactMeetsNoGap(c, q);
    PropertyPaths.CreateThenGet(c, q);
  }

  lemma AnnouncedZero(x: string)
    requires Base(x)
    ensures var first := PropertyTree.Create(MONITOR, x + "[0]" + "/id"); first.at.Ok? && ZeroLed(first.tree, x)
  {
    hide PropertyTree.Next, PropertyTree.ChildByName, PropertyTree.Create, PropertyTree.Get, ZeroLed, Base,
         PropertyTree.WithChild, PropertyTree.NewNode, PlainName;
    var id := x + "[0]";
    NoSlash(x);
    assert id + "/id" == id + ("/" + "id");
    FirstZero(x);
    ChildOfNew(x);
    ShownNames();
    CreatedUnder(MONITOR, id, "id", PropertyTree.WithChild(MONITOR, PropertyTree.NewNode(x)), 0);
    ZeroPrefix(PropertyTree.Create(MONITOR, id + "/id").tree, x, "id");
  }

  lemma ChildOfNew(x: string)
    ensures var t := PropertyTree.WithChild(MONITOR, PropertyTree.NewNode(x));
      |t.children| == 1 && t.children[0].children == []
  {
  }

  /** Creating below what a name already selects does not throw. */
  lemma CreatedAgain(t: Node, id: string, q: string, k: nat)
    requires '/' !in id && id != "" && PlainName(q) && PropertyTree.Distinct(t)
    requires PropertyTree.ChildByName(t.children, id) == Some(k)
    ensures PropertyTree.Create(t, id + ("/" + q)).at.Ok?
  {
    Split(id, q);
    Whole(q);
    assert PropertyPaths.PlainPath(q);
    assert PropertyTree.Distinct(t.children[k]);
    PropertyPaths.NextFound(t, id, k);
    hide PropertyTree.CarCdr, PropertyTree.Next, PropertyTree.ChildByName, PropertyPaths.PlainPath, PropertyTree.Create,
         PropertyTree.Get, PropertyTree.Distinct, PlainName;
    PropertyPaths.PathStep(t, id + ("/" + q), t, k);
    PropertyPaths.CreateThenGet(t.children[k], q);
  }

  lemma LedChild(t: Node, x: string)
    requires Base(x) && ZeroLed(t, x)
    ensures PropertyTree.ChildByName(t.children, x + "[0]").Some?
  {
    hide PropertyTree.ChildByName, PropertyTree.NodeAt, PropertyTree.Get;
    NoSlash(x);
    GetChild(t, x + "[0]");
  }

  /** Showing such an event in the new monitor node succeeds. */
  lemma AnnouncedZeroLed(x: string)
    requires Base(x)
    ensures var shown := Announced(MONITOR, x + "[0]"); shown.at.Ok? && ZeroLed(shown.tree, x)
  {
    hide PropertyTree.Create, PropertyTree.Get, PropertyTree.ChildByName, PropertyTree.Distinct, PropertyTree.Compact,
         ZeroLed, Base, PlainName, PropertyPaths.Extends;
    var id := x + "[0]";
    AnnouncedZero(x);
    SecondZero(PropertyTree.Create(MONITOR, id + "/id").tree, x);
    NewIsDistinct();
    PropertyTree.CreateKeepsIndices(MONITOR, id + "/id");
  }

  lemma NewIsDistinct()
    ensures PropertyTree.Distinct(MONITOR) && PropertyTree.Compact(MONITOR)
  {
  }

  lemma ShownNames()
    ensures PlainName("id") && PlainName("name")
  {
  }

  lemma SecondZero(t: Node, x: string)
    requires Base(x) && ZeroLed(t, x)
    ensures var second := PropertyTree.Create(t, x + "[0]" + "/name");
      (PropertyTree.Distinct(t) ==> second.at.Ok?) && ZeroLed(second.tree, x)
  {
    hide PropertyTree.Create, PropertyTree.Get, PropertyTree.ChildByName, PropertyTree.Distinct, ZeroLed, Base, PlainName,
         PropertyPaths.Extends;
    var id := x + "[0]";
    ShownNames();
    NoSlash(x);
    LedChild(t, x);
    assert id + "/name" == id + ("/" + "name");
    if PropertyTree.Distinct(t) {
      CreatedAgain(t, id, "name", PropertyTree.ChildByName(t.children, id).value);
    }
    PropertyPaths.CreateExtends(t, id + "/name");
    StaysZero(t, PropertyTree.Create(t, id + "/name").tree, x);
  }

  /** Its removal comes down to the name without the index. */
  lemma RemovalMissesZero(r: Runner, x: string)
    requires |r.pending| == 1 && r.pending[0].id == x + "[0]" && r.monitor.Some? && ZeroLed(r.monitor.value, x)
    ensures RemovedAll(r, [x + "[0]"]).pending == r.pending
  {
    hide PropertyTree.Get, PropertyTree.NodeAt;
    var s, id := r.pending[0], x + "[0]";
    assert |id| > |x|;
    assert r.pending == [s] && [s][1..] == [];
    assert WithoutId([s], x) == [s] + [];
    assert Removed(r, id).pending == r.pending;
    assert [id][1..] == [];
  }

  /** A pass over one event that is due raises it. */
  lemma RaisedNow(calendar: Calendar, st: State, when: int, now: nat)
    requires |st.pending| == 1 && st.pending[0].schedule == StaticSchedule(when) && when <= now && now > 0
    ensures var id := st.pending[0].id;
      |RaisesOf(Next(calendar, st, PassAt(now)).history, id)| == |RaisesOf(st.history, id)| + 1
  {
    hide Looped, EndedIds, Raises, RaisedEvents, TouchedAll, RemovedAll, Pass, Stripped, QueuedAll, RaisesOf,
         NextOccurrence;
    var s := st.pending[0];
    assert st.pending == [s];
    DueAlone(s, when, now);
    OneMore(st.history, Raise(s.id, now, now, Stripped(s.event)), s.id);
  }

  lemma ZeroStays(calendar: Calendar, st: State, x: string, when: int, now: nat)
    requires |st.pending| == 1 && st.pending[0].schedule == StaticSchedule(when) && when <= now && now > 0
    requires st.pending[0].id == x + "[0]" && Base(x) && st.monitor.Some? && ZeroLed(st.monitor.value, x)
    ensures var st' := Next(calendar, st, PassAt(now));
      |st'.pending| == 1 && st'.pending[0].id == x + "[0]" && st'.pending[0].schedule == StaticSchedule(when)
  {
    hide Touched, ZeroLed, Base, Looped, EndedIds, Raises, RaisedEvents, TouchedAll, RemovedAll, Pass, Stripped,
         QueuedAll, NextOccurrence;
    var s, id := st.pending[0], x + "[0]";
    assert st.pending == [s];
    DueAlone(s, when, now);
    TouchedExtends(st.monitor.value, id);
    StaysZero(st.monitor.value, Touched(st.monitor.value, id), x);
    OneTouched(st.monitor, s, now);
    RemovalMissesZero(LoopedOver(st.Runs(), now), x);
  }

  /** An event with a zero index at the end of its name, to be raised in 5 seconds, is raised again by
      the pass after the one that raised it. */
  lemma ZeroIndexRaisedAgain(calendar: Calendar, e: Event, a: string, now: nat, first: nat, second: nat)
    requires e.name == a + "[0]" && e.time == Some("+5") && Plain(a) && ']' !in a
    requires first >= now + 5 && second >= now + 5
    ensures var st := Exec(calendar, Init(Some(MONITOR)), [Push(e, now), PassAt(first), PassAt(second)]);
      |RaisesOf(st.history, ScheduledId(0, now, e.name))| == 2
  {
    var x := Prefix(0, now) + a;
    PrefixBase(0, now, a);
    PrefixOfId(0, now, a, "[0]");
    hide Next, Base, Announced, ZeroLed, ScheduledId, Prefix, RaisesOf;
    AnnouncedZeroLed(x);
    Pushed(calendar, e, now);
    var st1 := Next(calendar, Init(Some(MONITOR)), Push(e, now));
    RaisedNow(calendar, st1, now + 5, first);
    ZeroStays(calendar, st1, x, now + 5, first);
    RaisedNow(calendar, Next(calendar, st1, PassAt(first)), now + 5, second);
    NothingYet(x + "[0]");
    ThreeSteps(calendar, Init(Some(MONITOR)), Push(e, now), PassAt(first), PassAt(second));
  }

  lemma NothingYet(id: string)
    ensures RaisesOf([], id) == []
  {
  }

  lemma ThreeSteps(calendar: Calendar, st: State, a: Step, b: Step, c: Step)
    ensures Exec(calendar, st, [a, b, c]) == Next(calendar, Next(calendar, Next(calendar, st, a), b), c)
  {
    hide Next;
    var st1 := Next(calendar, st, a);
    var st2 := Next(calendar, st1, b);
    assert [a, b, c][1..] == [b, c] && [b, c][1..] == [c] && [c][1..] == [];
    assert Exec(calendar, st2, [c]) == Next(calendar, st2, c);
    assert Exec(calendar, st1, [b, c]) == Exec(calendar, st2, [c]);
  }

  lemma PrefixBase(counter: nat, now: nat, a: string)
    requires Plain(a) && ']' !in a
    ensures Base(Prefix(counter, now) + a)
  {
    Numbers.NatToStringDigits(counter);
    Numbers.NatToStringDigits(now);
    DigitsPlain(Numbers.NatToString(counter));
    DigitsPlain(Numbers.NatToString(now));
  }
}
