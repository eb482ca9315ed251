/** The property node in which the runner of `src/event.cpp` shows its pending events, and through
    which it removes them. */
module EventMonitor {
  import opened Events
  import opened Exceptions
  import opened Schedule
  import opened Strings
  import Numbers
  import PropertyTree

  type Node = PropertyTree.Node

  /** The runner: without a monitor node, events are removed by their ID. */
  datatype Runner = Runner(pending: seq<Scheduled>, monitor: Option<Node>)

  // --- What the calls do ------------------------------------------------------------------

  /** addEvent shows an event that replaces none; either creation may throw. */
  function Announced(monitor: Node, id: string): PropertyTree.Created {
    var first := PropertyTree.Create(monitor, id + "/id");
    if first.at.Throw? then first else PropertyTree.Create(first.tree, id + "/name")
  }

  /** The runner after addEvent, and whether an exception left it. */
  datatype AddedTo = AddedTo(runner: Runner, result: Result<()>)

  function Added(r: Runner, s: Scheduled): AddedTo {
    if Merges(r.pending, s) || r.monitor.None? then AddedTo(r.(pending := WithEvent(r.pending, s)), Ok(()))
    else
      var shown := Announced(r.monitor.value, s.id);
      if shown.at.Throw? then AddedTo(r.(monitor := Some(shown.tree)), Throw(shown.at.error))
      else AddedTo(Runner(WithEvent(r.pending, s), Some(shown.tree)), Ok(()))
  }

  /** The event replaces the properties of one that is pending. */
  predicate Merges(pending: seq<Scheduled>, s: Scheduled) {
    IsUnique(s.event) && FirstOfKey(pending, KeyOf(s.event)) < |pending|
  }

  /** addEvent changes nothing pending where it throws, which it cannot where it merges. */
  lemma AddedPending(r: Runner, s: Scheduled)
    ensures var pending := Added(r, s).runner.pending;
      && (pending == WithEvent(r.pending, s) || pending == r.pending)
      && (Merges(r.pending, s) ==> pending == WithEvent(r.pending, s))
  {
    hide Announced, WithEvent, IsUnique;
  }

  lemma KeyMerges(pending: seq<Scheduled>, s: Scheduled, x: Scheduled)
    requires IsUnique(s.event) && x in pending && KeyOf(x.event) == KeyOf(s.event)
    ensures Merges(pending, s)
  {
    hide IsUnique;
  }

  /** A pass shows the next time of an event. */
  function Touched(monitor: Node, id: string): Node {
    var t := if PropertyTree.Get(monitor, id + "/time") == None then PropertyTree.Create(monitor, id + "/time").tree
             else monitor;
    PropertyTree.Create(t, id + "/ticks").tree
  }

  function TouchedFor(monitor: Option<Node>, s: Scheduled, now: int): Option<Node> {
    if monitor.None? || NextOccurrence(s.schedule, now).time == NULL_DATE then monitor
    else Some(Touched(monitor.value, s.id))
  }

  function TouchedAll(monitor: Option<Node>, pending: seq<Scheduled>, now: int): Option<Node>
    decreases |pending|
  {
    if pending == [] then monitor else TouchedAll(TouchedFor(monitor, pending[0], now), pending[1..], now)
  }

  /** The name of what the ID leads to: the listener of the monitor node removes by that. */
  function LookedUp(monitor: Option<Node>, id: string): string {
    if monitor.None? then id
    else
      match PropertyTree.Get(monitor.value, id)
      case None => id
      case Some(at) => PropertyTree.NodeAt(monitor.value, at).name
  }

  /** Only a child of the monitor node itself can be taken from it. */
  function WithoutShown(monitor: Option<Node>, id: string): Option<Node> {
    if monitor.None? then None
    else
      match PropertyTree.Get(monitor.value, id)
      case None => monitor
      case Some(at) => if |at| == 1 then Some(PropertyTree.WithoutChild(monitor.value, at[0])) else monitor
  }

  /** removeEvent */
  function Removed(r: Runner, id: string): Runner {
    Runner(WithoutId(r.pending, LookedUp(r.monitor, id)), WithoutShown(r.monitor, id))
  }

  function RemovedAll(r: Runner, ids: seq<string>): Runner
    decreases |ids|
  {
    if ids == [] then r else RemovedAll(Removed(r, ids[0]), ids[1..])
  }

  /** The names the removals of some IDs come down to. */
  function LookedUpAll(monitor: Option<Node>, ids: seq<string>): seq<string>
    decreases |ids|
  {
    if ids == [] then []
    else [LookedUp(monitor, ids[0])] + LookedUpAll(WithoutShown(monitor, ids[0]), ids[1..])
  }

  /** After the loop of raisePendingEvents. */
  function LoopedOver(r: Runner, now: int): Runner {
    Runner(Looped(r.pending, now), TouchedAll(r.monitor, r.pending, now))
  }

  /** raisePendingEvents */
  function PassedOver(r: Runner, now: int): Runner {
    RemovedAll(LoopedOver(r, now), EndedIds(r.pending, now))
  }

  // --- Which events go --------------------------------------------------------------------

  /** Removal of a pending event removes it if and only if its ID leads to no node, or to one that is
      named by the whole ID. */
  lemma GoesExactly(r: Runner, id: string)
    requires DistinctIds(r.pending) && Pending(r.pending, id).Some?
    ensures Pending(Removed(r, id).pending, id) == None
       <==> (r.monitor.None? || match PropertyTree.Get(r.monitor.value, id)
                                case None => true
                                case Some(at) => PropertyTree.NodeAt(r.monitor.value, at).name == id)
  {
    WithoutIdPending(r.pending, LookedUp(r.monitor, id), id);
  }

  lemma {:induction false} RemovedAllIds(r: Runner, ids: seq<string>)
    ensures RemovedAll(r, ids).pending == WithoutIds(r.pending, LookedUpAll(r.monitor, ids))
    decreases |ids|
  {
    if ids != [] {
      hide WithoutId, LookedUp, WithoutShown;
      RemovedAllIds(Removed(r, ids[0]), ids[1..]);
    }
  }

  /** What is pending of an ID after a pass, whatever the names: it passes on its own, unless some
      ended event's removal comes down to it. */
  lemma PassedExactly(r: Runner, now: int, id: string)
    requires DistinctIds(r.pending)
    ensures var after := PassedOver(r, now).pending;
      && DistinctIds(after)
      && Pending(after, id)
         == if id in LookedUpAll(TouchedAll(r.monitor, r.pending, now), EndedIds(r.pending, now)) then None
            else match Pending(r.pending, id)
                 case None => None
                 case Some(x) => Some(Scheduled(id, EventAfter(x, now), Pass(x.schedule, now).schedule))
  {
    hide Pass, EventAfter, Looped, EndedIds, TouchedAll, LookedUpAll;
    var monitor := TouchedAll(r.monitor, r.pending, now);
    RemovedAllIds(LoopedOver(r, now), EndedIds(r.pending, now));
    LoopedPending(r.pending, now, id);
    WithoutIdsPending(Looped(r.pending, now), LookedUpAll(monitor, EndedIds(r.pending, now)), id);
  }

  // --- Names without slash and bracket ----------------------------------------------------

  predicate Plain(name: string) {
    '/' !in name && '[' !in name
  }

  predicate AllPlain(pending: seq<Scheduled>) {
    forall s | s in pending :: Plain(s.id)
  }

  /** An ID is plain if and only if the name of its event is. */
  lemma PlainId(counter: nat, now: nat, name: string)
    ensures Plain(ScheduledId(counter, now, name)) <==> Plain(name)
  {
    Numbers.NatToStringDigits(counter);
    Numbers.NatToStringDigits(now);
    DigitsPlain(Numbers.NatToString(counter));
    DigitsPlain(Numbers.NatToString(now));
  }

  lemma DigitsPlain(s: string)
    requires Numbers.AllDigits(s, 10)
    ensures Plain(s) && ']' !in s
  {
  }

  lemma NoBracket(id: string)
    requires '[' !in id
    ensures PropertyTree.NameAndIndex(id) == PropertyTree.Indexed(id, 0)
  {
  }

  /** A plain ID leads to a child of that name, or nowhere. */
  lemma PlainLooksUp(monitor: Option<Node>, id: string)
    requires Plain(id) && id != ""
    ensures LookedUp(monitor, id) == id
  {
    if monitor.Some? {
      var t := monitor.value;
      NoBracket(id);
      assert PropertyTree.CarCdr(id) == PropertyTree.Path(id, "");
      hide PropertyTree.NameAndIndex, PropertyTree.CarCdr;
      match PropertyTree.ChildByName(t.children, id) {
        case None =>
        case Some(k) => assert PropertyTree.NodeAt(t, [k]) == t.children[k];
      }
    }
  }

  lemma {:induction false} PlainLookUps(monitor: Option<Node>, ids: seq<string>)
    requires forall id | id in ids :: Plain(id) && id != ""
    ensures LookedUpAll(monitor, ids) == ids
    decreases |ids|
  {
    if ids != [] {
      hide LookedUp, WithoutShown, Plain;
      PlainLooksUp(monitor, ids[0]);
      PlainLookUps(WithoutShown(monitor, ids[0]), ids[1..]);
    }
  }

  lemma {:induction false} EndedArePending(pending: seq<Scheduled>, now: int)
    ensures forall id | id in EndedIds(pending, now) :: exists s :: s in pending && s.id == id
  {
    if pending != [] {
      hide Pass;
      EndedArePending(pending[1..], now);
      assert pending == [pending[0]] + pending[1..];
    }
  }

  /** While all IDs are plain a pass removes exactly the events that have ended. */
  lemma PlainPass(r: Runner, now: int)
    requires AllPlain(r.pending) && forall s | s in r.pending :: s.id != ""
    ensures PassedOver(r, now).pending == AfterPass(r.pending, now)
  {
    hide Looped, EndedIds, TouchedAll, LookedUpAll, Plain;
    EndedArePending(r.pending, now);
    RemovedAllIds(LoopedOver(r, now), EndedIds(r.pending, now));
    PlainLookUps(TouchedAll(r.monitor, r.pending, now), EndedIds(r.pending, now));
  }

  // --- A single event ---------------------------------------------------------------------

  /** A pass over one event that is due. */
  lemma DueAlone(s: Scheduled, when: int, now: nat)
    requires s.schedule == StaticSchedule(when) && when <= now && now > 0
    ensures Looped([s], now) == [s.(event := Stripped(s.event))] && EndedIds([s], now) == [s.id]
    ensures Raises([s], now) == [Raise(s.id, now, now, Stripped(s.event))]
    ensures NextOccurrence(s.schedule, now).time == now
  {
    StaticPass(when, now);
    hide Pass, Stripped;
    assert [s][1..] == [];
  }

  lemma OneTouched(monitor: Option<Node>, s: Scheduled, now: int)
    ensures TouchedAll(monitor, [s], now) == TouchedFor(monitor, s, now)
  {
    hide TouchedFor;
    assert [s][1..] == [];
  }
}
