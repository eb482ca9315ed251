/** Threads that add events while the runner of `src/event.cpp` is between the loop of a pass and the
    removals it has noted: the runner gives up its lock there. */
module RunnerRaces {
  import opened EventMonitor
  import opened EventRuns
  import opened Events
  import opened Schedule
  import opened Strings

  /** The runner, and the IDs its thread has still to remove. */
  datatype Between = Between(runner: Runner, removing: seq<string>)

  datatype Action =
    | Add(scheduled: Scheduled)   // addEvent, by any thread
    | Loop(now: nat)              // raisePendingEvents up to the end of its loop
    | RemoveNext                  // one removeEvent behind it

  predicate Possible(b: Between, action: Action) {
    match action
    case Add(_) => true
    case Loop(_) => b.removing == []
    case RemoveNext => b.removing != []
  }

  function Then(b: Between, action: Action): Between
    requires Possible(b, action)
  {
    match action
    case Add(s) => b.(runner := Added(b.runner, s).runner)
    case Loop(now) => Between(LoopedOver(b.runner, now), EndedIds(b.runner.pending, now))
    case RemoveNext => Between(Removed(b.runner, b.removing[0]), b.removing[1..])
  }

  predicate IsCourse(b: Between, actions: seq<Action>)
    decreases |actions|
  {
    actions == [] || (Possible(b, actions[0]) && IsCourse(Then(b, actions[0]), actions[1..]))
  }

  function After(b: Between, actions: seq<Action>): Between
    requires IsCourse(b, actions)
    decreases |actions|
  {
    if actions == [] then b else After(Then(b, actions[0]), actions[1..])
  }

  // --- Without other threads --------------------------------------------------------------

  function Removals(n: nat): (actions: seq<Action>)
    ensures |actions| == n
  {
    if n == 0 then [] else [RemoveNext] + Removals(n - 1)
  }

  lemma {:induction false} RemovalsRemove(b: Between)
    ensures IsCourse(b, Removals(|b.removing|))
    ensures After(b, Removals(|b.removing|)) == Between(RemovedAll(b.runner, b.removing), [])
    decreases |b.removing|
  {
    if b.removing != [] {
      hide Removed;
      var actions := Removals(|b.removing|);
      assert actions[0] == RemoveNext && actions[1..] == Removals(|b.removing| - 1);
      RemovalsRemove(Then(b, RemoveNext));
    }
  }

  /** A loop and its removals, with nothing in between, are a whole pass. */
  lemma LoopAndRemovals(r: Runner, now: nat)
    ensures var actions := [Loop(now)] + Removals(|EndedIds(r.pending, now)|);
      && IsCourse(Between(r, []), actions)
      && After(Between(r, []), actions) == Between(PassedOver(r, now), [])
  {
    hide LoopedOver, EndedIds, RemovedAll;
    var actions := [Loop(now)] + Removals(|EndedIds(r.pending, now)|);
    assert actions[0] == Loop(now) && actions[1..] == Removals(|EndedIds(r.pending, now)|);
    RemovalsRemove(Then(Between(r, []), Loop(now)));
  }

  // --- Which merges are lost --------------------------------------------------------------

  /** Until the next loop. */
  predicate BeforeLoop(actions: seq<Action>, id: string) {
    forall a | a in actions :: !a.Loop? && (a.Add? ==> a.scheduled.id != id)
  }

  ghost predicate Hits(removing: seq<string>) {
    forall id | id in removing :: Plain(id) && id != ""
  }

  lemma AddKeepsPending(r: Runner, s: Scheduled, id: string)
    requires s.id != id
    ensures Pending(Added(r, s).runner.pending, id).Some? <==> Pending(r.pending, id).Some?
  {
    AddedPending(r, s);
    hide Added, WithEvent;
    if Pending(r.pending, id).Some? {
      WithEventPending(r.pending, s, id);
    } else {
      StaysAbsent(r.pending, s, id);
    }
  }

  lemma AddKeepsDistinct(r: Runner, s: Scheduled)
    requires DistinctIds(r.pending) && Pending(r.pending, s.id) == None
    ensures DistinctIds(Added(r, s).runner.pending)
  {
    AddedPending(r, s);
    NotPending(r.pending, s.id);
    hide Added, WithEvent, DistinctIds;
    WithEventKeeps(r.pending, s);
  }

  /** Every event that is added has an ID of its own. */
  predicate FreshAdds(b: Between, actions: seq<Action>)
    requires IsCourse(b, actions)
    decreases |actions|
  {
    actions == []
    || (&& (actions[0].Add? ==> Pending(b.runner.pending, actions[0].scheduled.id) == None)
        && FreshAdds(Then(b, actions[0]), actions[1..]))
  }

  /** Once the removals are done, what was pending is gone if and only if its removal was noted. */
  lemma {:induction false} GoneExactly(b: Between, actions: seq<Action>, id: string)
    requires IsCourse(b, actions) && FreshAdds(b, actions) && BeforeLoop(actions, id)
    requires DistinctIds(b.runner.pending) && Hits(b.removing) && After(b, actions).removing == []
    ensures Pending(After(b, actions).runner.pending, id) == None
       <==> Pending(b.runner.pending, id) == None || id in b.removing
    decreases |actions|
  {
    if actions != [] {
      var next, rest := Then(b, actions[0]), actions[1..];
      assert actions[0] in actions && forall a | a in rest :: a in actions;
      match actions[0] {
        case Add(s) =>
          hide Added, DistinctIds, Plain;
          AddKeepsPending(b.runner, s, id);
          AddKeepsDistinct(b.runner, s);
          GoneExactly(next, rest, id);
        case RemoveNext =>
          var first := b.removing[0];
          assert first in b.removing && b.removing == [first] + b.removing[1..];
          PlainLooksUp(b.runner.monitor, first);
          WithoutIdPending(b.runner.pending, first, id);
          hide Removed, DistinctIds, Plain, LookedUp;
          RemovedPending(b.runner, first);
          GoneExactly(next, rest, id);
        case Loop(_) =>
      }
    }
  }

  lemma RemovedPending(r: Runner, id: string)
    requires LookedUp(r.monitor, id) == id
    ensures Removed(r, id).pending == WithoutId(r.pending, id)
  {
  }

  /** A unique event that is merged into a pending one between a loop and its removals is lost with it,
      without ever being raised, if and only if the loop has noted the removal of that one. */
  lemma MergeLostExactly(b: Between, s: Scheduled, actions: seq<Action>)
    requires DistinctIds(b.runner.pending) && Hits(b.removing) && Merges(b.runner.pending, s)
    requires Pending(b.runner.pending, s.id) == None
    requires var next := Then(b, Add(s));
      && IsCourse(next, actions) && FreshAdds(next, actions) && After(next, actions).removing == []
      && BeforeLoop(actions, Target(b, s).id)
    ensures var next, target := Then(b, Add(s)), Target(b, s);
      && Pending(next.runner.pending, target.id) == Some(target.(event := MergedInto(s.event, target.event)))
      && (Pending(After(next, actions).runner.pending, target.id) == None <==> target.id in b.removing)
  {
    var next, target := Then(b, Add(s)), Target(b, s);
    hide IsCourse, After, FreshAdds, BeforeLoop, Hits;
    TargetPending(b, s);
    AddKeepsDistinct(b.runner, s);
    GoneExactly(next, actions, target.id);
  }

  /** The event that is merged into. */
  function Target(b: Between, s: Scheduled): Scheduled
    requires Merges(b.runner.pending, s)
  {
    b.runner.pending[FirstOfKey(b.runner.pending, KeyOf(s.event))]
  }

  lemma TargetPending(b: Between, s: Scheduled)
    requires DistinctIds(b.runner.pending) && Merges(b.runner.pending, s)
    ensures var next, target := Then(b, Add(s)), Target(b, s);
      Pending(next.runner.pending, target.id) == Some(target.(event := MergedInto(s.event, target.event)))
  {
    hide IsUnique, MergedInto;
    var k, target := FirstOfKey(b.runner.pending, KeyOf(s.event)), Target(b, s);
    AtIndex(b.runner.pending, k, target.(event := MergedInto(s.event, target.event)));
  }

  /** It can happen: the pass that raises a one-shot event deletes what is merged into it meanwhile. */
  lemma MergeCanBeLost(s: Scheduled, t: Scheduled, now: nat)
    requires s.schedule == StaticSchedule(now) && now > 0 && KeyOf(s.event) == KeyOf(t.event) && IsUnique(t.event)
    ensures var b, actions := Between(Runner([s], None), []), [Loop(now), Add(t), RemoveNext];
      IsCourse(b, actions) && After(b, actions) == Between(Runner([], None), [])
  {
    hide IsUnique, Stripped, MergedInto, Looped, EndedIds, TouchedAll;
    DueAlone(s, now, now);
    OneTouched(None, s, now);
    StrippedKeeps(s.event);
    var x := Scheduled(s.id, Stripped(s.event), s.schedule);
    var b0 := Between(Runner([s], None), []);
    var b1 := Then(b0, Loop(now));
    assert b1 == Between(Runner([x], None), [s.id]);
    var y := x.(event := MergedInto(t.event, x.event));
    var b2 := Then(b1, Add(t));
    assert b2.runner.pending == [y];
    var b3 := Then(b2, RemoveNext);
    assert [y][1..] == [] && [s.id][1..] == [];
    assert b3 == Between(Runner([], None), []);
    Course3(b0, Loop(now), Add(t), RemoveNext);
  }

  lemma StrippedKeeps(e: Event)
    ensures KeyOf(Stripped(e)) == KeyOf(e)
  {
  }

  lemma Course3(b: Between, x: Action, y: Action, z: Action)
    requires Possible(b, x) && Possible(Then(b, x), y) && Possible(Then(Then(b, x), y), z)
    ensures IsCourse(b, [x, y, z]) && After(b, [x, y, z]) == Then(Then(Then(b, x), y), z)
  {
    hide Then, Possible;
    var b1 := Then(b, x);
    var b2 := Then(b1, y);
    assert [x, y, z][1..] == [y, z] && [y, z][1..] == [z] && [z][1..] == [];
    assert IsCourse(b2, [z]) && After(b2, [z]) == Then(b2, z);
    assert IsCourse(b1, [y, z]) && After(b1, [y, z]) == After(b2, [z]);
  }
}
