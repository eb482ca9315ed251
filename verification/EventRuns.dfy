/** Runs of the event queue and runner of `src/event.cpp`, one call at a time. */
module EventRuns {
  import opened EventMonitor
  import opened Events
  import opened Schedule
  import opened Strings
  import Numbers

  /** The history is what has happened to the queue so far. */
  datatype State = State(
    pending: seq<Scheduled>, monitor: Option<Node>, queue: seq<Event>, counter: nat, history: seq<Traffic>)
  {
    function Runs(): Runner { Runner(pending, monitor) }
  }

  datatype Step =
    | Push(event: Event, now: nat)   // pushEvent
    | PassAt(now: nat)               // raisePendingEvents
    | Pop                            // popEvent

  function Next(calendar: Calendar, st: State, step: Step): State {
    match step
    case Push(e, now) =>
      (match ScheduleFromEvent(calendar, e, now)
       case None => st.(queue := Queued(st.queue, e), history := st.history + [Direct(e)])
       case Some(schedule) =>
         var s := Scheduled(ScheduledId(st.counter, now, e.name), e, schedule);
         var runner := Added(st.Runs(), s).runner;
         st.(pending := runner.pending, monitor := runner.monitor, counter := st.counter + 1))
    case PassAt(now) =>
      var runner := PassedOver(st.Runs(), now);
      st.(pending := runner.pending, monitor := runner.monitor,
          queue := QueuedAll(st.queue, RaisedEvents(st.pending, now)),
          history := st.history + Raises(st.pending, now))
    case Pop => if st.queue == [] then st else st.(queue := st.queue[1..], history := st.history + [Popped])
  }

  function Exec(calendar: Calendar, st: State, steps: seq<Step>): State
    decreases |steps|
  {
    if steps == [] then st else Exec(calendar, Next(calendar, st, steps[0]), steps[1..])
  }

  // --- IDs --------------------------------------------------------------------------------

  /** An ID that has been given out. */
  ghost predicate Used(st: State, id: string) {
    exists counter: nat, now: nat, name :: counter < st.counter && id == ScheduledId(counter, now, name)
  }

  ghost predicate Inv(st: State) {
    && DistinctIds(st.pending)
    && (forall s | s in st.pending :: Used(st, s.id))
    && forall s | s in st.pending :: Valid(s.schedule)
  }

  lemma FreshId(st: State, now: nat, name: string, id: string)
    requires Used(st, id)
    ensures id != ScheduledId(st.counter, now, name)
  {
    var counter: nat, now': nat, name' :| counter < st.counter && id == ScheduledId(counter, now', name');
    if id == ScheduledId(st.counter, now, name) {
      IdsDiffer(counter, now', name', st.counter, now, name);
    }
  }

  lemma {:induction false} WithEventPending(pending: seq<Scheduled>, s: Scheduled, id: string)
    requires Pending(pending, id).Some? && s.id != id
    ensures var x, y := Pending(pending, id).value, Pending(WithEvent(pending, s), id);
      && y.Some? && y.value.id == id && y.value.schedule == x.schedule
      && (y.value == x || (IsUnique(s.event) && KeyOf(s.event) == KeyOf(x.event) && y.value.event == MergedInto(s.event, x.event)))
  {
    var k := FirstOfKey(pending, KeyOf(s.event));
    if IsUnique(s.event) && k < |pending| {
      UpdatePending(pending, k, MergedInto(s.event, pending[k].event), id);
    } else {
      AppendPending(pending, s, id);
    }
  }

  lemma {:induction false} UpdatePending(pending: seq<Scheduled>, k: nat, e: Event, id: string)
    requires k < |pending| && Pending(pending, id).Some?
    ensures var x, y := Pending(pending, id).value, Pending(pending[k := pending[k].(event := e)], id);
      y.Some? && y.value.schedule == x.schedule && (y.value == x || (x == pending[k] && y.value == x.(event := e)))
  {
    if pending[0].id != id && k > 0 {
      assert pending[k := pending[k].(event := e)][1..] == pending[1..][k - 1 := pending[k].(event := e)];
      UpdatePending(pending[1..], k - 1, e, id);
    }
  }

  lemma {:induction false} AppendPending(pending: seq<Scheduled>, s: Scheduled, id: string)
    ensures Pending(pending + [s], id)
         == if Pending(pending, id).Some? then Pending(pending, id) else if s.id == id then Some(s) else None
  {
    if pending == [] {
      assert pending + [s] == [s];
      assert [s][1..] == [];
    } else {
      assert (pending + [s])[1..] == pending[1..] + [s];
      AppendPending(pending[1..], s, id);
    }
  }

  lemma {:induction false} NotPending(pending: seq<Scheduled>, id: string)
    ensures Pending(pending, id) == None <==> forall s | s in pending :: s.id != id
  {
    if pending != [] {
      NotPending(pending[1..], id);
      assert pending == [pending[0]] + pending[1..];
    }
  }

  // --- The invariant ----------------------------------------------------------------------

  lemma {:induction false} FromLooped(pending: seq<Scheduled>, ids: seq<string>, s: Scheduled)
    requires DistinctIds(pending) && s in WithoutIds(pending, ids)
    ensures s in pending
    decreases |ids|
  {
    if ids != [] {
      WithoutIdPending(pending, ids[0], "");
      FromLooped(WithoutId(pending, ids[0]), ids[1..], s);
    }
  }

  /** Whatever is removed, the invariant is kept. */
  lemma PassKeepsInv(st: State, now: nat)
    requires Inv(st) && now > 0
    ensures DistinctIds(PassedOver(st.Runs(), now).pending)
    ensures forall s | s in PassedOver(st.Runs(), now).pending :: Used(st, s.id) && Valid(s.schedule)
  {
    hide Pass, Used, EventAfter, Looped, EndedIds, LookedUpAll, TouchedAll;
    PassedExactly(st.Runs(), now, "");
    LoopedPending(st.pending, now, "");
    var looped, ended := LoopedOver(st.Runs(), now), EndedIds(st.pending, now);
    RemovedAllIds(looped, ended);
    forall s | s in PassedOver(st.Runs(), now).pending ensures Used(st, s.id) && Valid(s.schedule) {
      FromLooped(looped.pending, LookedUpAll(looped.monitor, ended), s);
      var i :| 0 <= i < |st.pending| && Looped(st.pending, now)[i] == s;
      assert st.pending[i] in st.pending;
      PassMovesOn(st.pending[i].schedule, now);
    }
  }

  lemma OccurrencesValid(calendar: Calendar, e: Event, now: int)
    requires ValidCalendar(calendar)
    ensures var s := ScheduleFromEvent(calendar, e, now); s.Some? ==> Valid(s.value)
  {
    if "iCalStartTime" in e.properties && "iCalRRule" in e.properties {
      RestLater(calendar.occurrences(e.properties["iCalRRule"], e.properties["iCalStartTime"]), now);
    }
  }

  function Init(monitor: Option<Node>): State {
    State([], monitor, [], 0, [])
  }

  lemma {:induction false} RunKeepsInv(calendar: Calendar, st: State, steps: seq<Step>)
    requires ValidCalendar(calendar) && Inv(st) && forall i | 0 <= i < |steps| :: InTime(steps[i])
    ensures Inv(Exec(calendar, st, steps))
    decreases |steps|
  {
    if steps != [] {
      hide Inv, Next, ValidCalendar;
      StepKeepsInv(calendar, st, steps[0]);
      RunKeepsInv(calendar, Next(calendar, st, steps[0]), steps[1..]);
    }
  }

  /** In every run from the start, pending events have distinct IDs and valid schedules. */
  lemma EveryRunKeepsInv(calendar: Calendar, monitor: Option<Node>, steps: seq<Step>)
    requires ValidCalendar(calendar) && forall i | 0 <= i < |steps| :: InTime(steps[i])
    ensures Inv(Exec(calendar, Init(monitor), steps))
  {
    assert Inv(Init(monitor));
    RunKeepsInv(calendar, Init(monitor), steps);
  }

  /** An event with a schedule that replaces no pending one becomes pending under a new ID, if and only
      if it can be shown in the monitor node. */
  lemma PushedIsPending(calendar: Calendar, st: State, e: Event, now: nat)
    requires Inv(st) && ScheduleFromEvent(calendar, e, now).Some?
    requires !IsUnique(e) || forall s | s in st.pending :: KeyOf(s.event) != KeyOf(e)
    ensures var id := ScheduledId(st.counter, now, e.name);
      && Pending(st.pending, id) == None
      && Pending(Next(calendar, st, Push(e, now)).pending, id)
         == if st.monitor.None? || Announced(st.monitor.value, id).at.Ok? then
              Some(Scheduled(id, e, ScheduleFromEvent(calendar, e, now).value))
            else None
  {
    var id := ScheduledId(st.counter, now, e.name);
    forall s | s in st.pending ensures s.id != id {
      FreshId(st, now, e.name, s.id);
    }
    NotPending(st.pending, id);
    hide ScheduledId, ScheduleFromEvent, IsUnique, Announced;
    AppendPending(st.pending, Scheduled(id, e, ScheduleFromEvent(calendar, e, now).value), id);
    var k := FirstOfKey(st.pending, KeyOf(e));
    assert k < |st.pending| ==> st.pending[k] in st.pending;
  }

  predicate InTime(step: Step) {
    step.PassAt? ==> step.now > 0
  }

  lemma PushKeepsInv(calendar: Calendar, st: State, e: Event, now: nat)
    requires ValidCalendar(calendar) && Inv(st)
    ensures Inv(Next(calendar, st, Push(e, now)))
  {
    var schedule := ScheduleFromEvent(calendar, e, now);
    OccurrencesValid(calendar, e, now);
    if schedule.Some? {
      var s := Scheduled(ScheduledId(st.counter, now, e.name), e, schedule.value);
      var st' := st.(pending := WithEvent(st.pending, s), counter := st.counter + 1);
      forall x | x in st.pending ensures x.id != s.id {
        FreshId(st, now, e.name, x.id);
      }
      hide ScheduledId, DistinctIds, Announced, ScheduleFromEvent;
      WithEventKeeps(st.pending, s);
      hide WithEvent;
      assert Used(st', s.id);
      forall x | x in st'.pending ensures Used(st', x.id) && Valid(x.schedule) {
        if x != s {
          var y :| y in st.pending && y.id == x.id && y.schedule == x.schedule;
        }
      }
    }
  }

  /** Adding an event changes no ID and no schedule that is pending. */
  lemma WithEventKeeps(pending: seq<Scheduled>, s: Scheduled)
    requires DistinctIds(pending) && forall x | x in pending :: x.id != s.id
    ensures var r := WithEvent(pending, s);
      && DistinctIds(r)
      && forall x | x in r :: x == s || exists y :: y in pending && y.id == x.id && y.schedule == x.schedule
  {
    var k, r := FirstOfKey(pending, KeyOf(s.event)), WithEvent(pending, s);
    forall x | x in r ensures x == s || exists y :: y in pending && y.id == x.id && y.schedule == x.schedule {
      var i :| 0 <= i < |r| && r[i] == x;
      if i < |pending| {
        assert pending[i] in pending && pending[i].id == x.id && pending[i].schedule == x.schedule;
      }
    }
  }

  lemma StepKeepsInv(calendar: Calendar, st: State, step: Step)
    requires ValidCalendar(calendar) && Inv(st) && InTime(step)
    ensures Inv(Next(calendar, st, step)) && Next(calendar, st, step).counter >= st.counter
  {
    match step
    case Push(e, now) => PushKeepsInv(calendar, st, e, now);
    case PassAt(now) =>
      PassKeepsInv(st, now);
      hide PassedOver, Used, DistinctIds;
      var st' := Next(calendar, st, step);
      forall id | Used(st, id) ensures Used(st', id) {
        UsedLater(st, st', id);
      }
    case Pop => PopKeepsInv(calendar, st);
  }

  lemma UsedLater(st: State, st': State, id: string)
    requires Used(st, id) && st'.counter >= st.counter
    ensures Used(st', id)
  {
  }

  lemma PopKeepsInv(calendar: Calendar, st: State)
    requires Inv(st)
    ensures Inv(Next(calendar, st, Pop)) && Next(calendar, st, Pop).counter == st.counter
  {
  }

  // --- Removals that hit ------------------------------------------------------------------

  /** Every removal of a pass comes down to the ID of the event that has ended. */
  predicate Clean(st: State, step: Step) {
    step.PassAt? ==>
      var ended := EndedIds(st.pending, step.now);
      LookedUpAll(TouchedAll(st.monitor, st.pending, step.now), ended) == ended
  }

  predicate CleanRun(calendar: Calendar, st: State, steps: seq<Step>)
    decreases |steps|
  {
    steps == [] || (Clean(st, steps[0]) && CleanRun(calendar, Next(calendar, st, steps[0]), steps[1..]))
  }

  lemma CleanPass(st: State, now: nat)
    requires Clean(st, PassAt(now))
    ensures PassedOver(st.Runs(), now).pending == AfterPass(st.pending, now)
  {
    hide Looped, EndedIds, LookedUpAll, TouchedAll, WithoutIds;
    RemovedAllIds(LoopedOver(st.Runs(), now), EndedIds(st.pending, now));
  }

  lemma {:induction false} CleanPrefix(calendar: Calendar, st: State, steps: seq<Step>, d: nat)
    requires CleanRun(calendar, st, steps) && d <= |steps|
    ensures CleanRun(calendar, st, steps[..d])
    decreases d
  {
    hide Next, Clean;
    if d > 0 {
      assert steps[..d][0] == steps[0] && steps[..d][1..] == steps[1..][..d - 1];
      CleanPrefix(calendar, Next(calendar, st, steps[0]), steps[1..], d - 1);
    }
  }

  predicate PlainStep(step: Step) {
    step.Push? ==> Plain(step.event.name)
  }

  lemma PlainIsClean(st: State, step: Step)
    requires Inv(st) && AllPlain(st.pending)
    ensures Clean(st, step)
  {
    if step.PassAt? {
      hide EndedIds, TouchedAll, LookedUpAll, Plain, Used;
      EndedArePending(st.pending, step.now);
      forall s | s in st.pending ensures s.id != "" {
        UsedNotEmpty(st, s.id);
      }
      PlainLookUps(TouchedAll(st.monitor, st.pending, step.now), EndedIds(st.pending, step.now));
    }
  }

  lemma UsedNotEmpty(st: State, id: string)
    requires Used(st, id)
    ensures id != ""
  {
  }

  lemma PlainKept(calendar: Calendar, st: State, step: Step)
    requires Inv(st) && AllPlain(st.pending) && PlainStep(step) && InTime(step)
    ensures AllPlain(Next(calendar, st, step).pending)
  {
    hide Plain;
    match step
    case Push(e, now) =>
      PlainId(st.counter, now, e.name);
      hide ScheduledId, ScheduleFromEvent, Announced, IsUnique;
      var schedule := ScheduleFromEvent(calendar, e, now);
      if schedule.Some? {
        WithEventPlain(st.pending, Scheduled(ScheduledId(st.counter, now, e.name), e, schedule.value));
      }
    case PassAt(now) =>
      var looped, ended := LoopedOver(st.Runs(), now), EndedIds(st.pending, now);
      hide Pass, EndedIds, LookedUpAll, TouchedAll;
      LoopedPending(st.pending, now, "");
      RemovedAllIds(looped, ended);
      forall s | s in PassedOver(st.Runs(), now).pending ensures Plain(s.id) {
        FromLooped(looped.pending, LookedUpAll(looped.monitor, ended), s);
        var i :| 0 <= i < |st.pending| && Looped(st.pending, now)[i] == s;
        assert st.pending[i] in st.pending;
      }
    case Pop =>
  }

  lemma WithEventPlain(pending: seq<Scheduled>, s: Scheduled)
    requires AllPlain(pending) && Plain(s.id)
    ensures AllPlain(WithEvent(pending, s))
  {
    hide Plain, IsUnique;
    var r := WithEvent(pending, s);
    forall x | x in r ensures Plain(x.id) {
      var i :| 0 <= i < |r| && r[i] == x;
      assert i < |pending| ==> pending[i] in pending && x.id == pending[i].id;
    }
  }

  /** While the names of events have no slash and no bracket, every removal hits. */
  lemma {:induction false} PlainRunIsClean(calendar: Calendar, st: State, steps: seq<Step>)
    requires ValidCalendar(calendar) && Inv(st) && AllPlain(st.pending)
    requires forall i | 0 <= i < |steps| :: InTime(steps[i]) && PlainStep(steps[i])
    ensures CleanRun(calendar, st, steps)
    decreases |steps|
  {
    if steps != [] {
      hide ValidCalendar, Inv, AllPlain, Clean, Next, InTime, PlainStep;
      PlainIsClean(st, steps[0]);
      PlainKept(calendar, st, steps[0]);
      StepKeepsInv(calendar, st, steps[0]);
      PlainRunIsClean(calendar, Next(calendar, st, steps[0]), steps[1..]);
    }
  }

  // --- Raises of one event ----------------------------------------------------------------

  function RaisesOf(history: seq<Traffic>, id: string): seq<Traffic> {
    if history == [] then []
    else
      var last := history[|history| - 1];
      RaisesOf(history[..|history| - 1], id) + if last.Raise? && last.id == id then [last] else []
  }

  lemma {:induction false} RaisesConcat(a: seq<Traffic>, b: seq<Traffic>, id: string)
    ensures RaisesOf(a + b, id) == RaisesOf(a, id) + RaisesOf(b, id)
    decreases |b|
  {
    if b == [] {
      assert a + b == a;
    } else {
      var n := |b| - 1;
      assert (a + b)[..|a + b| - 1] == a + b[..n];
      RaisesConcat(a, b[..n], id);
    }
  }

  /** One pass pushes an event at most once, for the occurrence its schedule gives, and what it pushes
      is the pending event of that ID without its schedule. */
  lemma {:induction false} PassRaises(pending: seq<Scheduled>, now: int, id: string)
    requires DistinctIds(pending)
    ensures RaisesOf(Raises(pending, now), id) == RaiseOf(Pending(pending, id), now)
  {
    if pending != [] {
      hide RaisesOf, RaiseOf;
      PassRaises(pending[1..], now, id);
      RaisesConcat(RaiseOf(Some(pending[0]), now), Raises(pending[1..], now), id);
      OneRaise(pending[0], now, id);
      if pending[0].id == id {
        NotPending(pending[1..], id);
      }
    } else {
      assert RaisesOf([], id) == [] && RaiseOf(None, now) == [];
    }
  }

  lemma OneRaise(s: Scheduled, now: int, id: string)
    ensures RaisesOf(RaiseOf(Some(s), now), id) == if s.id == id then RaiseOf(Some(s), now) else []
    ensures RaiseOf(None, now) == []
  {
    hide Pass, Stripped;
    var r := RaiseOf(Some(s), now);
    if r != [] {
      assert r[..|r| - 1] == [];
    }
  }

  // --- An event that is gone, and steps that leave an event alone -------------------------

  lemma StepOnPending(calendar: Calendar, st: State, step: Step, id: string)
    requires Inv(st) && Used(st, id) && Clean(st, step)
    ensures var st' := Next(calendar, st, step);
      && (step.PassAt? ==>
            && Pending(st'.pending, id) == Passing(Pending(st.pending, id), step.now)
            && RaisesOf(st'.history, id) == RaisesOf(st.history, id) + RaiseOf(Pending(st.pending, id), step.now))
      && (!step.PassAt? ==>
            && RaisesOf(st'.history, id) == RaisesOf(st.history, id)
            && Pending(st'.pending, id).Some? == Pending(st.pending, id).Some?
            && (Pending(st.pending, id).Some? ==>
                  Pending(st'.pending, id).value.schedule == Pending(st.pending, id).value.schedule))
  {
    match step
    case Push(e, now) =>
      hide DistinctIds, Used, ScheduledId;
      FreshId(st, now, e.name, id);
      PushOnPending(calendar, st, e, now, id);
      RaisesConcat(st.history, [Direct(e)], id);
    case PassAt(now) =>
      hide DistinctIds, Used, Pass, AfterPass, Clean, PassedOver;
      CleanPass(st, now);
      AfterPassPending(st.pending, now, id);
      PassRaises(st.pending, now, id);
      RaisesConcat(st.history, Raises(st.pending, now), id);
    case Pop =>
      RaisesConcat(st.history, [Popped], id);
  }

  lemma PushOnPending(calendar: Calendar, st: State, e: Event, now: nat, id: string)
    requires id != ScheduledId(st.counter, now, e.name)
    ensures var st' := Next(calendar, st, Push(e, now));
      && Pending(st'.pending, id).Some? == Pending(st.pending, id).Some?
      && (Pending(st.pending, id).Some? ==>
            Pending(st'.pending, id).value.schedule == Pending(st.pending, id).value.schedule)
  {
    hide ScheduledId, ScheduleFromEvent, Announced, WithEvent;
    var schedule := ScheduleFromEvent(calendar, e, now);
    if schedule.Some? {
      var s := Scheduled(ScheduledId(st.counter, now, e.name), e, schedule.value);
      if Pending(st.pending, id).Some? {
        WithEventPending(st.pending, s, id);
      } else {
        StaysAbsent(st.pending, s, id);
      }
    }
  }

  lemma StaysAbsent(pending: seq<Scheduled>, s: Scheduled, id: string)
    requires Pending(pending, id) == None && s.id != id
    ensures Pending(WithEvent(pending, s), id) == None
  {
    NotPending(pending, id);
    NotPending(WithEvent(pending, s), id);
    var r := WithEvent(pending, s);
    forall x | x in r ensures x.id != id {
      var i :| 0 <= i < |r| && r[i] == x;
      assert i < |pending| ==> pending[i] in pending && pending[i].id == x.id;
    }
  }

  lemma {:induction false} GoneStays(calendar: Calendar, st: State, steps: seq<Step>, id: string)
    requires ValidCalendar(calendar) && Inv(st) && Used(st, id) && Pending(st.pending, id) == None
    requires CleanRun(calendar, st, steps) && forall i | 0 <= i < |steps| :: InTime(steps[i])
    ensures var st' := Exec(calendar, st, steps);
      Pending(st'.pending, id) == None && RaisesOf(st'.history, id) == RaisesOf(st.history, id)
    decreases |steps|
  {
    if steps != [] {
      hide Inv, Used, Next, ValidCalendar;
      var st1 := Next(calendar, st, steps[0]);
      StepKeepsInv(calendar, st, steps[0]);
      StepOnPending(calendar, st, steps[0], id);
      GoneStays(calendar, st1, steps[1..], id);
    }
  }

  // --- One-shot events --------------------------------------------------------------------

  /** The number of the first pass that finds a due time reached. */
  function FirstDue(steps: seq<Step>, when: int): (d: nat)
    ensures d <= |steps| && (d < |steps| ==> DueAt(steps[d], when))
    ensures forall i | 0 <= i < d :: !DueAt(steps[i], when)
  {
    if steps == [] || DueAt(steps[0], when) then 0 else 1 + FirstDue(steps[1..], when)
  }

  ghost predicate PendingAs(st: State, id: string, schedule: Schedule) {
    Pending(st.pending, id).Some? && Pending(st.pending, id).value.schedule == schedule
  }

  predicate DueAt(step: Step, when: int) {
    step.PassAt? && step.now >= when
  }

  lemma OneShotStep(calendar: Calendar, st: State, step: Step, id: string, when: int)
    requires ValidCalendar(calendar) && Inv(st) && InTime(step) && Clean(st, step)
    requires PendingAs(st, id, StaticSchedule(when))
    ensures var st' := Next(calendar, st, step);
      && Inv(st') && Used(st', id)
      && (if DueAt(step, when) then Pending(st'.pending, id) == None else PendingAs(st', id, StaticSchedule(when)))
      && RaisesOf(st'.history, id)
         == RaisesOf(st.history, id)
            + if DueAt(step, when) then [PushedNow(st, id, step.now)] else []
  {
    assert Used(st, id);
    hide Inv, Used, Next, ValidCalendar, Pass, Stripped;
    StepKeepsInv(calendar, st, step);
    StepOnPending(calendar, st, step, id);
    if step.PassAt? {
      StaticPass(when, step.now);
    }
  }

  /** The push of a one-shot event that is pending. */
  ghost function PushedNow(st: State, id: string, now: int): Traffic
    requires Pending(st.pending, id).Some?
  {
    Raise(id, now, now, Stripped(Pending(st.pending, id).value.event))
  }

  /** In every run, a one-shot event is pushed to the queue exactly at the first pass that finds it
      due, as it is pending then: never before and never again. */
  lemma {:induction false} OneShot(calendar: Calendar, st: State, steps: seq<Step>, id: string, when: int)
    requires ValidCalendar(calendar) && Inv(st) && CleanRun(calendar, st, steps)
    requires forall i | 0 <= i < |steps| :: InTime(steps[i])
    requires PendingAs(st, id, StaticSchedule(when))
    ensures var d := FirstDue(steps, when);
      PendingAs(Exec(calendar, st, steps[..d]), id, StaticSchedule(when))
    ensures var st', d := Exec(calendar, st, steps), FirstDue(steps, when);
      && RaisesOf(st'.history, id)
         == RaisesOf(st.history, id)
            + (if d < |steps| then [PushedNow(Exec(calendar, st, steps[..d]), id, steps[d].now)] else [])
      && (d < |steps| ==> Pending(st'.pending, id) == None)
    decreases |steps|
  {
    hide Inv, Used, Next, ValidCalendar, RaisesOf, PendingAs, PushedNow, Clean, Exec, Stripped;
    var d := FirstDue(steps, when);
    if steps == [] {
      ExecNothing(calendar, st, steps[..d]);
    } else {
      var st1 := Next(calendar, st, steps[0]);
      OneShotStep(calendar, st, steps[0], id, when);
      ExecFirst(calendar, st, steps, d);
      if DueAt(steps[0], when) {
        GoneStays(calendar, st1, steps[1..], id);
      } else {
        OneShot(calendar, st1, steps[1..], id, when);
      }
    }
  }

  lemma ExecNothing(calendar: Calendar, st: State, steps: seq<Step>)
    requires steps == []
    ensures Exec(calendar, st, steps) == st
  {
  }

  /** The first step, then the others up to a number. */
  lemma ExecFirst(calendar: Calendar, st: State, steps: seq<Step>, d: nat)
    requires steps != [] && d <= |steps|
    ensures Exec(calendar, st, steps) == Exec(calendar, Next(calendar, st, steps[0]), steps[1..])
    ensures Exec(calendar, st, steps[..d])
         == if d == 0 then st else Exec(calendar, Next(calendar, st, steps[0]), steps[1..][..d - 1])
  {
    hide Next;
    if d > 0 {
      assert steps[..d][1..] == steps[1..][..d - 1];
    }
  }

  /** A pass leaves every event that is not due, but that an occurrence is passed over too early: only
      for starts in UTC and a zone ahead of it. */
  lemma NotDueUntouched(calendar: Calendar, st: State, now: nat, s: Scheduled)
    requires Inv(st) && Pending(st.pending, s.id) == Some(s) && Clean(st, PassAt(now))
    requires NextOccurrence(s.schedule, now).time > now
    ensures Pending(Next(calendar, st, PassAt(now)).pending, s.id)
         == Some(s.(schedule := NextOccurrence(s.schedule, now).schedule))
    ensures NextOccurrence(s.schedule, now).schedule != s.schedule ==>
              s.schedule.ICalSchedule? && TooEarly(s.schedule.occurrences, s.schedule.clock, now)
  {
    hide Clean, PassedOver, AfterPass;
    CleanPass(st, now);
    AfterPassPending(st.pending, now, s.id);
  }

  // --- Recurring events -------------------------------------------------------------------

  function PassTimes(steps: seq<Step>): seq<int> {
    if steps == [] then []
    else (if steps[0].PassAt? then [steps[0].now] else []) + PassTimes(steps[1..])
  }

  /** The occurrences and times of raises. */
  function Dues(raises: seq<Traffic>): seq<Due> {
    if raises == [] then [] else DueOf(raises[0]) + Dues(raises[1..])
  }

  function DueOf(traffic: Traffic): seq<Due> {
    if traffic.Raise? then [Due(traffic.occurrence, traffic.at)] else []
  }

  lemma {:induction false} DuesConcat(a: seq<Traffic>, b: seq<Traffic>)
    ensures Dues(a + b) == Dues(a) + Dues(b)
  {
    hide DueOf;
    if a == [] {
      assert a + b == b;
    } else {
      assert (a + b)[1..] == a[1..] + b;
      DuesConcat(a[1..], b);
    }
  }

  /** One step raises the event as one pass over its schedule does, or leaves it as it is. */
  lemma RecurringStep(calendar: Calendar, st: State, step: Step, id: string, occ: seq<int>,
                      clock: Clock)
    requires ValidCalendar(calendar) && Inv(st) && InTime(step) && Clean(st, step)
    requires PendingAs(st, id, ICalSchedule(occ, clock))
    ensures var st' := Next(calendar, st, step);
      && Inv(st') && Used(st', id) && Increasing(occ)
      && (if step.PassAt? then
            var p := Pass(ICalSchedule(occ, clock), step.now);
            && (if p.ended then Pending(st'.pending, id) == None else PendingAs(st', id, p.schedule))
            && Dues(RaisesOf(st'.history, id))
               == Dues(RaisesOf(st.history, id)) + (if p.raised == [] then [] else [Due(p.raised[0], step.now)])
          else
            PendingAs(st', id, ICalSchedule(occ, clock)) && RaisesOf(st'.history, id) == RaisesOf(st.history, id))
  {
    assert Used(st, id) && Valid(ICalSchedule(occ, clock));
    hide Inv, Used, Next, ValidCalendar, Pass, Increasing, RaisesOf;
    StepKeepsInv(calendar, st, step);
    StepOnPending(calendar, st, step, id);
    if step.PassAt? {
      DuesConcat(RaisesOf(st.history, id), RaiseOf(Pending(st.pending, id), step.now));
      OneDue(Pending(st.pending, id).value, step.now);
    }
  }

  lemma OneDue(s: Scheduled, now: int)
    ensures var raised := Pass(s.schedule, now).raised;
      Dues(RaiseOf(Some(s), now)) == if raised == [] then [] else [Due(raised[0], now)]
  {
    hide Pass;
    var r := RaiseOf(Some(s), now);
    assert r != [] ==> r[1..] == [];
  }

  /** What is pending of a recurring event: nothing once its schedule has ended. */
  ghost predicate LeftPending(st: State, id: string, occ: seq<int>, clock: Clock) {
    (Pending(st.pending, id) == None && occ == []) || PendingAs(st, id, ICalSchedule(occ, clock))
  }

  /** Over every run a recurring event is raised exactly as the passes of the run over its schedule
      give, and what they leave of the schedule stays pending. */
  lemma {:induction false} Recurring(calendar: Calendar, st: State, steps: seq<Step>, id: string, occ: seq<int>,
                                     clock: Clock)
    requires ValidCalendar(calendar) && Inv(st) && CleanRun(calendar, st, steps)
    requires forall i | 0 <= i < |steps| :: InTime(steps[i])
    requires PendingAs(st, id, ICalSchedule(occ, clock))
    ensures var st', times := Exec(calendar, st, steps), PassTimes(steps);
      && Dues(RaisesOf(st'.history, id))
         == Dues(RaisesOf(st.history, id)) + Raised(ICalSchedule(occ, clock), times)
      && LeftPending(st', id, Left(occ, clock, times), clock)
    decreases |steps|
  {
    hide Inv, Used, Next, ValidCalendar, RaisesOf, Dues, Pass, PendingAs, Increasing, Raised, Left, InTime, Clean;
    if steps == [] {
      NoPasses(occ, clock);
    } else {
      var st1, times := Next(calendar, st, steps[0]), PassTimes(steps);
      RecurringStep(calendar, st, steps[0], id, occ, clock);
      if steps[0].PassAt? {
        assert times[0] == steps[0].now && times[1..] == PassTimes(steps[1..]);
        var k := FirstPass(occ, clock, times);
        if Pass(ICalSchedule(occ, clock), steps[0].now).ended {
          GoneStays(calendar, st1, steps[1..], id);
          NothingRaised(clock, times[1..]);
        } else {
          Recurring(calendar, st1, steps[1..], id, occ[k..], clock);
        }
      } else {
        assert times == PassTimes(steps[1..]);
        Recurring(calendar, st1, steps[1..], id, occ, clock);
      }
    }
  }

  /** Some pass of the run finds o first, not due yet, and passes over it. */
  ghost predicate MissedBy(steps: seq<Step>, occ: seq<int>, clock: Clock, o: int) {
    Missed(occ, clock, PassTimes(steps), o)
  }

  /** So over a run an occurrence is lost, that is never raised and no longer pending, if and only if
      the raise of an earlier one took it along, or a pass took it too early. */
  lemma OccurrenceLost(calendar: Calendar, st: State, steps: seq<Step>, id: string, occ: seq<int>, clock: Clock, o: int)
    requires ValidCalendar(calendar) && Inv(st) && CleanRun(calendar, st, steps)
    requires forall i | 0 <= i < |steps| :: InTime(steps[i])
    requires PendingAs(st, id, ICalSchedule(occ, clock)) && o in occ && RaisesOf(st.history, id) == []
    ensures var st' := Exec(calendar, st, steps);
      var ds := Dues(RaisesOf(st'.history, id));
      && (!IsRaised(ds, o) && !StillPending(st', id, o)
          <==> Skipped(occ, clock, ds, o) || MissedBy(steps, occ, clock, o))
      && (clock.offset == 0 ==> (!IsRaised(ds, o) && !StillPending(st', id, o) <==> Skipped(occ, UTC, ds, o)))
  {
    hide Inv, ValidCalendar, Exec, IsRaised, Skipped, Missed, Raised, Left, RaisesOf, LeftPending, StillPending,
         PendingAs, PassTimes, Increasing, CleanRun;
    PendingIncreasing(st, id, occ, clock);
    Recurring(calendar, st, steps, id, occ, clock);
    var times := PassTimes(steps);
    var raised := Raised(ICalSchedule(occ, clock), times);
    assert Dues(RaisesOf(st.history, id)) == [] && [] + raised == raised;
    LostExactly(occ, clock, times, o);
    if clock.offset == 0 {
      AsInUtc(occ, clock, times, o);
    }
    LeftIsPending(Exec(calendar, st, steps), id, Left(occ, clock, times), clock, o);
  }

  lemma PendingIncreasing(st: State, id: string, occ: seq<int>, clock: Clock)
    requires Inv(st) && PendingAs(st, id, ICalSchedule(occ, clock))
    ensures Increasing(occ)
  {
    assert Valid(Pending(st.pending, id).value.schedule);
  }

  lemma LeftIsPending(st: State, id: string, left: seq<int>, clock: Clock, o: int)
    requires LeftPending(st, id, left, clock)
    ensures StillPending(st, id, o) <==> o in left
  {
  }

  ghost predicate StillPending(st: State, id: string, o: int) {
    && Pending(st.pending, id).Some? && Pending(st.pending, id).value.schedule.ICalSchedule?
    && o in Pending(st.pending, id).value.schedule.occurrences
  }

  // --- The queue --------------------------------------------------------------------------

  /** The queue that some traffic leads to. */
  function Replay(queue: seq<Event>, traffic: seq<Traffic>): seq<Event>
    decreases |traffic|
  {
    if traffic == [] then queue
    else
      var rest := traffic[1..];
      match traffic[0]
      case Direct(e) => Replay(Queued(queue, e), rest)
      case Raise(_, _, _, e) => Replay(Queued(queue, e), rest)
      case Popped => Replay(if queue == [] then [] else queue[1..], rest)
  }

  lemma {:induction false} ReplayConcat(queue: seq<Event>, a: seq<Traffic>, b: seq<Traffic>)
    ensures Replay(queue, a + b) == Replay(Replay(queue, a), b)
    decreases |a|
  {
    if a == [] {
      assert a + b == b;
    } else {
      hide Queued;
      assert (a + b)[1..] == a[1..] + b;
      match a[0]
      case Direct(e) => ReplayConcat(Queued(queue, e), a[1..], b);
      case Raise(_, _, _, e) => ReplayConcat(Queued(queue, e), a[1..], b);
      case Popped => ReplayConcat(if queue == [] then [] else queue[1..], a[1..], b);
    }
  }

  /** The raises of a pass are, one by one, the events it pushes. */
  lemma {:induction false} RaisesArePushed(pending: seq<Scheduled>, now: int)
    ensures var raises, events := Raises(pending, now), RaisedEvents(pending, now);
      |raises| == |events| && forall i | 0 <= i < |raises| :: raises[i].Raise? && raises[i].event == events[i]
  {
    if pending != [] {
      hide Pass, Stripped;
      RaisesArePushed(pending[1..], now);
    }
  }

  lemma {:induction false} ReplayRaises(queue: seq<Event>, raises: seq<Traffic>, events: seq<Event>)
    requires |raises| == |events| && forall i | 0 <= i < |raises| :: raises[i].Raise? && raises[i].event == events[i]
    ensures Replay(queue, raises) == QueuedAll(queue, events)
    decreases |raises|
  {
    if raises != [] {
      hide Queued;
      ReplayRaises(Queued(queue, events[0]), raises[1..], events[1..]);
    }
  }

  /** In every run the queue is what its history of pushes, raises and pops makes of it. */
  lemma {:induction false} QueueIsReplay(calendar: Calendar, st: State, steps: seq<Step>)
    requires st.queue == Replay([], st.history)
    ensures var st' := Exec(calendar, st, steps); st'.queue == Replay([], st'.history)
    decreases |steps|
  {
    if steps != [] {
      ReplayStep(calendar, st, steps[0]);
      hide Next, Replay;
      QueueIsReplay(calendar, Next(calendar, st, steps[0]), steps[1..]);
    }
  }

  lemma ReplayStep(calendar: Calendar, st: State, step: Step)
    requires st.queue == Replay([], st.history)
    ensures var st' := Next(calendar, st, step); st'.queue == Replay([], st'.history)
  {
    match step
    case Push(e, now) =>
      hide Queued, ScheduleFromEvent;
      ReplayConcat([], st.history, [Direct(e)]);
    case PassAt(now) =>
      hide Queued, Replay, Raises, RaisedEvents;
      ReplayConcat([], st.history, Raises(st.pending, now));
      RaisesArePushed(st.pending, now);
      ReplayRaises(st.queue, Raises(st.pending, now), RaisedEvents(st.pending, now));
    case Pop =>
      hide Queued;
      ReplayConcat([], st.history, [Popped]);
  }

  // --- Events with an invalid time --------------------------------------------------------

  /** What a time says: a date or a positive offset, "at once" by an offset of 0, or nothing. */
  datatype TimeText = Later(when: int) | AtOnce | Invalid

  function TimeOf(calendar: Calendar, time: string, now: int): TimeText {
    if |time| < 2 then Invalid
    else if time[0] == '+' then
      match Numbers.StrToInt(time[1..])
      case None => Invalid
      case Some(offset) => if offset > 0 then Later(now + offset) else if offset == 0 then AtOnce else Invalid
    else
      match calendar.parseTime(time)
      case None => Invalid
      case Some(when) => Later(when)
  }

  /** An event with a time goes straight to the queue, and not to the runner, if and only if it says so
      or its time is invalid. */
  lemma InvalidTimeQueued(calendar: Calendar, st: State, e: Event, now: nat)
    requires e.time.Some?
    ensures var st', time := Next(calendar, st, Push(e, now)), TimeOf(calendar, e.time.value, now);
      && (time.AtOnce? || time.Invalid? <==> st'.history == st.history + [Direct(e)])
      && (time.AtOnce? || time.Invalid? ==>
            && st'.queue == Queued(st.queue, e) && st'.pending == st.pending
            && st'.monitor == st.monitor && st'.counter == st.counter)
      && (time.Later? ==>
            && st'.queue == st.queue && st'.history == st.history && st'.counter == st.counter + 1
            && ScheduleFromEvent(calendar, e, now) == Some(StaticSchedule(time.when)))
  {
    hide Queued, WithEvent, ScheduledId, Added;
    assert |st.history| != |st.history + [Direct(e)]|;
  }

  /** For instance "+x", at once although no time is given. */
  lemma InvalidTimeExample(calendar: Calendar, monitor: Option<Node>, e: Event, now: nat)
    requires e.time == Some("+x")
    ensures TimeOf(calendar, "+x", now) == Invalid && Next(calendar, Init(monitor), Push(e, now)).queue == [e]
  {
    assert "+x"[1..] == "x";
    assert Numbers.DigitValue("x"[0]) == 16;
  }
}
