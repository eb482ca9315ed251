/** Unique events: at most one is pending or queued for each key, and merging keeps the schedule of
    the first while taking the properties of the last. */
module UniqueEvents {
  import opened EventMonitor
  import opened Events
  import opened EventRuns
  import opened Schedule
  import opened Strings

  /** At most one pending event has the key, and it is unique. */
  ghost predicate OnePending(pending: seq<Scheduled>, key: Key) {
    && (forall i | 0 <= i < |pending| && KeyOf(pending[i].event) == key :: IsUnique(pending[i].event))
    && forall i, j | 0 <= i < j < |pending| :: KeyOf(pending[i].event) == key ==> KeyOf(pending[j].event) != key
  }

  ghost predicate OneQueued(queue: seq<Event>, key: Key) {
    && (forall i | 0 <= i < |queue| && KeyOf(queue[i]) == key :: IsUnique(queue[i]))
    && forall i, j | 0 <= i < j < |queue| :: KeyOf(queue[i]) == key ==> KeyOf(queue[j]) != key
  }

  ghost predicate OneOfKey(st: State, key: Key) {
    OnePending(st.pending, key) && OneQueued(st.queue, key)
  }

  /** All events of the key are unique. */
  predicate UniqueStep(step: Step, key: Key) {
    step.Push? && KeyOf(step.event) == key ==> IsUnique(step.event)
  }

  lemma WithEventOne(pending: seq<Scheduled>, s: Scheduled, key: Key)
    requires OnePending(pending, key) && (KeyOf(s.event) == key ==> IsUnique(s.event))
    ensures OnePending(WithEvent(pending, s), key)
  {
  }

  lemma QueuedOne(queue: seq<Event>, e: Event, key: Key)
    requires OneQueued(queue, key) && (KeyOf(e) == key ==> IsUnique(e))
    ensures OneQueued(Queued(queue, e), key)
  {
  }

  lemma StrippedKey(e: Event)
    ensures KeyOf(Stripped(e)) == KeyOf(e) && IsUnique(Stripped(e)) == IsUnique(e)
  {
  }

  lemma LoopedOne(pending: seq<Scheduled>, now: int, key: Key)
    requires OnePending(pending, key)
    ensures OnePending(Looped(pending, now), key)
  {
    hide Pass, IsUnique;
    forall i | 0 <= i < |pending|
      ensures KeyOf(EventAfter(pending[i], now)) == KeyOf(pending[i].event)
           && IsUnique(EventAfter(pending[i], now)) == IsUnique(pending[i].event)
    {
      StrippedKey(pending[i].event);
    }
  }

  lemma {:induction false} WithoutIdOne(pending: seq<Scheduled>, id: string, key: Key)
    requires OnePending(pending, key)
    ensures OnePending(WithoutId(pending, id), key)
    ensures forall s | s in WithoutId(pending, id) :: s in pending
  {
    if pending != [] && pending[0].id != id {
      OneTail(pending, key);
      WithoutIdOne(pending[1..], id, key);
      var rest := WithoutId(pending[1..], id);
      forall i | 0 <= i < |rest| && KeyOf(pending[0].event) == key ensures KeyOf(rest[i].event) != key {
        assert rest[i] in pending[1..];
      }
    } else if pending != [] {
      OneTail(pending, key);
    }
  }

  lemma OneTail(pending: seq<Scheduled>, key: Key)
    requires pending != [] && OnePending(pending, key)
    ensures OnePending(pending[1..], key)
    ensures KeyOf(pending[0].event) == key ==> forall s | s in pending[1..] :: KeyOf(s.event) != key
  {
  }

  lemma {:induction false} WithoutIdsOne(pending: seq<Scheduled>, ids: seq<string>, key: Key)
    requires OnePending(pending, key)
    ensures OnePending(WithoutIds(pending, ids), key)
    decreases |ids|
  {
    if ids != [] {
      WithoutIdOne(pending, ids[0], key);
      WithoutIdsOne(WithoutId(pending, ids[0]), ids[1..], key);
    }
  }

  lemma {:induction false} QueuedAllOne(queue: seq<Event>, events: seq<Event>, key: Key)
    requires OneQueued(queue, key) && forall e | e in events && KeyOf(e) == key :: IsUnique(e)
    ensures OneQueued(QueuedAll(queue, events), key)
    decreases |events|
  {
    if events != [] {
      hide Queued, IsUnique, OneQueued;
      QueuedOne(queue, events[0], key);
      QueuedAllOne(Queued(queue, events[0]), events[1..], key);
    }
  }

  lemma {:induction false} RaisedUnique(pending: seq<Scheduled>, now: int, key: Key)
    requires OnePending(pending, key)
    ensures forall e | e in RaisedEvents(pending, now) && KeyOf(e) == key :: IsUnique(e)
  {
    if pending != [] {
      hide IsUnique, Pass;
      OneTail(pending, key);
      RaisedUnique(pending[1..], now, key);
      StrippedKey(pending[0].event);
    }
  }

  lemma StepOne(calendar: Calendar, st: State, step: Step, key: Key)
    requires OneOfKey(st, key) && UniqueStep(step, key)
    ensures OneOfKey(Next(calendar, st, step), key)
  {
    hide OnePending, OneQueued, ScheduleFromEvent, WithEvent, Queued, QueuedAll, Announced, LookedUpAll, TouchedAll;
    match step
    case Push(e, now) =>
      QueuedOne(st.queue, e, key);
      var schedule := ScheduleFromEvent(calendar, e, now);
      if schedule.Some? {
        WithEventOne(st.pending, Scheduled(ScheduledId(st.counter, now, e.name), e, schedule.value), key);
      }
    case PassAt(now) =>
      LoopedOne(st.pending, now, key);
      var looped, ended := LoopedOver(st.Runs(), now), EndedIds(st.pending, now);
      RemovedAllIds(looped, ended);
      WithoutIdsOne(looped.pending, LookedUpAll(looped.monitor, ended), key);
      RaisedUnique(st.pending, now, key);
      QueuedAllOne(st.queue, RaisedEvents(st.pending, now), key);
    case Pop =>
      QueueTail(st.queue, key);
  }

  lemma QueueTail(queue: seq<Event>, key: Key)
    requires OneQueued(queue, key)
    ensures queue != [] ==> OneQueued(queue[1..], key)
  {
  }

  /** While all events of a key are unique, no reachable state has two of them pending or queued. */
  lemma {:induction false} RunKeepsOne(calendar: Calendar, st: State, steps: seq<Step>, key: Key)
    requires OneOfKey(st, key) && forall i | 0 <= i < |steps| :: UniqueStep(steps[i], key)
    ensures OneOfKey(Exec(calendar, st, steps), key)
    decreases |steps|
  {
    if steps != [] {
      hide OneOfKey, Next;
      StepOne(calendar, st, steps[0], key);
      RunKeepsOne(calendar, Next(calendar, st, steps[0]), steps[1..], key);
    }
  }

  // --- First schedule, last properties ----------------------------------------------------

  /** The properties of the last event of a key that is pushed with a schedule. */
  function LastProperties(calendar: Calendar, steps: seq<Step>, key: Key, properties: map<string, string>)
      : map<string, string>
    decreases |steps|
  {
    if steps == [] then properties
    else if steps[0].Push? && KeyOf(steps[0].event) == key
            && ScheduleFromEvent(calendar, steps[0].event, steps[0].now).Some? then
      LastProperties(calendar, steps[1..], key, steps[0].event.properties)
    else LastProperties(calendar, steps[1..], key, properties)
  }

  ghost predicate MergeTarget(st: State, id: string, key: Key, when: int, properties: map<string, string>) {
    && OneOfKey(st, key) && PendingAs(st, id, StaticSchedule(when))
    && KeyOf(Pending(st.pending, id).value.event) == key
    && Pending(st.pending, id).value.event.properties == properties
  }

  /** A unique event of the key is merged into the one that is pending. */
  lemma MergeHits(pending: seq<Scheduled>, s: Scheduled, id: string, key: Key)
    requires OnePending(pending, key) && Pending(pending, id).Some? && s.id != id && DistinctIds(pending)
    requires KeyOf(Pending(pending, id).value.event) == key && KeyOf(s.event) == key && IsUnique(s.event)
    ensures var y := Pending(WithEvent(pending, s), id);
      y.Some? && y.value.event == MergedInto(s.event, Pending(pending, id).value.event)
  {
    hide IsUnique, MergedInto;
    var x, k := Pending(pending, id).value, FirstOfKey(pending, key);
    var i :| 0 <= i < |pending| && pending[i] == x;
    assert k == i;
    hide OnePending;
    AtIndex(pending, i, x.(event := MergedInto(s.event, x.event)));
  }

  lemma PushMerges(calendar: Calendar, st: State, e: Event, now: nat, id: string, key: Key, when: int)
    requires Inv(st) && UniqueStep(Push(e, now), key)
    requires PendingAs(st, id, StaticSchedule(when)) && OnePending(st.pending, key)
    requires KeyOf(Pending(st.pending, id).value.event) == key
    ensures var x, y := Pending(st.pending, id).value, Pending(Next(calendar, st, Push(e, now)).pending, id);
      && y.Some? && KeyOf(y.value.event) == key
      && y.value.event.properties
         == if KeyOf(e) == key && ScheduleFromEvent(calendar, e, now).Some? then e.properties else x.event.properties
  {
    hide OnePending, ScheduleFromEvent, ScheduledId, WithEvent, IsUnique, Used, Added, Merges, MergedInto;
    PendingIsUsed(st, id);
    FreshId(st, now, e.name, id);
    var schedule := ScheduleFromEvent(calendar, e, now);
    if schedule.Some? {
      var s := Scheduled(ScheduledId(st.counter, now, e.name), e, schedule.value);
      AddedPending(st.Runs(), s);
      if KeyOf(e) == key {
        KeyMerges(st.pending, s, Pending(st.pending, id).value);
        MergeHits(st.pending, s, id, key);
        MergedFields(e, Pending(st.pending, id).value.event);
      } else {
        WithEventPending(st.pending, s, id);
      }
    }
  }

  lemma MergedFields(e: Event, pending: Event)
    ensures KeyOf(MergedInto(e, pending)) == KeyOf(pending) && MergedInto(e, pending).properties == e.properties
  {
  }

  lemma PendingIsUsed(st: State, id: string)
    requires Inv(st) && Pending(st.pending, id).Some?
    ensures Used(st, id)
  {
    assert Pending(st.pending, id).value in st.pending;
  }

  lemma MergeStep(calendar: Calendar, st: State, step: Step, id: string, key: Key, when: int,
                  properties: map<string, string>)
    requires ValidCalendar(calendar) && Inv(st) && InTime(step) && UniqueStep(step, key) && !DueAt(step, when)
    requires Clean(st, step) && MergeTarget(st, id, key, when, properties)
    ensures var merges := step.Push? && KeyOf(step.event) == key
                          && ScheduleFromEvent(calendar, step.event, step.now).Some?;
      MergeTarget(Next(calendar, st, step), id, key, when, if merges then step.event.properties else properties)
    ensures Inv(Next(calendar, st, step))
  {
    hide ValidCalendar, Inv, InTime, UniqueStep, OneOfKey, Next, Pass, ScheduleFromEvent, Clean;
    StepOne(calendar, st, step, key);
    StepKeepsInv(calendar, st, step);
    OneShotStep(calendar, st, step, id, when);
    OneParts(st, key);
    match step
    case Push(e, now) => PushMerges(calendar, st, e, now, id, key, when);
    case PassAt(now) =>
      NotDuePasses(calendar, st, now, id, when);
    case Pop => PopKeeps(calendar, st);
  }

  lemma OneParts(st: State, key: Key)
    requires OneOfKey(st, key)
    ensures OnePending(st.pending, key)
  {
  }

  lemma PopKeeps(calendar: Calendar, st: State)
    ensures Next(calendar, st, Pop).pending == st.pending
  {
  }

  lemma NotDuePasses(calendar: Calendar, st: State, now: nat, id: string, when: int)
    requires Inv(st) && PendingAs(st, id, StaticSchedule(when)) && now < when && Clean(st, PassAt(now))
    ensures Pending(Next(calendar, st, PassAt(now)).pending, id) == Pending(st.pending, id)
  {
    var s := Pending(st.pending, id).value;
    assert NextOccurrence(s.schedule, now).time == when;
    hide Inv, Next, Clean;
    NotDueUntouched(calendar, st, now, s);
  }

  /** Until it is due, a pending unique event keeps the schedule it was first accepted with, however
      often it is raised again, and carries the properties of the last one merged into it. */
  lemma {:induction false} MergingNeverPostpones(calendar: Calendar, st: State, steps: seq<Step>, id: string, key: Key,
                                                 when: int, properties: map<string, string>)
    requires ValidCalendar(calendar) && Inv(st) && MergeTarget(st, id, key, when, properties)
    requires CleanRun(calendar, st, steps)
    requires forall i | 0 <= i < |steps| :: InTime(steps[i]) && UniqueStep(steps[i], key) && !DueAt(steps[i], when)
    ensures MergeTarget(Exec(calendar, st, steps), id, key, when, LastProperties(calendar, steps, key, properties))
    decreases |steps|
  {
    if steps != [] {
      hide ValidCalendar, Inv, InTime, UniqueStep, DueAt, MergeTarget, Next, ScheduleFromEvent, Clean;
      MergeStep(calendar, st, steps[0], id, key, when, properties);
      var step := steps[0];
      var merges := step.Push? && KeyOf(step.event) == key
                    && ScheduleFromEvent(calendar, step.event, step.now).Some?;
      MergingNeverPostpones(calendar, Next(calendar, st, step), steps[1..], id, key, when,
                            if merges then step.event.properties else properties);
    }
  }

  // --- The pass that finds it due ---------------------------------------------------------

  ghost predicate InQueue(queue: seq<Event>, key: Key, properties: map<string, string>) {
    exists i :: 0 <= i < |queue| && KeyOf(queue[i]) == key && queue[i].properties == properties
  }

  lemma QueuedArrives(queue: seq<Event>, e: Event, key: Key, properties: map<string, string>)
    requires if KeyOf(e) == key then e.properties == properties else InQueue(queue, key, properties)
    ensures InQueue(Queued(queue, e), key, properties)
  {
    var k, r := FirstInQueue(queue, KeyOf(e)), Queued(queue, e);
    if KeyOf(e) == key {
      var i := if IsUnique(e) && k < |queue| then k else |queue|;
      assert KeyOf(r[i]) == key && r[i].properties == properties;
    } else {
      var i :| 0 <= i < |queue| && KeyOf(queue[i]) == key && queue[i].properties == properties;
      assert r[i] == queue[i];
    }
  }

  lemma {:induction false} AllArrive(queue: seq<Event>, events: seq<Event>, key: Key, properties: map<string, string>)
    requires forall e | e in events && KeyOf(e) == key :: e.properties == properties
    requires InQueue(queue, key, properties) || exists e :: e in events && KeyOf(e) == key
    ensures InQueue(QueuedAll(queue, events), key, properties)
    decreases |events|
  {
    if events != [] {
      hide InQueue, Queued;
      assert events == [events[0]] + events[1..];
      if KeyOf(events[0]) == key || InQueue(queue, key, properties) {
        QueuedArrives(queue, events[0], key, properties);
      }
      AllArrive(Queued(queue, events[0]), events[1..], key, properties);
    }
  }

  /** The only event of a key that a pass pushes is the pending one. */
  lemma {:induction false} RaisedOfKey(pending: seq<Scheduled>, now: int, key: Key, s: Scheduled)
    requires OnePending(pending, key) && s in pending && KeyOf(s.event) == key
    ensures forall e | e in RaisedEvents(pending, now) && KeyOf(e) == key :: e == Stripped(s.event)
    ensures Pass(s.schedule, now).raised != [] ==> Stripped(s.event) in RaisedEvents(pending, now)
  {
    hide Pass, IsUnique;
    OneTail(pending, key);
    StrippedKey(pending[0].event);
    if pending[0] == s {
      NoneRaisedOfKey(pending[1..], now, key);
    } else {
      assert s in pending[1..];
      RaisedOfKey(pending[1..], now, key, s);
    }
  }

  lemma {:induction false} NoneRaisedOfKey(pending: seq<Scheduled>, now: int, key: Key)
    requires forall s | s in pending :: KeyOf(s.event) != key
    ensures forall e | e in RaisedEvents(pending, now) :: KeyOf(e) != key
  {
    if pending != [] {
      hide Pass, IsUnique;
      NoneRaisedOfKey(pending[1..], now, key);
      StrippedKey(pending[0].event);
    }
  }

  lemma DuePassArrives(calendar: Calendar, st: State, now: nat, id: string, key: Key, when: int,
                       properties: map<string, string>)
    requires MergeTarget(st, id, key, when, properties) && when <= now && now > 0
    ensures InQueue(Next(calendar, st, PassAt(now)).queue, key, properties - {"iCalStartTime", "iCalRRule"})
  {
    var s := Pending(st.pending, id).value;
    StaticPass(when, now);
    RaisedOfKey(st.pending, now, key, s);
    StrippedKey(s.event);
    hide Pass, OneOfKey, InQueue, QueuedAll, RaisedEvents, PassedOver;
    AllArrive(st.queue, RaisedEvents(st.pending, now), key, properties - {"iCalStartTime", "iCalRRule"});
  }

  /** And the first pass that finds it due pushes it, once, with those properties but its schedule; it
      is then the one event of its key in the queue. */
  lemma PushedWithLastProperties(calendar: Calendar, st: State, steps: seq<Step>, id: string, key: Key, when: int,
                                 properties: map<string, string>) returns (e: Event)
    requires ValidCalendar(calendar) && Inv(st) && MergeTarget(st, id, key, when, properties)
    requires CleanRun(calendar, st, steps)
    requires forall i | 0 <= i < |steps| :: InTime(steps[i]) && UniqueStep(steps[i], key)
    requires FirstDue(steps, when) < |steps|
    ensures var d := FirstDue(steps, when);
      var after := Next(calendar, Exec(calendar, st, steps[..d]), steps[d]);
      && KeyOf(e) == key && e.time == None
      && e.properties == LastProperties(calendar, steps[..d], key, properties) - {"iCalStartTime", "iCalRRule"}
      && RaisesOf(Exec(calendar, st, steps).history, id)
         == RaisesOf(st.history, id) + [Raise(id, steps[d].now, steps[d].now, e)]
      && InQueue(after.queue, key, e.properties) && OneOfKey(after, key)
  {
    hide ValidCalendar, Inv, Next, Exec, RaisesOf, OneOfKey, InQueue, LastProperties, FirstDue, CleanRun;
    var d := FirstDue(steps, when);
    OneShot(calendar, st, steps, id, when);
    CleanPrefix(calendar, st, steps, d);
    MergingNeverPostpones(calendar, st, steps[..d], id, key, when, properties);
    var before := Exec(calendar, st, steps[..d]);
    var last := LastProperties(calendar, steps[..d], key, properties);
    DuePassArrives(calendar, before, steps[d].now, id, key, when, last);
    StepOne(calendar, before, steps[d], key);
    e := Stripped(Pending(before.pending, id).value.event);
  }
}
