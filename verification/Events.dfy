/** Events, the queue and the runner of `src/event.cpp`, as values and one thread at a time. */
module Events {
  import opened Schedule
  import opened Strings
  import Numbers

  datatype Event = Event(
    name: string, location: string, context: string, time: Option<string>, properties: map<string, string>)

  function Property(e: Event, name: string): string {
    if name in e.properties then e.properties[name] else ""
  }

  predicate IsUnique(e: Event) {
    Property(e, "unique") != ""
  }

  /** isReplacementFor */
  datatype Key = Key(name: string, context: string, location: string)

  function KeyOf(e: Event): Key {
    Key(e.name, e.context, e.location)
  }

  /** setProperties, and setTime where a time is set. */
  function MergedInto(e: Event, pending: Event): Event {
    pending.(properties := e.properties, time := if e.time.Some? then e.time else pending.time)
  }

  // --- Schedules of events ----------------------------------------------------------------

  /** Text of dates, and of recurrence rules with their start, and the UTC offset of the zone. */
  datatype Calendar = Calendar(
    parseTime: string -> Option<int>, occurrences: (string, string) -> seq<int>,
    offset: int, startsInUtc: string -> bool)

  ghost predicate ValidCalendar(calendar: Calendar) {
    forall rule, start :: Increasing(calendar.occurrences(rule, start))
  }

  /** scheduleFromEvent; without a schedule the event goes to the queue at once. */
  function ScheduleFromEvent(calendar: Calendar, e: Event, now: int): Option<Schedule> {
    if e.time.Some? then
      var time := e.time.value;
      if |time| < 2 then None
      else if time[0] == '+' then
        match Numbers.StrToInt(time[1..])
        case None => None
        case Some(offset) => if offset > 0 then Some(StaticSchedule(now + offset)) else None
      else match calendar.parseTime(time)
           case None => None
           case Some(when) => Some(StaticSchedule(when))
    else if "iCalStartTime" in e.properties && "iCalRRule" in e.properties then
      var rule, start := e.properties["iCalRRule"], e.properties["iCalStartTime"];
      Some(ICalSchedule(
             NotBefore(calendar.occurrences(rule, start), now), Clock(calendar.offset, calendar.startsInUtc(start))))
    else None
  }

  /** A raised event has lost its schedule. */
  function Stripped(e: Event): Event {
    e.(time := None, properties := e.properties - {"iCalStartTime", "iCalRRule"})
  }

  /** pushEvent on a raised event never comes back to the runner. */
  lemma StrippedHasNoSchedule(calendar: Calendar, e: Event, now: int)
    ensures ScheduleFromEvent(calendar, Stripped(e), now) == None
  {
  }

  // --- The pending events -----------------------------------------------------------------

  datatype Scheduled = Scheduled(id: string, event: Event, schedule: Schedule)

  function ScheduledId(counter: nat, now: nat, name: string): string {
    Numbers.NatToString(counter) + ("-" + (Numbers.NatToString(now) + ("_" + name)))
  }

  lemma DigitsBeforeDash(a: string, b: string, x: string, y: string)
    requires Numbers.AllDigits(a, 10) && Numbers.AllDigits(b, 10) && a + ("-" + x) == b + ("-" + y)
    ensures a == b
  {
    var s, t := a + ("-" + x), b + ("-" + y);
    assert s[|a|] == '-' && t[|b|] == '-';
    assert |a| == |b| by {
      assert forall i | 0 <= i < |b| :: t[i] == b[i];
      assert forall i | 0 <= i < |a| :: s[i] == a[i];
    }
    assert s[..|a|] == a && t[..|b|] == b;
  }

  /** Different counters give different IDs. */
  lemma IdsDiffer(counter: nat, now: nat, name: string, counter': nat, now': nat, name': string)
    requires ScheduledId(counter, now, name) == ScheduledId(counter', now', name')
    ensures counter == counter'
  {
    Numbers.NatToStringDigits(counter);
    Numbers.NatToStringDigits(counter');
    DigitsBeforeDash(Numbers.NatToString(counter), Numbers.NatToString(counter'),
                     Numbers.NatToString(now) + ("_" + name), Numbers.NatToString(now') + ("_" + name'));
    Numbers.NatToStringInjective(counter, counter');
  }

  /** The first pending event of a key; |pending| if there is none. */
  function FirstOfKey(pending: seq<Scheduled>, key: Key): (k: nat)
    ensures k <= |pending|
    ensures k < |pending| ==> KeyOf(pending[k].event) == key
    ensures forall i | 0 <= i < k :: KeyOf(pending[i].event) != key
  {
    if pending == [] || KeyOf(pending[0].event) == key then 0 else 1 + FirstOfKey(pending[1..], key)
  }

  /** addEvent */
  function WithEvent(pending: seq<Scheduled>, s: Scheduled): seq<Scheduled> {
    var k := FirstOfKey(pending, KeyOf(s.event));
    if IsUnique(s.event) && k < |pending| then
      pending[k := pending[k].(event := MergedInto(s.event, pending[k].event))]
    else pending + [s]
  }

  function WithoutId(pending: seq<Scheduled>, id: string): seq<Scheduled> {
    if pending == [] then [] else if pending[0].id == id then pending[1..] else [pending[0]] + WithoutId(pending[1..], id)
  }

  function WithoutIds(pending: seq<Scheduled>, ids: seq<string>): seq<Scheduled>
    decreases |ids|
  {
    if ids == [] then pending else WithoutIds(WithoutId(pending, ids[0]), ids[1..])
  }

  // --- The queue --------------------------------------------------------------------------

  function FirstInQueue(queue: seq<Event>, key: Key): (k: nat)
    ensures k <= |queue|
    ensures k < |queue| ==> KeyOf(queue[k]) == key
    ensures forall i | 0 <= i < k :: KeyOf(queue[i]) != key
  {
    if queue == [] || KeyOf(queue[0]) == key then 0 else 1 + FirstInQueue(queue[1..], key)
  }

  /** The queue branch of pushEvent. */
  function Queued(queue: seq<Event>, e: Event): seq<Event> {
    var k := FirstInQueue(queue, KeyOf(e));
    if IsUnique(e) && k < |queue| then queue[k := MergedInto(e, queue[k])] else queue + [e]
  }

  // --- One pass of the runner -------------------------------------------------------------

  /** What happens to the queue: an event without a schedule is pushed, the runner pushes a pending
      event for an occurrence, or an event is popped. */
  datatype Traffic =
    | Direct(event: Event)
    | Raise(id: string, occurrence: int, at: int, event: Event)
    | Popped

  function EventAfter(s: Scheduled, now: int): Event {
    if Pass(s.schedule, now).raised != [] then Stripped(s.event) else s.event
  }

  /** The pending events after the loop of raisePendingEvents, before any is removed. */
  function Looped(pending: seq<Scheduled>, now: int): (r: seq<Scheduled>)
    ensures |r| == |pending|
    ensures forall i | 0 <= i < |r| ::
      r[i] == Scheduled(pending[i].id, EventAfter(pending[i], now), Pass(pending[i].schedule, now).schedule)
  {
    if pending == [] then []
    else [Scheduled(pending[0].id, EventAfter(pending[0], now), Pass(pending[0].schedule, now).schedule)]
         + Looped(pending[1..], now)
  }

  function EndedIds(pending: seq<Scheduled>, now: int): seq<string> {
    if pending == [] then []
    else (if Pass(pending[0].schedule, now).ended then [pending[0].id] else []) + EndedIds(pending[1..], now)
  }

  function RaisedEvents(pending: seq<Scheduled>, now: int): seq<Event> {
    if pending == [] then []
    else (if Pass(pending[0].schedule, now).raised != [] then [Stripped(pending[0].event)] else [])
         + RaisedEvents(pending[1..], now)
  }

  function Raises(pending: seq<Scheduled>, now: int): seq<Traffic> {
    if pending == [] then [] else RaiseOf(Some(pending[0]), now) + Raises(pending[1..], now)
  }

  /** What a pass pushes for one pending event. */
  function RaiseOf(s: Option<Scheduled>, now: int): seq<Traffic> {
    match s
    case None => []
    case Some(x) =>
      var raised := Pass(x.schedule, now).raised;
      if raised == [] then [] else [Raise(x.id, raised[0], now, Stripped(x.event))]
  }

  function AfterPass(pending: seq<Scheduled>, now: int): seq<Scheduled> {
    WithoutIds(Looped(pending, now), EndedIds(pending, now))
  }

  function QueuedAll(queue: seq<Event>, events: seq<Event>): seq<Event>
    decreases |events|
  {
    if events == [] then queue else QueuedAll(Queued(queue, events[0]), events[1..])
  }

  lemma {:induction false} QueuedConcat(queue: seq<Event>, a: seq<Event>, b: seq<Event>)
    ensures QueuedAll(queue, a + b) == QueuedAll(QueuedAll(queue, a), b)
    decreases |a|
  {
    if a == [] {
      assert a + b == b;
    } else {
      assert (a + b)[1..] == a[1..] + b;
      QueuedConcat(Queued(queue, a[0]), a[1..], b);
    }
  }

  // --- What a pass does to each pending event ---------------------------------------------

  ghost predicate DistinctIds(pending: seq<Scheduled>) {
    forall i, j | 0 <= i < j < |pending| :: pending[i].id != pending[j].id
  }

  /** The pending event of an ID, if there is one. */
  function Pending(pending: seq<Scheduled>, id: string): (s: Option<Scheduled>)
    ensures s.Some? ==> s.value.id == id && s.value in pending
  {
    if pending == [] then None else if pending[0].id == id then Some(pending[0]) else Pending(pending[1..], id)
  }

  function Passing(s: Option<Scheduled>, now: int): Option<Scheduled> {
    match s
    case None => None
    case Some(x) =>
      var p := Pass(x.schedule, now);
      if p.ended then None else Some(Scheduled(x.id, EventAfter(x, now), p.schedule))
  }

  lemma {:induction false} WithoutIdPending(pending: seq<Scheduled>, gone: string, id: string)
    requires DistinctIds(pending)
    ensures DistinctIds(WithoutId(pending, gone))
    ensures Pending(WithoutId(pending, gone), id) == if gone == id then None else Pending(pending, id)
    ensures forall s | s in WithoutId(pending, gone) :: s in pending
  {
    if pending != [] {
      WithoutIdPending(pending[1..], gone, id);
      if pending[0].id != gone {
        var rest := WithoutId(pending[1..], gone);
        forall i | 0 <= i < |rest| ensures rest[i].id != pending[0].id {
          assert rest[i] in pending[1..];
        }
      }
    }
  }

  lemma {:induction false} AtIndex(pending: seq<Scheduled>, i: nat, s: Scheduled)
    requires DistinctIds(pending) && i < |pending| && s.id == pending[i].id
    ensures Pending(pending[i := s], s.id) == Some(s)
  {
    if i > 0 {
      assert pending[i := s][1..] == pending[1..][i - 1 := s];
      AtIndex(pending[1..], i - 1, s);
    }
  }

  lemma {:induction false} WithoutIdsPending(pending: seq<Scheduled>, ids: seq<string>, id: string)
    requires DistinctIds(pending)
    ensures DistinctIds(WithoutIds(pending, ids))
    ensures Pending(WithoutIds(pending, ids), id) == if id in ids then None else Pending(pending, id)
    decreases |ids|
  {
    if ids != [] {
      WithoutIdPending(pending, ids[0], id);
      WithoutIdsPending(WithoutId(pending, ids[0]), ids[1..], id);
    }
  }

  lemma {:induction false} LoopedPending(pending: seq<Scheduled>, now: int, id: string)
    requires DistinctIds(pending)
    ensures DistinctIds(Looped(pending, now))
    ensures match Pending(pending, id)
            case None => Pending(Looped(pending, now), id) == None && id !in EndedIds(pending, now)
            case Some(x) =>
              && Pending(Looped(pending, now), id)
                 == Some(Scheduled(id, EventAfter(x, now), Pass(x.schedule, now).schedule))
              && (id in EndedIds(pending, now) <==> Pass(x.schedule, now).ended)
  {
    if pending != [] {
      LoopedPending(pending[1..], now, id);
      hide Pass, EventAfter;
    }
  }

  /** Each pending event passes on its own. */
  lemma AfterPassPending(pending: seq<Scheduled>, now: int, id: string)
    requires DistinctIds(pending)
    ensures DistinctIds(AfterPass(pending, now))
    ensures Pending(AfterPass(pending, now), id) == Passing(Pending(pending, id), now)
  {
    hide Pass, EventAfter, Looped, EndedIds;
    LoopedPending(pending, now, id);
    WithoutIdsPending(Looped(pending, now), EndedIds(pending, now), id);
  }
}
