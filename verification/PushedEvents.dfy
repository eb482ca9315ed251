/** What pushEvent and addEvent of `src/event.cpp` make of an event, by its fields: what it is merged
    into, and when it is due. */
module PushedEvents {
  import opened EventMonitor
  import opened Events
  import opened EventRuns
  import opened Exceptions
  import opened Schedule
  import opened Strings
  import Numbers

  // --- Merging ----------------------------------------------------------------------------

  /** One event may stand for the other. */
  predicate Alike(a: Event, b: Event) {
    a.name == b.name && a.context == b.context && a.location == b.location
  }

  predicate AsksUnique(e: Event) {
    "unique" in e.properties && e.properties["unique"] != ""
  }

  /** An event that takes the properties of another, and its time if it has one. */
  function Taking(e: Event, into: Event): Event {
    Event(into.name, into.location, into.context, if e.time.Some? then e.time else into.time, e.properties)
  }

  /** k is the first of the events that e may stand for. */
  predicate FirstAlike(events: seq<Event>, e: Event, k: nat) {
    k < |events| && Alike(events[k], e) && forall j | 0 <= j < k :: !Alike(events[j], e)
  }

  predicate NoneAlike(events: seq<Event>, e: Event) {
    forall j | 0 <= j < |events| :: !Alike(events[j], e)
  }

  lemma SameKey(a: Event, b: Event)
    ensures KeyOf(a) == KeyOf(b) <==> Alike(a, b)
    ensures IsUnique(a) <==> AsksUnique(a)
    ensures MergedInto(a, b) == Taking(a, b)
  {
  }

  /** An event without a schedule is added to the queue if and only if it is not unique or no queued
      event has its name, context and location; otherwise the first of these changes and no other. */
  lemma QueuedExactly(queue: seq<Event>, e: Event)
    ensures var after := Queued(queue, e);
      if !AsksUnique(e) || NoneAlike(queue, e) then after == queue + [e]
      else exists k: nat :: FirstAlike(queue, e, k) && after == queue[k := Taking(e, queue[k])]
  {
    var k := FirstInQueue(queue, KeyOf(e));
    forall i | 0 <= i < |queue| ensures KeyOf(queue[i]) == KeyOf(e) <==> Alike(queue[i], e) {
      SameKey(queue[i], e);
    }
    SameKey(e, e);
    hide IsUnique, KeyOf, Alike, AsksUnique, MergedInto, Taking;
    if k < |queue| {
      SameKey(e, queue[k]);
      assert FirstAlike(queue, e, k);
    }
  }

  function EventsOf(pending: seq<Scheduled>): (r: seq<Event>)
    ensures |r| == |pending| && forall i | 0 <= i < |r| :: r[i] == pending[i].event
  {
    if pending == [] then [] else [pending[0].event] + EventsOf(pending[1..])
  }

  /** As for the queue; an event that is merged leaves ID and schedule of the pending one as they are. */
  lemma PendingExactly(pending: seq<Scheduled>, s: Scheduled)
    ensures var events, after := EventsOf(pending), WithEvent(pending, s);
      if !AsksUnique(s.event) || NoneAlike(events, s.event) then after == pending + [s]
      else exists k: nat :: FirstAlike(events, s.event, k)
             && after == pending[k := pending[k].(event := Taking(s.event, pending[k].event))]
    ensures Merges(pending, s) <==> AsksUnique(s.event) && !NoneAlike(EventsOf(pending), s.event)
  {
    var events, k := EventsOf(pending), FirstOfKey(pending, KeyOf(s.event));
    forall i | 0 <= i < |pending| ensures KeyOf(pending[i].event) == KeyOf(s.event) <==> Alike(events[i], s.event) {
      SameKey(pending[i].event, s.event);
    }
    SameKey(s.event, s.event);
    hide IsUnique, KeyOf, Alike, AsksUnique, MergedInto, Taking, EventsOf;
    if k < |pending| {
      SameKey(s.event, pending[k].event);
      assert FirstAlike(events, s.event, k);
    }
  }

  /** addEvent: where an event is to be added, showing it in the monitor node may throw, and then it is
      not. */
  lemma AddedExactly(r: Runner, s: Scheduled)
    ensures var events, added := EventsOf(r.pending), Added(r, s);
      if !AsksUnique(s.event) || NoneAlike(events, s.event) then
        && (r.monitor.None? ==> added.result.Ok?)
        && added.runner.pending == if added.result.Ok? then r.pending + [s] else r.pending
      else
        && added.result.Ok? && added.runner.monitor == r.monitor
        && exists k: nat :: FirstAlike(events, s.event, k)
             && added.runner.pending == r.pending[k := r.pending[k].(event := Taking(s.event, r.pending[k].event))]
  {
    hide WithEvent, Merges, Announced, AsksUnique, NoneAlike, FirstAlike, Taking, EventsOf;
    PendingExactly(r.pending, s);
  }

  // --- When it is due ---------------------------------------------------------------------

  /** A relative time is that many seconds away; without a second to wait there is no schedule. */
  lemma RelativeTime(calendar: Calendar, e: Event, now: int, n: int)
    requires -Numbers.TWO_TO_THE_31 <= n < Numbers.TWO_TO_THE_31
    requires e.time == Some("+" + Numbers.IntToString(n))
    ensures ScheduleFromEvent(calendar, e, now) == if n > 0 then Some(StaticSchedule(now + n)) else None
    ensures TimeOf(calendar, e.time.value, now) == if n > 0 then Later(now + n) else if n == 0 then AtOnce else Invalid
  {
    hide Numbers.StrToInt, Numbers.IntToString;
    var text := Numbers.IntToString(n);
    Numbers.IntRoundTrip(n);
    Printed(n);
    assert ("+" + text)[1..] == text;
  }

  lemma Printed(n: int)
    ensures Numbers.IntToString(n) != ""
  {
  }

  /** Any other time is a date or no time; a recurrence beside it is disregarded. */
  lemma AbsoluteTime(calendar: Calendar, e: Event, now: int)
    requires e.time.Some? && (e.time.value == "" || e.time.value[0] != '+')
    ensures var date := if |e.time.value| < 2 then None else calendar.parseTime(e.time.value);
      ScheduleFromEvent(calendar, e, now) == match date
                                             case None => None
                                             case Some(when) => Some(StaticSchedule(when))
  {
  }

  /** A recurrence without a time yields exactly the occurrences of its rule and start that are not
      past, by the clock of its start. */
  ghost predicate DueFrom(calendar: Calendar, rule: string, start: string, now: int, schedule: Schedule) {
    var all := calendar.occurrences(rule, start);
    && schedule.ICalSchedule?
    && schedule.clock.offset == calendar.offset && schedule.clock.utc == calendar.startsInUtc(start)
    && (forall t :: t in schedule.occurrences <==> t in all && t >= now)
    && Increasing(schedule.occurrences)
  }

  lemma RecurrenceTimes(calendar: Calendar, e: Event, now: int)
    requires ValidCalendar(calendar) && e.time.None?
    ensures var schedule := ScheduleFromEvent(calendar, e, now);
      if "iCalStartTime" in e.properties && "iCalRRule" in e.properties then
        && schedule.Some?
        && DueFrom(calendar, e.properties["iCalRRule"], e.properties["iCalStartTime"], now, schedule.value)
      else schedule.None?
  {
    if "iCalStartTime" in e.properties && "iCalRRule" in e.properties {
      var all := calendar.occurrences(e.properties["iCalRRule"], e.properties["iCalStartTime"]);
      RestLater(all, now);
      NotPast(all, now);
    }
  }

  lemma NotPast(all: seq<int>, now: int)
    requires Increasing(all)
    ensures forall t :: t in NotBefore(all, now) <==> t in all && t >= now
  {
    NotBeforeSuffix(all, now);
    var k := |all| - |NotBefore(all, now)|;
    forall t | t in all && t >= now ensures t in NotBefore(all, now) {
      var i :| 0 <= i < |all| && all[i] == t;
      assert i >= k && all[k..][i - k] == t;
    }
  }

  /** A recurring event that replaces none is pending with these occurrences after pushEvent, and with
      its fields as they were. */
  lemma PushedRecurrence(calendar: Calendar, st: State, e: Event, now: nat)
    requires ValidCalendar(calendar) && Inv(st) && st.monitor.None?
    requires e.time.None? && "iCalStartTime" in e.properties && "iCalRRule" in e.properties
    requires !AsksUnique(e) || NoneAlike(EventsOf(st.pending), e)
    ensures var id := ScheduledId(st.counter, now, e.name);
      var p := Pending(Next(calendar, st, Push(e, now)).pending, id);
      && p.Some? && p.value.event == e && p.value.id == id
      && DueFrom(calendar, e.properties["iCalRRule"], e.properties["iCalStartTime"], now, p.value.schedule)
  {
    hide Inv, ValidCalendar, ScheduleFromEvent, ScheduledId, Announced, DueFrom;
    RecurrenceTimes(calendar, e, now);
    NotReplacing(st, e);
    PushedIsPending(calendar, st, e, now);
  }

  /** And so is one with a relative time, due that many seconds later. */
  lemma PushedRelative(calendar: Calendar, st: State, e: Event, now: nat, n: int)
    requires Inv(st) && st.monitor.None? && 0 < n < Numbers.TWO_TO_THE_31
    requires e.time == Some("+" + Numbers.IntToString(n))
    requires !AsksUnique(e) || NoneAlike(EventsOf(st.pending), e)
    ensures var id := ScheduledId(st.counter, now, e.name);
      Pending(Next(calendar, st, Push(e, now)).pending, id) == Some(Scheduled(id, e, StaticSchedule(now + n)))
  {
    hide Inv, ScheduleFromEvent, ScheduledId, Announced;
    RelativeTime(calendar, e, now, n);
    NotReplacing(st, e);
    PushedIsPending(calendar, st, e, now);
  }

  lemma NotReplacing(st: State, e: Event)
    requires !AsksUnique(e) || NoneAlike(EventsOf(st.pending), e)
    ensures !IsUnique(e) || forall s | s in st.pending :: KeyOf(s.event) != KeyOf(e)
  {
    SameKey(e, e);
    forall s | s in st.pending && AsksUnique(e) ensures KeyOf(s.event) != KeyOf(e) {
      var i :| 0 <= i < |st.pending| && st.pending[i] == s;
      assert !Alike(EventsOf(st.pending)[i], e);
    }
  }

  // --- What is raised ---------------------------------------------------------------------

  /** A raised event keeps its name, location and context, and loses its time and its recurrence and
      nothing else. */
  lemma RaisedFields(e: Event)
    ensures var r := Stripped(e);
      && Alike(r, e) && r.time == None
      && r.properties
         == map p | p in e.properties && p != "iCalStartTime" && p != "iCalRRule" :: e.properties[p]
  {
  }

  /** The ID of an event: the number of scheduled events before it, the time, and its name. */
  lemma IdText(counter: nat, now: nat, name: string)
    ensures ScheduledId(counter, now, name)
         == Numbers.IntToString(counter) + "-" + Numbers.IntToString(now) + "_" + name
  {
    hide Numbers.NatToString;
  }
}
