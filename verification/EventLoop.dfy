/** The event queue and the event runner of `src/event.cpp` as objects. */
module EventLoop {
  import opened EventMonitor
  import opened Events
  import opened Exceptions
  import opened Schedule
  import opened Strings
  import PropertyTree

  class EventRunner {
    var pending: seq<Scheduled>
    var monitor: Option<Node>   // m_MonitorNode

    ghost function Runs(): Runner
      reads this
    {
      Runner(pending, monitor)
    }

    constructor (monitor: Option<Node>)
      ensures Runs() == Runner([], monitor)
    {
      pending, this.monitor := [], monitor;
    }

    method AddEvent(s: Scheduled) returns (r: Result<()>)
      modifies this
      ensures AddedTo(Runs(), r) == Added(old(Runs()), s)
    {
      hide IsUnique;
      if IsUnique(s.event) {
        var i := 0;
        while i < |pending|
          invariant 0 <= i <= |pending| && Runs() == old(Runs())
          invariant i <= FirstOfKey(pending, KeyOf(s.event))
        {
          if KeyOf(s.event) == KeyOf(pending[i].event) {
            pending := pending[i := pending[i].(event := MergedInto(s.event, pending[i].event))];
            return Ok(());
          }
          i := i + 1;
        }
      }
      if monitor.Some? {
        var shown := PropertyTree.Create(monitor.value, s.id + "/id");
        monitor := Some(shown.tree);
        if shown.at.Throw? {
          return Throw(shown.at.error);
        }
        shown := PropertyTree.Create(shown.tree, s.id + "/name");
        monitor := Some(shown.tree);
        if shown.at.Throw? {
          return Throw(shown.at.error);
        }
      }
      pending := pending + [s];
      return Ok(());
    }

    method RemoveEventInternal(id: string)
      modifies this`pending
      ensures pending == WithoutId(old(pending), id)
    {
      hide WithoutId;
      var i := 0;
      while i < |pending|
        invariant 0 <= i <= |pending| && pending == old(pending)
        invariant forall j | 0 <= j < i :: pending[j].id != id
      {
        if pending[i].id == id {
          WithoutIdAt(pending, i, id);
          pending := pending[..i] + pending[i + 1..];
          return;
        }
        i := i + 1;
      }
      WithoutIdAt(pending, i, id);
    }

    /** Removing a child of the monitor node calls the runner back with its name; a node further down
        stays, but the runner is called back all the same. */
    method RemoveEvent(id: string)
      modifies this
      ensures Runs() == Removed(old(Runs()), id)
    {
      hide WithoutId;
      if monitor.Some? {
        var child := PropertyTree.Get(monitor.value, id);
        if child.Some? {
          var at, name := child.value, PropertyTree.NodeAt(monitor.value, child.value).name;
          if |at| == 1 {
            monitor := Some(PropertyTree.WithoutChild(monitor.value, at[0]));
          }
          RemoveEventInternal(name);
        } else {
          RemoveEventInternal(id);
        }
      } else {
        RemoveEventInternal(id);
      }
    }

    /** Shows the next time of an event in the monitor node. */
    method ShowTime(id: string)
      modifies this`monitor
      ensures monitor == if old(monitor).None? then None else Some(Touched(old(monitor).value, id))
    {
      if monitor.Some? {
        var t := monitor.value;
        if PropertyTree.Get(t, id + "/time") == None {
          t := PropertyTree.Create(t, id + "/time").tree;
        }
        monitor := Some(PropertyTree.Create(t, id + "/ticks").tree);
      }
    }

    /** One entry of the loop of raisePendingEvents. */
    method RaiseIfDue(i: nat, eventQueue: EventQueue, now: nat) returns (ended: bool, raised: bool)
      requires i < |pending| && eventQueue.runner == this
      modifies this, eventQueue
      ensures var s := old(pending[i]);
        var p := Pass(s.schedule, now);
        && pending == old(pending)[i := Scheduled(s.id, EventAfter(s, now), p.schedule)]
        && monitor == TouchedFor(old(monitor), s, now)
        && ended == p.ended && raised == (p.raised != [])
        && eventQueue.queue
           == (if raised then Queued(old(eventQueue.queue), Stripped(s.event)) else old(eventQueue.queue))
        && eventQueue.counter == old(eventQueue.counter)
    {
      hide Queued, LeapAdjusted, Touched;
      var nextSecond := now + 1;
      ended, raised := false, false;
      var s := pending[i];
      var next := NextOccurrence(s.schedule, now);
      s := s.(schedule := next.schedule);
      if next.time == NULL_DATE {
        ended := true;
      } else {
        ShowTime(s.id);
        if next.time <= now {
          raised := true;
          s := s.(event := Stripped(s.event));
          StrippedHasNoSchedule(eventQueue.calendar, old(pending[i]).event, now);
          var _ := eventQueue.PushEvent(s.event, now);
          if !s.schedule.HasRecurrence() {
            ended := true;
          } else {
            var ahead := NextOccurrence(s.schedule, nextSecond);
            s := s.(schedule := ahead.schedule);
            ended := ahead.time == NULL_DATE;
          }
          // what a leap of the clock has made overdue is not raised one by one
          if s.schedule.HasRecurrence() {
            s := s.(schedule := LeapAdjusted(s.schedule, nextSecond));
          }
        }
      }
      pending := pending[i := s];
    }

    method RaisePendingEvents(eventQueue: EventQueue, now: nat) returns (result: bool)
      requires eventQueue.runner == this
      modifies this, eventQueue
      ensures Runs() == PassedOver(old(Runs()), now)
      ensures eventQueue.queue == QueuedAll(old(eventQueue.queue), RaisedEvents(old(pending), now))
      ensures eventQueue.counter == old(eventQueue.counter)
      ensures result <==> RaisedEvents(old(pending), now) != []
    {
      hide Pass, EventAfter, Queued, QueuedAll, Stripped, Looped, EndedIds, RaisedEvents, TouchedFor, TouchedAll,
           RemovedAll, PassedUpTo;
      result := false;
      var removeIds: seq<string> := [];
      var i := 0;
      ghost var all, before, shown := pending, eventQueue.queue, monitor;
      PassStarts(all, before, shown, now);
      while i < |pending|
        invariant 0 <= i <= |pending| == |all|
        invariant PassedUpTo(all, before, shown, i, now, Runs(), removeIds, eventQueue.queue)
        invariant eventQueue.counter == old(eventQueue.counter)
        invariant result <==> RaisedEvents(all[..i], now) != []
      {
        ghost var ids := removeIds;
        PassStep(all, before, shown, i, now, Runs(), removeIds, eventQueue.queue);
        var ended, raised := RaiseIfDue(i, eventQueue, now);
        if ended {
          removeIds := removeIds + [pending[i].id];
        }
        assert removeIds == ids + if ended then [pending[i].id] else [];
        if raised {
          result := true;
        }
        i := i + 1;
      }
      PassEnds(all, before, shown, now, Runs(), removeIds, eventQueue.queue);
      RemoveAll(removeIds);
    }

    method RemoveAll(ids: seq<string>)
      modifies this
      ensures Runs() == RemovedAll(old(Runs()), ids)
    {
      hide Removed;
      var i := 0;
      assert ids[0..] == ids;
      while i < |ids|
        invariant 0 <= i <= |ids|
        invariant RemovedAll(Runs(), ids[i..]) == RemovedAll(old(Runs()), ids)
      {
        assert ids[i..][1..] == ids[i + 1..];
        RemoveEvent(ids[i]);
        i := i + 1;
      }
    }
  }

  class EventQueue {
    const runner: EventRunner
    const calendar: Calendar
    var queue: seq<Event>
    var counter: nat

    constructor (runner: EventRunner, calendar: Calendar)
      ensures this.runner == runner && this.calendar == calendar && queue == [] && counter == 0
    {
      this.runner, this.calendar, queue, counter := runner, calendar, [], 0;
    }

    method PushEvent(e: Event, now: nat) returns (r: Result<()>)
      modifies this, runner
      ensures match ScheduleFromEvent(calendar, e, now)
              case Some(schedule) =>
                && AddedTo(runner.Runs(), r)
                   == Added(old(runner.Runs()), Scheduled(ScheduledId(old(counter), now, e.name), e, schedule))
                && counter == old(counter) + 1 && queue == old(queue)
              case None =>
                && runner.Runs() == old(runner.Runs()) && counter == old(counter)
                && queue == Queued(old(queue), e) && r == Ok(())
    {
      hide ScheduleFromEvent, IsUnique, Added, ScheduledId;
      var schedule := ScheduleFromEvent(calendar, e, now);
      if schedule.Some? {
        var s := Scheduled(ScheduledId(counter, now, e.name), e, schedule.value);
        counter := counter + 1;
        r := runner.AddEvent(s);
        return;
      }
      r := Ok(());
      if IsUnique(e) {
        var i := 0;
        while i < |queue|
          invariant 0 <= i <= |queue| && queue == old(queue) && counter == old(counter)
          invariant i <= FirstInQueue(queue, KeyOf(e))
        {
          if KeyOf(e) == KeyOf(queue[i]) {
            queue := queue[i := MergedInto(e, queue[i])];
            return;
          }
          i := i + 1;
        }
      }
      queue := queue + [e];
    }

    method PopEvent() returns (result: Option<Event>)
      modifies this
      ensures old(queue) == [] ==> result == None && queue == []
      ensures old(queue) != [] ==> result == Some(old(queue)[0]) && queue == old(queue)[1..]
      ensures counter == old(counter)
    {
      if queue == [] {
        return None;
      }
      result := Some(queue[0]);
      queue := queue[1..];
    }
  }

  lemma {:induction false} WithoutIdAt(pending: seq<Scheduled>, i: nat, id: string)
    requires i <= |pending| && forall j | 0 <= j < i :: pending[j].id != id
    requires i < |pending| ==> pending[i].id == id
    ensures WithoutId(pending, id) == if i < |pending| then pending[..i] + pending[i + 1..] else pending
  {
    if i > 0 {
      WithoutIdAt(pending[1..], i - 1, id);
      if i < |pending| {
        SkipOne(pending, i);
      } else {
        assert pending == [pending[0]] + pending[1..];
      }
    } else if pending != [] {
      assert [] + pending[1..] == pending[1..];
    }
  }

  // --- The loop of raisePendingEvents -----------------------------------------------------

  /** After i of all pending events: the runner, the IDs to remove and the queue. */
  ghost predicate PassedUpTo(all: seq<Scheduled>, before: seq<Event>, shown: Option<Node>, i: nat, now: int, r: Runner,
                             ids: seq<string>, queue: seq<Event>)
  {
    && i <= |all|
    && r.pending == Looped(all[..i], now) + all[i..]
    && r.monitor == TouchedAll(shown, all[..i], now)
    && ids == EndedIds(all[..i], now)
    && queue == QueuedAll(before, RaisedEvents(all[..i], now))
  }

  lemma PassStarts(all: seq<Scheduled>, before: seq<Event>, shown: Option<Node>, now: int)
    ensures PassedUpTo(all, before, shown, 0, now, Runner(all, shown), [], before) && RaisedEvents(all[..0], now) == []
  {
    assert all[..0] == [] && all[0..] == all;
    assert Looped([], now) == [] && [] + all == all;
  }

  lemma PassStep(all: seq<Scheduled>, before: seq<Event>, shown: Option<Node>, i: nat, now: int, r: Runner,
                 ids: seq<string>, queue: seq<Event>)
    requires PassedUpTo(all, before, shown, i, now, r, ids, queue) && i < |all|
    ensures |r.pending| == |all| && r.pending[i] == all[i]
    ensures var s := all[i];
      var p := Pass(s.schedule, now);
      var r' := Runner(r.pending[i := Scheduled(s.id, EventAfter(s, now), p.schedule)], TouchedFor(r.monitor, s, now));
      && PassedUpTo(all, before, shown, i + 1, now, r', ids + (if p.ended then [s.id] else []),
                    if p.raised != [] then Queued(queue, Stripped(s.event)) else queue)
      && (RaisedEvents(all[..i + 1], now) != [] <==> RaisedEvents(all[..i], now) != [] || p.raised != [])
  {
    hide Pass, EventAfter, Stripped, Looped, EndedIds, RaisedEvents, Queued, QueuedAll, TouchedFor, TouchedAll;
    var s := all[i];
    PassSnoc(all, i, now);
    assert all[..i + 1] == all[..i] + [s];
    TouchedSnoc(shown, all[..i], s, now);
    var raised := RaisedEvents(all[..i], now);
    if Pass(s.schedule, now).raised != [] {
      QueuedConcat(before, raised, [Stripped(s.event)]);
      QueuedOnce(QueuedAll(before, raised), Stripped(s.event));
    } else {
      assert raised + [] == raised;
    }
    assert ids + [] == ids;
  }

  lemma PassEnds(all: seq<Scheduled>, before: seq<Event>, shown: Option<Node>, now: int, r: Runner, ids: seq<string>,
                 queue: seq<Event>)
    requires PassedUpTo(all, before, shown, |all|, now, r, ids, queue)
    ensures r == LoopedOver(Runner(all, shown), now) && ids == EndedIds(all, now) && all[..|all|] == all
    ensures queue == QueuedAll(before, RaisedEvents(all, now))
  {
    hide Looped, EndedIds, RaisedEvents, QueuedAll, TouchedAll;
    assert all[..|all|] == all && Looped(all, now) + [] == Looped(all, now);
  }

  lemma {:induction false} TouchedSnoc(shown: Option<Node>, all: seq<Scheduled>, s: Scheduled, now: int)
    ensures TouchedAll(shown, all + [s], now) == TouchedFor(TouchedAll(shown, all, now), s, now)
    decreases |all|
  {
    if all == [] {
      assert all + [s] == [s] && [s][1..] == [];
    } else {
      hide TouchedFor;
      assert (all + [s])[1..] == all[1..] + [s];
      TouchedSnoc(TouchedFor(shown, all[0], now), all[1..], s, now);
    }
  }

  lemma {:induction false} EndedSnoc(all: seq<Scheduled>, s: Scheduled, now: int)
    ensures EndedIds(all + [s], now) == EndedIds(all, now) + (if Pass(s.schedule, now).ended then [s.id] else [])
  {
    if all == [] {
      assert all + [s] == [s] && [s][1..] == [];
    } else {
      hide Pass;
      assert (all + [s])[1..] == all[1..] + [s];
      EndedSnoc(all[1..], s, now);
    }
  }

  lemma {:induction false} RaisedSnoc(all: seq<Scheduled>, s: Scheduled, now: int)
    ensures RaisedEvents(all + [s], now)
         == RaisedEvents(all, now) + (if Pass(s.schedule, now).raised != [] then [Stripped(s.event)] else [])
  {
    if all == [] {
      assert all + [s] == [s] && [s][1..] == [];
    } else {
      hide Pass, Stripped;
      assert (all + [s])[1..] == all[1..] + [s];
      RaisedSnoc(all[1..], s, now);
    }
  }

  lemma PassSnoc(all: seq<Scheduled>, i: nat, now: int)
    requires i < |all|
    ensures var s := all[i];
      && Looped(all[..i + 1], now)
         == Looped(all[..i], now) + [Scheduled(s.id, EventAfter(s, now), Pass(s.schedule, now).schedule)]
      && EndedIds(all[..i + 1], now) == EndedIds(all[..i], now) + (if Pass(s.schedule, now).ended then [s.id] else [])
      && RaisedEvents(all[..i + 1], now)
         == RaisedEvents(all[..i], now) + (if Pass(s.schedule, now).raised != [] then [Stripped(s.event)] else [])
  {
    assert all[..i + 1] == all[..i] + [all[i]];
    EndedSnoc(all[..i], all[i], now);
    RaisedSnoc(all[..i], all[i], now);
  }

  lemma QueuedOnce(queue: seq<Event>, e: Event)
    ensures QueuedAll(queue, [e]) == Queued(queue, e)
  {
  }
}
