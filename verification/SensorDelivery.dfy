/** What the upload protocol of `src/sensor_data_uploader.cpp` delivers: which packets the web service
    has answered, what becomes of a packet after a network error, and what a packet is filled with. */
module SensorDelivery {
  import opened SensorLog

  // --- From the steps of a run ------------------------------------------------------------

  /** The packet whose own reply a step is, unless that is a network error. */
  function AnsweredBy(s: System, step: Step): seq<Entry>
    requires Enabled(s, step)
  {
    if step.Reply? && step.status != NetworkError then s.active[step.i].handed else []
  }

  function Answered(s: System, steps: seq<Step>): seq<Entry>
    requires IsRun(s, steps)
    decreases |steps|
  {
    if steps == [] then [] else AnsweredBy(s, steps[0]) + Answered(Next(s, steps[0]), steps[1..])
  }

  /** The event a step appends while there is room: for 400 of high priority, and for 1000 others with
      those in the packet. */
  function AcceptedBy(s: System, step: Step): seq<Entry> {
    if step.Append? && (if step.highPrio then |s.log.eventsHighPrio| < 400
                        else |s.log.events| + |s.log.packet| < 1000)
    then [Entry(step.event, step.highPrio)] else []
  }

  function AcceptedIn(s: System, steps: seq<Step>): seq<Entry>
    requires IsRun(s, steps)
    decreases |steps|
  {
    if steps == [] then [] else AcceptedBy(s, steps[0]) + AcceptedIn(Next(s, steps[0]), steps[1..])
  }

  /** The packet has been answered, and the thread that took the answer has yet to clear it. */
  predicate Settling(s: System) {
    s.active == [Sending(true)]
  }

  function Left(s: System): seq<Entry> {
    if Settling(s) then s.log.packet else []
  }

  lemma StepDischarges(s: System, step: Step)
    requires Inv(s) && Enabled(s, step)
    ensures var t := Next(s, step);
      && t.discharged + Left(t) == s.discharged + Left(s) + AnsweredBy(s, step)
      && t.accepted == s.accepted + AcceptedBy(s, step)
  {
    hide Conserved, RunCounted, QueuesTagged, FilledFrom;
    assert |s.active| <= 1;
    match step
    case Reply(i, status) =>
      assert Backed(s.log, s.active[0]);
      assert s.discharged + [] + s.log.packet == s.discharged + s.log.packet;
    case Send(i) =>
      assert Without(s.active, i) == [];
      assert s.active == [s.active[i]];
    case Trigger =>
      assert [] + [Sending(false)] == [Sending(false)];
    case _ =>
  }

  lemma {:induction false} RunDischarges(s: System, steps: seq<Step>)
    requires Inv(s) && IsRun(s, steps)
    ensures var t := Exec(s, steps);
      && t.discharged + Left(t) == s.discharged + Left(s) + Answered(s, steps)
      && t.accepted == s.accepted + AcceptedIn(s, steps)
    decreases |steps|
  {
    if steps != [] {
      hide Inv, Next, Enabled, AnsweredBy, AcceptedBy, Left;
      StepKeepsInv(s, steps[0]);
      StepDischarges(s, steps[0]);
      RunDischarges(Next(s, steps[0]), steps[1..]);
      Regroup(s.discharged + Left(s), AnsweredBy(s, steps[0]), Answered(Next(s, steps[0]), steps[1..]));
      Regroup(s.accepted, AcceptedBy(s, steps[0]), AcceptedIn(Next(s, steps[0]), steps[1..]));
    }
  }

  lemma Regroup(a: seq<Entry>, b: seq<Entry>, c: seq<Entry>)
    ensures a + b + c == a + (b + c)
  {
  }

  /** In every interleaving: discharged is, in this order, what has been handed over and answered, but
      for the last such packet while it is not cleared. */
  lemma EveryRunDischargesAnswered(steps: seq<Step>)
    requires IsRun(Init(), steps)
    ensures var s := Exec(Init(), steps); s.discharged + Left(s) == Answered(Init(), steps)
  {
    hide Next, Inv;
    InitInv();
    RunDischarges(Init(), steps);
    assert [] + [] + Answered(Init(), steps) == Answered(Init(), steps);
  }

  /** What has been handed over or will be, and is not answered. */
  function Outstanding(s: System): seq<Entry> {
    if Settling(s) then [] else s.log.packet
  }

  /** In every interleaving and for each class: the events accepted are those of the answered packets,
      those of the packet that is not answered, and those queued, in this order. */
  lemma EveryRunDelivers(steps: seq<Step>, highPrio: bool)
    requires IsRun(Init(), steps)
    ensures var s := Exec(Init(), steps);
      OfClass(AcceptedIn(Init(), steps), highPrio)
      == OfClass(Answered(Init(), steps), highPrio) + (OfClass(Outstanding(s), highPrio) + Queue(s.log, highPrio))
  {
    hide Next, Inv, OfClass, Left, Outstanding, Settling;
    InitInv();
    RunDischarges(Init(), steps);
    var s := Exec(Init(), steps);
    assert [] + AcceptedIn(Init(), steps) == AcceptedIn(Init(), steps);
    EveryRunDischargesAnswered(steps);
    EveryRunConserves(steps, highPrio);
    LeftOrOutstanding(s, highPrio);
  }

  lemma LeftOrOutstanding(s: System, highPrio: bool)
    ensures OfClass(s.discharged, highPrio) + (OfClass(s.log.packet, highPrio) + Queue(s.log, highPrio))
         == OfClass(s.discharged + Left(s), highPrio) + (OfClass(Outstanding(s), highPrio) + Queue(s.log, highPrio))
  {
    hide OfClass;
    OfNone(highPrio);
    if Settling(s) {
      OfClassConcat(s.discharged, s.log.packet, highPrio);
      var D, P, Q := OfClass(s.discharged, highPrio), OfClass(s.log.packet, highPrio), Queue(s.log, highPrio);
      assert D + (P + Q) == D + P + ([] + Q);
    } else {
      assert s.discharged + [] == s.discharged;
    }
  }

  lemma OfNone(highPrio: bool)
    ensures OfClass([], highPrio) == []
  {
  }

  // --- After a network error --------------------------------------------------------------

  predicate Unanswered(steps: seq<Step>) {
    forall k | 0 <= k < |steps| :: steps[k].Reply? ==> steps[k].status == NetworkError
  }

  lemma KeptByStep(s: System, step: Step, h: seq<Entry>)
    requires Inv(s) && Enabled(s, step) && h <= s.log.packet && !Settling(s)
    requires step.Reply? ==> step.status == NetworkError
    ensures var t := Next(s, step);
      h <= t.log.packet && t.discharged == s.discharged && !Settling(t)
  {
    hide Conserved, RunCounted, QueuesTagged;
    assert |s.active| <= 1;
    match step
    case Send(i) =>
      assert s.active == [Sending(false)];
      FillingBounds(Settled(s.log, false));
    case Append(_, _) =>
    case Trigger =>
      assert [] + [Sending(false)] == [Sending(false)];
    case Call(_, _) =>
    case Reply(_, _) =>
    case Clear(_) =>
  }

  /** A packet after a network error: until another reply is none, however many steps and uploads that
      takes, it stays the front of the packet, nothing is discharged, and what is handed over begins
      with it. */
  lemma {:induction false} KeptUntilAnswered(s: System, steps: seq<Step>, h: seq<Entry>)
    requires Inv(s) && IsRun(s, steps) && Unanswered(steps) && h <= s.log.packet && !Settling(s)
    ensures var t := Exec(s, steps);
      && h <= t.log.packet && t.discharged == s.discharged && !Settling(t)
      && forall g :: t.active == [InFlight(g)] ==> h <= g
    decreases |steps|
  {
    hide Next, Enabled, Settling, Backed, Conserved, RunCounted, QueuesTagged, Bounded;
    if steps == [] {
      forall g | s.active == [InFlight(g)] ensures h <= g {
        HandedIsPacket(s, g);
      }
    } else {
      hide Inv;
      StepKeepsInv(s, steps[0]);
      KeptByStep(s, steps[0], h);
      assert forall k | 0 <= k < |steps| - 1 :: steps[1..][k] == steps[k + 1];
      KeptUntilAnswered(Next(s, steps[0]), steps[1..], h);
    }
  }

  lemma FailedPacketKept(s: System, steps: seq<Step>, h: seq<Entry>)
    requires Inv(s) && s.active == [InFlight(h)] && IsRun(s, [Reply(0, NetworkError)] + steps) && Unanswered(steps)
    ensures var t := Exec(s, [Reply(0, NetworkError)] + steps);
      && h <= t.log.packet && t.discharged == s.discharged
      && forall g :: t.active == [InFlight(g)] ==> h <= g
  {
    HandedIsPacket(s, h);
    var all := [Reply(0, NetworkError)] + steps;
    assert forall k | 1 <= k < |all| :: all[k] == steps[k - 1];
    KeptUntilAnswered(s, all, h);
  }

  // --- What a packet is filled with -------------------------------------------------------

  function Least(a: nat, b: int): nat
    requires b >= 0
  {
    if a < b then a else b
  }

  /** A packet is filled up to 50 events from the high-priority queue and, with what space that leaves,
      from the other one. */
  lemma PacketFilled(s: Log, next: bool)
    requires Bounded(s) && !EndsRun(Settled(s, next))
    ensures var kept := if next then [] else s.packet;
      && |kept| <= 50
      && var h := Least(|s.eventsHighPrio|, 50 - |kept|);
         var n := Least(|s.events|, 50 - |kept| - h);
         var t := AfterSend(s, next);
         && t.packet == kept + s.eventsHighPrio[..h] + s.events[..n]
         && t.eventsHighPrio == s.eventsHighPrio[h..] && t.events == s.events[n..]
         && t.pendingUpload == s.pendingUpload
  {
    hide FilledFrom, EndsRun;
    FilledUp(Settled(s, next));
  }

  lemma FilledUp(t: Log)
    requires |t.packet| <= 50
    ensures var h := Least(|t.eventsHighPrio|, 50 - |t.packet|);
      var n := Least(|t.events|, 50 - |t.packet| - h);
      FilledFrom(t) == t.(packet := t.packet + t.eventsHighPrio[..h] + t.events[..n],
                          eventsHighPrio := t.eventsHighPrio[h..], events := t.events[n..])
  {
    assert Taken(t.eventsHighPrio, t.packet) == Least(|t.eventsHighPrio|, 50 - |t.packet|);
  }

  /** In the part that is new no other event comes before one of high priority, and none is taken while
      one of high priority stays queued. */
  lemma HighPrioFirst(s: System, i: nat)
    requires Inv(s) && Enabled(s, Send(i)) && Next(s, Send(i)).active != []
    ensures var kept := if s.active[i].next then [] else s.log.packet;
      var t := Next(s, Send(i)).log;
      && kept <= t.packet
      && (forall a, b | |kept| <= a < b < |t.packet| && t.packet[b].highPrio :: t.packet[a].highPrio)
      && (forall a | |kept| <= a < |t.packet| && !t.packet[a].highPrio :: t.eventsHighPrio == [])
  {
    hide Conserved, RunCounted, FilledFrom;
    assert Without(s.active, i) == [];
    var next := s.active[i].next;
    PacketFilled(s.log, next);
    var kept := if next then [] else s.log.packet;
    var h := Least(|s.log.eventsHighPrio|, 50 - |kept|);
    var t := AfterSend(s.log, next);
    forall a | |kept| <= a < |t.packet| ensures t.packet[a].highPrio <==> a < |kept| + h {
      if a < |kept| + h {
        assert t.packet[a] == s.log.eventsHighPrio[a - |kept|];
      } else {
        assert t.packet[a] == s.log.events[a - |kept| - h];
      }
    }
  }

  // --- When there is an upload ------------------------------------------------------------

  lemma {:induction false} ClassSizes(es: seq<Entry>)
    ensures |OfClass(es, true)| + |OfClass(es, false)| == |es|
  {
    if es != [] {
      ClassSizes(es[1..]);
    }
  }

  /** A trigger starts an upload if none is under way, exactly when something accepted has not been
      discharged. */
  lemma TriggerStartsExactly(s: System)
    requires Inv(s)
    ensures Next(s, Trigger).active != [] <==> s.active != [] || |s.discharged| < |s.accepted|
    ensures s.active != [] ==> Next(s, Trigger) == s
  {
    hide OfClass, RunCounted;
    assert ConservedFor(s, true) && ConservedFor(s, false);
    ClassSizes(s.accepted);
    ClassSizes(s.discharged);
    ClassSizes(s.log.packet);
  }

  /** An upload that a trigger has started is made; a follow-up is made for high-priority events, for
      a full packet of others, and for fewer if the packets of the run so far fill up evenly. */
  lemma SendsExactly(s: System, i: nat)
    requires Inv(s) && Enabled(s, Send(i))
    ensures Next(s, Send(i)).active != [] <==>
      || s.active[i] == Sending(false)
      || s.log.eventsHighPrio != []
      || |s.log.events| >= 50
      || (s.log.events != [] && TotalSize(s.run) % 50 == 0)
    ensures var next, t := s.active[i].next, Next(s, Send(i));
      t.active != [] ==>
        t.run == (if next then s.run else []) + [Sent(|t.log.packet|, next && s.log.eventsHighPrio != [])]
  {
    hide Conserved, FilledFrom, TotalSize, NonFull;
    SettledRun(s, i);
    assert Without(s.active, i) == [] && TotalSize([]) == 0 by {
      assert s.active == [s.active[i]];
      NoneSent();
    }
  }
}
