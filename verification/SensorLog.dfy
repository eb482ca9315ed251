/** The upload protocol of `SensorLog` in `src/sensor_data_uploader.cpp`. */
module SensorLog {

  // The class below has the fields and the critical sections of the original: every method is
  // one stretch of code that runs under `m_lock`. Threads interleave only between them, so the
  // protocol is the state machine `Next` over those sections, with the calls of the uploader
  // and its replies as further steps.

  const MAX_POST_EVENTS: nat := 50
  const MAX_ELEMENTS: nat := 1000
  const MAX_PRIO_ELEMENTS: nat := 400
  const SIZE_T_RANGE: nat := 0x1_0000_0000_0000_0000

  datatype Event = Event(name: string, serial: nat)

  /** An accepted event and the priority it was appended with. No code reads the priority of a
      queued event; it lets the properties tell the two classes apart inside a packet. */
  datatype Entry = Entry(event: Event, highPrio: bool)

  // --- The critical sections --------------------------------------------------------------

  datatype Log = Log(
    events: seq<Entry>,
    eventsHighPrio: seq<Entry>,
    packet: seq<Entry>,
    pendingUpload: bool,
    uploadRun: int)

  /** max_post_events - free, in the unsigned arithmetic of size_t. */
  function SpaceLeft(free: nat): nat {
    (MAX_POST_EVENTS - free) % SIZE_T_RANGE
  }

  function Taken(queue: seq<Entry>, packet: seq<Entry>): (n: nat)
    ensures n <= |queue|
  {
    if |queue| < SpaceLeft(|packet|) then |queue| else SpaceLeft(|packet|)
  }

  function Accepts(s: Log, highPrio: bool): bool {
    if highPrio then |s.eventsHighPrio| < MAX_PRIO_ELEMENTS else |s.events| + |s.packet| < MAX_ELEMENTS
  }

  function AfterAppend(s: Log, e: Event, highPrio: bool): Log {
    if !Accepts(s, highPrio) then s
    else if highPrio then s.(eventsHighPrio := s.eventsHighPrio + [Entry(e, true)])
    else s.(events := s.events + [Entry(e, false)])
  }

  predicate Triggers(s: Log) {
    !s.pendingUpload && (s.packet != [] || s.eventsHighPrio != [] || s.events != [])
  }

  /** The log once the reply to the last packet has been taken into account. */
  function Settled(s: Log, next: bool): Log {
    if next then s.(uploadRun := s.uploadRun + |s.packet|, packet := []) else s.(uploadRun := 0)
  }

  /** Whether a settled log ends the run of uploads. */
  predicate EndsRun(s: Log) {
    && s.eventsHighPrio == []
    && (|| (s.events == [] && s.packet == [])
        || (s.uploadRun % MAX_POST_EVENTS != 0 && |s.events| < MAX_POST_EVENTS))
  }

  function FilledFrom(s: Log): Log {
    var h := Taken(s.eventsHighPrio, s.packet);
    var packet := s.packet + s.eventsHighPrio[..h];
    var n := Taken(s.events, packet);
    s.(eventsHighPrio := s.eventsHighPrio[h..], events := s.events[n..], packet := packet + s.events[..n])
  }

  function AfterSend(s: Log, next: bool): Log {
    var t := Settled(s, next);
    if EndsRun(t) then t.(pendingUpload := false) else FilledFrom(t)
  }

  class SensorLog {
    var events: seq<Entry>
    var eventsHighPrio: seq<Entry>
    var packet: seq<Entry>
    var pendingUpload: bool
    var uploadRun: int

    ghost function View(): Log
      reads this
    {
      Log(events, eventsHighPrio, packet, pendingUpload, uploadRun)
    }

    constructor ()
      ensures View() == Log([], [], [], false, 0)
    {
      events, eventsHighPrio, packet := [], [], [];
      pendingUpload, uploadRun := false, 0;
    }

    /** Moves the front of a queue into the packet and returns what stays in the queue. */
    method PacketAppend(queue: seq<Entry>) returns (rest: seq<Entry>)
      modifies this`packet
      ensures packet == old(packet) + queue[..Taken(queue, old(packet))]
      ensures rest == queue[Taken(queue, old(packet))..]
    {
      var free := |packet|;
      var left := (MAX_POST_EVENTS - free) % SIZE_T_RANGE;
      var space := if |queue| < left then |queue| else left;
      packet := packet + queue[..space];
      rest := queue[space..];
    }

    /** The locked part of send_packet; the uploader is called next iff `upload`. */
    method SendPacket(next: bool) returns (upload: bool)
      modifies this
      ensures View() == AfterSend(old(View()), next)
      ensures upload <==> !EndsRun(Settled(old(View()), next))
    {
      if next {
        uploadRun := uploadRun + |packet|;
        packet := [];
      } else {
        uploadRun := 0;
      }

      if eventsHighPrio == [] {
        if events == [] && packet == [] {
          pendingUpload := false;
          return false;
        } else if uploadRun % MAX_POST_EVENTS != 0 && |events| < MAX_POST_EVENTS {
          pendingUpload := false;
          return false;
        }
      }

      eventsHighPrio := PacketAppend(eventsHighPrio);
      events := PacketAppend(events);
      return true;
    }

    /** After a refused upload or a network error. */
    method ClearPending()
      modifies this
      ensures View() == old(View()).(pendingUpload := false)
    {
      pendingUpload := false;
    }

    /** The reply of the uploader; send_packet(true) is called next iff `next`. */
    method Done(status: Status) returns (next: bool)
      modifies this
      ensures next <==> status != NetworkError
      ensures View() == if next then old(View()) else old(View()).(pendingUpload := false)
    {
      match status
      case NetworkError =>
        // the packet stays for the next trigger
        ClearPending();
        next := false;
      case JsonError => next := true;
      case RestOk(_) => next := true;
    }

    /** The locked part of append; triggerUpload is called next iff `trigger`. */
    method Append(event: Event, highPrio: bool) returns (trigger: bool)
      modifies this
      ensures View() == AfterAppend(old(View()), event, highPrio)
      ensures trigger <==> highPrio && Accepts(old(View()), true)
    {
      if highPrio {
        if |eventsHighPrio| >= MAX_PRIO_ELEMENTS {
          return false;
        }
        eventsHighPrio := eventsHighPrio + [Entry(event, true)];
        return true;
      }

      if |events| + |packet| >= MAX_ELEMENTS {
        return false;
      }
      events := events + [Entry(event, false)];
      return false;
    }

    /** The locked part of triggerUpload; send_packet(false) is called next iff `send`. */
    method TriggerUpload() returns (send: bool)
      modifies this
      ensures send <==> Triggers(old(View()))
      ensures View() == if send then old(View()).(pendingUpload := true) else old(View())
    {
      if pendingUpload {
        return false;
      }
      if packet == [] && eventsHighPrio == [] && events == [] {
        return false;
      }
      pendingUpload := true;
      return true;
    }
  }

  // --- Interleaved runs -------------------------------------------------------------------

  /** Where a thread stands between two critical sections, or an upload waits for its reply. */
  datatype Activity =
    | Sending(next: bool)           // about to enter send_packet(next)
    | Calling                       // has unlocked, about to call the uploader
    | InFlight(handed: seq<Entry>)  // the uploader holds iterators into this packet
    | Clearing                      // about to reset m_pending_upload

  datatype Status = NetworkError | JsonError | RestOk(code: int)

  datatype Step =
    | Append(event: Event, highPrio: bool)
    | Trigger
    | Send(i: nat)
    | Call(i: nat, taken: bool)       // upload() returned true or false
    | Reply(i: nat, status: Status)   // done(); exactly one for each call that returned true
    | Clear(i: nat)

  /** A packet sent in the current run, and whether high-priority events forced it. */
  datatype Sent = Sent(size: nat, forced: bool)

  datatype System = System(
    log: Log,
    active: seq<Activity>,
    accepted: seq<Entry>,     // every event append has queued, oldest first
    discharged: seq<Entry>,   // every event whose packet was answered, in upload order
    run: seq<Sent>)           // the packets since the last triggerUpload that started a run

  function Init(): System {
    System(Log([], [], [], false, 0), [], [], [], [])
  }

  predicate Enabled(s: System, step: Step) {
    match step
    case Append(_, _) => true
    case Trigger => true
    case Send(i) => i < |s.active| && s.active[i].Sending?
    case Call(i, _) => i < |s.active| && s.active[i].Calling?
    case Reply(i, _) => i < |s.active| && s.active[i].InFlight?
    case Clear(i) => i < |s.active| && s.active[i].Clearing?
  }

  function Without(a: seq<Activity>, i: nat): seq<Activity>
    requires i < |a|
  {
    a[..i] + a[i + 1..]
  }

  function Next(s: System, step: Step): System
    requires Enabled(s, step)
  {
    match step
    case Append(e, highPrio) =>
      if !Accepts(s.log, highPrio) then s
      else s.(log := AfterAppend(s.log, e, highPrio), accepted := s.accepted + [Entry(e, highPrio)])
    case Trigger =>
      if Triggers(s.log) then s.(log := s.log.(pendingUpload := true), active := s.active + [Sending(false)]) else s
    case Send(i) =>
      var next := s.active[i].next;
      var log := AfterSend(s.log, next);
      var discharged := if next then s.discharged + s.log.packet else s.discharged;
      if EndsRun(Settled(s.log, next)) then
        s.(log := log, discharged := discharged, active := Without(s.active, i))
      else
        var sent := Sent(|log.packet|, next && s.log.eventsHighPrio != []);
        s.(log := log, discharged := discharged, active := s.active[i := Calling],
           run := (if next then s.run else []) + [sent])
    case Call(i, taken) =>
      s.(active := s.active[i := if taken then InFlight(s.log.packet) else Clearing])
    case Reply(i, status) =>
      s.(active := s.active[i := if status == NetworkError then Clearing else Sending(true)])
    case Clear(i) =>
      s.(log := s.log.(pendingUpload := false), active := Without(s.active, i))
  }

  predicate IsRun(s: System, steps: seq<Step>)
    decreases |steps|
  {
    steps == [] || (Enabled(s, steps[0]) && IsRun(Next(s, steps[0]), steps[1..]))
  }

  function Exec(s: System, steps: seq<Step>): System
    requires IsRun(s, steps)
    decreases |steps|
  {
    if steps == [] then s else Exec(Next(s, steps[0]), steps[1..])
  }

  // --- What every run keeps ---------------------------------------------------------------

  function OfClass(es: seq<Entry>, highPrio: bool): seq<Entry> {
    if es == [] then [] else (if es[0].highPrio == highPrio then [es[0]] else []) + OfClass(es[1..], highPrio)
  }

  function Queue(s: Log, highPrio: bool): seq<Entry> {
    if highPrio then s.eventsHighPrio else s.events
  }

  /** Nothing accepted is lost, duplicated or reordered within its priority class. */
  ghost predicate ConservedFor(s: System, highPrio: bool) {
    OfClass(s.accepted, highPrio)
    == OfClass(s.discharged, highPrio) + (OfClass(s.log.packet, highPrio) + Queue(s.log, highPrio))
  }

  ghost predicate Conserved(s: System) {
    ConservedFor(s, true) && ConservedFor(s, false)
  }

  ghost predicate Bounded(s: Log) {
    |s.packet| <= MAX_POST_EVENTS && |s.eventsHighPrio| <= MAX_PRIO_ELEMENTS && |s.events| <= MAX_ELEMENTS
  }

  ghost predicate QueuesTagged(s: Log) {
    (forall e | e in s.eventsHighPrio :: e.highPrio) && (forall e | e in s.events :: !e.highPrio)
  }

  /** What holds while a thread or an upload stands at a. */
  ghost predicate Backed(log: Log, a: Activity) {
    match a
    case Sending(next) => if next then log.packet != [] else log.packet + log.eventsHighPrio + log.events != []
    case Calling => log.packet != []
    case InFlight(handed) => handed == log.packet != []
    case Clearing => true
  }

  /** One activity exactly while an upload is pending; the packet it holds is the log's. */
  ghost predicate SingleFlight(s: System) {
    && |s.active| == (if s.log.pendingUpload then 1 else 0)
    && forall k | 0 <= k < |s.active| :: Backed(s.log, s.active[k])
  }

  function TotalSize(run: seq<Sent>): nat {
    if run == [] then 0 else TotalSize(run[..|run| - 1]) + run[|run| - 1].size
  }

  function NonFull(run: seq<Sent>, forced: bool): nat {
    if run == [] then 0
    else NonFull(run[..|run| - 1], forced)
         + if run[|run| - 1].forced == forced && run[|run| - 1].size < MAX_POST_EVENTS then 1 else 0
  }

  /** m_upload_run counts the run without the packet that still waits for its reply. */
  ghost predicate RunCounted(s: System) {
    && s.log.uploadRun >= 0
    && (forall k | 0 <= k < |s.run| :: 1 <= s.run[k].size <= MAX_POST_EVENTS)
    && NonFull(s.run, false) <= NonFull(s.run, true) + (if TotalSize(s.run) % MAX_POST_EVENTS == 0 then 0 else 1)
    && forall k | 0 <= k < |s.active| :: s.active[k] == Sending(false) || s.active[k] == Clearing
         || TotalSize(s.run) == s.log.uploadRun + |s.log.packet|
  }

  ghost predicate Inv(s: System) {
    Conserved(s) && Bounded(s.log) && QueuesTagged(s.log) && SingleFlight(s) && RunCounted(s)
  }

  lemma {:induction false} OfClassConcat(a: seq<Entry>, b: seq<Entry>, highPrio: bool)
    ensures OfClass(a + b, highPrio) == OfClass(a, highPrio) + OfClass(b, highPrio)
  {
    if a == [] {
      assert a + b == b;
    } else {
      assert (a + b)[0] == a[0] && (a + b)[1..] == a[1..] + b;
      OfClassConcat(a[1..], b, highPrio);
    }
  }

  lemma {:induction false} OfClassUniform(a: seq<Entry>, tag: bool, highPrio: bool)
    requires forall e | e in a :: e.highPrio == tag
    ensures OfClass(a, highPrio) == if tag == highPrio then a else []
  {
    if a != [] {
      OfClassUniform(a[1..], tag, highPrio);
    }
  }

  /** Filling a packet moves a prefix of each queue and overflows no packet. */
  lemma FillingBounds(t: Log)
    requires Bounded(t)
    ensures var f := FilledFrom(t);
      && Bounded(f)
      && (f.packet == [] <==> t.packet + t.eventsHighPrio + t.events == [])
      && (|f.packet| < MAX_POST_EVENTS ==> f.eventsHighPrio == [] && f.events == [])
      && t.packet <= f.packet && f.uploadRun == t.uploadRun
      && |f.packet| + |f.eventsHighPrio| + |f.events| == |t.packet| + |t.eventsHighPrio| + |t.events|
  {
  }

  lemma MovePrefix(packet: seq<Entry>, queue: seq<Entry>, n: nat, tag: bool, highPrio: bool)
    requires n <= |queue| && forall e | e in queue :: e.highPrio == tag
    ensures tag == highPrio ==>
      OfClass(packet, highPrio) + queue == OfClass(packet + queue[..n], highPrio) + queue[n..]
    ensures tag != highPrio ==> OfClass(packet, highPrio) == OfClass(packet + queue[..n], highPrio)
  {
    hide OfClass;
    OfClassConcat(packet, queue[..n], highPrio);
    OfClassUniform(queue[..n], tag, highPrio);
    assert queue == queue[..n] + queue[n..];
    assert OfClass(packet, highPrio) + [] == OfClass(packet, highPrio);
  }

  lemma FillingConserves(t: Log, highPrio: bool)
    requires QueuesTagged(t)
    ensures OfClass(t.packet, highPrio) + Queue(t, highPrio)
         == OfClass(FilledFrom(t).packet, highPrio) + Queue(FilledFrom(t), highPrio)
  {
    var h := Taken(t.eventsHighPrio, t.packet);
    var packet := t.packet + t.eventsHighPrio[..h];
    MovePrefix(t.packet, t.eventsHighPrio, h, true, highPrio);
    MovePrefix(packet, t.events, Taken(t.events, packet), false, highPrio);
  }

  lemma FillingKeepsTags(t: Log)
    requires QueuesTagged(t)
    ensures QueuesTagged(FilledFrom(t))
  {
  }

  lemma SendConserves(s: System, i: nat, highPrio: bool)
    requires Inv(s) && Enabled(s, Send(i))
    ensures ConservedFor(Next(s, Send(i)), highPrio)
  {
    hide OfClass, FilledFrom, SingleFlight, RunCounted, Bounded;
    var next := s.active[i].next;
    var t := Settled(s.log, next);
    assert ConservedFor(s, highPrio);
    var D, P, Q := OfClass(s.discharged, highPrio), OfClass(s.log.packet, highPrio), Queue(s.log, highPrio);
    OfClassConcat(s.discharged, s.log.packet, highPrio);
    assert D + (P + Q) == D + P + ([] + Q);
    FillingConserves(t, highPrio);
    SentConserves(s, t, next, highPrio);
  }

  lemma SentConserves(s: System, t: Log, next: bool, highPrio: bool)
    requires ConservedFor(s, highPrio) && t == Settled(s.log, next)
    requires OfClass(s.discharged + s.log.packet, highPrio)
          == OfClass(s.discharged, highPrio) + OfClass(s.log.packet, highPrio)
    ensures OfClass(s.accepted, highPrio)
         == OfClass(if next then s.discharged + s.log.packet else s.discharged, highPrio)
            + (OfClass(t.packet, highPrio) + Queue(t, highPrio))
  {
    var D, P, Q := OfClass(s.discharged, highPrio), OfClass(s.log.packet, highPrio), Queue(s.log, highPrio);
    assert D + (P + Q) == D + P + ([] + Q);
  }

  lemma AppendConserves(s: System, e: Event, highPrio: bool, h: bool)
    requires Inv(s)
    ensures ConservedFor(Next(s, Append(e, highPrio)), h)
  {
    hide OfClass, SingleFlight, RunCounted, Bounded;
    assert ConservedFor(s, h);
    if Accepts(s.log, highPrio) {
      OfClassConcat(s.accepted, [Entry(e, highPrio)], h);
      OfClassUniform([Entry(e, highPrio)], highPrio, h);
      var D, P, Q := OfClass(s.discharged, h), OfClass(s.log.packet, h), Queue(s.log, h);
      var X := OfClass([Entry(e, highPrio)], h);
      assert D + (P + Q) + X == D + (P + (Q + X));
      assert Queue(AfterAppend(s.log, e, highPrio), h) == Q + X;
    }
  }

  lemma RunSnoc(run: seq<Sent>, p: Sent)
    ensures TotalSize(run + [p]) == TotalSize(run) + p.size
    ensures NonFull(run + [p], true) == NonFull(run, true) + (if p.forced && p.size < MAX_POST_EVENTS then 1 else 0)
    ensures NonFull(run + [p], false) == NonFull(run, false) + (if !p.forced && p.size < MAX_POST_EVENTS then 1 else 0)
  {
    assert (run + [p])[..|run|] == run;
  }

  lemma SendKeepsFlight(s: System, i: nat)
    requires Inv(s) && Enabled(s, Send(i))
    ensures Bounded(Next(s, Send(i)).log) && SingleFlight(Next(s, Send(i)))
  {
    assert s.active == [s.active[i]];
    FillingBounds(Settled(s.log, s.active[i].next));
  }

  /** A new packet without force is full, or the packets before it fill up evenly. */
  lemma RunGrows(run: seq<Sent>, p: Sent)
    requires 1 <= p.size <= MAX_POST_EVENTS
    requires NonFull(run, false) <= NonFull(run, true) + (if TotalSize(run) % MAX_POST_EVENTS == 0 then 0 else 1)
    requires !p.forced && p.size < MAX_POST_EVENTS ==> TotalSize(run) % MAX_POST_EVENTS == 0
    ensures var r := run + [p];
      NonFull(r, false) <= NonFull(r, true) + (if TotalSize(r) % MAX_POST_EVENTS == 0 then 0 else 1)
  {
    RunSnoc(run, p);
  }

  /** The packets a thread about to send counts on are those in m_upload_run. */
  lemma SettledRun(s: System, i: nat)
    requires Inv(s) && Enabled(s, Send(i))
    ensures var next := s.active[i].next;
      && Settled(s.log, next).uploadRun == TotalSize(if next then s.run else [])
      && (next || s.log.packet + s.log.eventsHighPrio + s.log.events != [])
  {
    assert s.active == [s.active[i]] && Backed(s.log, s.active[0]);
  }

  lemma NoneSent()
    ensures TotalSize([]) == 0 && NonFull([], true) == 0 && NonFull([], false) == 0
  {
  }

  lemma SendKeepsRunCounted(s: System, i: nat)
    requires Inv(s) && Enabled(s, Send(i))
    ensures RunCounted(Next(s, Send(i)))
  {
    hide OfClass, Conserved, FilledFrom, QueuesTagged, TotalSize, NonFull;
    var next := s.active[i].next;
    var t := Settled(s.log, next);
    var s' := Next(s, Send(i));
    SettledRun(s, i);
    NoneSent();
    assert Without(s.active, i) == [];
    if !EndsRun(t) {
      PacketSent(s.log, t, next, if next then s.run else []);
      var sent := Sent(|s'.log.packet|, next && s.log.eventsHighPrio != []);
      assert s'.active == [Calling] && s'.run == (if next then s.run else []) + [sent];
      assert s'.log.uploadRun == t.uploadRun >= 0;
    } else {
      assert s'.active == [] && s'.run == s.run;
    }
  }

  /** A packet that is not full, and that no high-priority event forced, ends evenly. */
  lemma PacketFull(t: Log)
    requires Bounded(t) && !EndsRun(t) && t.packet + t.eventsHighPrio + t.events != []
    ensures var f := FilledFrom(t);
      && 1 <= |f.packet| <= MAX_POST_EVENTS && f.uploadRun == t.uploadRun
      && (t.eventsHighPrio == [] && |f.packet| < MAX_POST_EVENTS ==> t.uploadRun % MAX_POST_EVENTS == 0)
  {
    hide FilledFrom;
    FillingBounds(t);
  }

  lemma PacketSent(log: Log, t: Log, next: bool, before: seq<Sent>)
    requires Bounded(log) && t == Settled(log, next) && !EndsRun(t) && t.uploadRun == TotalSize(before)
    requires next || t.packet + t.eventsHighPrio + t.events != []
    requires NonFull(before, false)
          <= NonFull(before, true) + (if TotalSize(before) % MAX_POST_EVENTS == 0 then 0 else 1)
    requires !next ==> before == []
    ensures var f := FilledFrom(t);
      var run := before + [Sent(|f.packet|, next && log.eventsHighPrio != [])];
      && 1 <= |f.packet| <= MAX_POST_EVENTS && f.uploadRun == t.uploadRun
      && NonFull(run, false) <= NonFull(run, true) + (if TotalSize(run) % MAX_POST_EVENTS == 0 then 0 else 1)
      && TotalSize(run) == f.uploadRun + |f.packet|
  {
    PacketFull(t);
    hide FilledFrom, TotalSize, NonFull;
    var f := FilledFrom(t);
    var sent := Sent(|f.packet|, next && log.eventsHighPrio != []);
    RunSnoc(before, sent);
    RunGrows(before, sent);
  }

  lemma AppendKeepsInv(s: System, e: Event, highPrio: bool)
    requires Inv(s)
    ensures Inv(Next(s, Append(e, highPrio)))
  {
    AppendConserves(s, e, highPrio, true);
    AppendConserves(s, e, highPrio, false);
  }

  lemma StepKeepsInv(s: System, step: Step)
    requires Inv(s) && Enabled(s, step)
    ensures Inv(Next(s, step))
  {
    hide OfClass, TotalSize, NonFull, FilledFrom, Taken;
    match step
    case Append(e, highPrio) =>
      AppendKeepsInv(s, e, highPrio);
    case Trigger =>
      assert Triggers(s.log) ==> s.active == [];
    case Send(i) =>
      SendConserves(s, i, true);
      SendConserves(s, i, false);
      FillingKeepsTags(Settled(s.log, s.active[i].next));
      SendKeepsFlight(s, i);
      SendKeepsRunCounted(s, i);
    case Call(i, taken) =>
      assert s.active == [Calling] && Backed(s.log, s.active[0]);
    case Reply(i, status) =>
      assert s.active == [s.active[i]] && Backed(s.log, s.active[0]);
    case Clear(i) =>
      assert s.active == [Clearing];
  }

  lemma {:induction false} RunKeepsInv(s: System, steps: seq<Step>)
    requires Inv(s) && IsRun(s, steps)
    ensures Inv(Exec(s, steps))
    decreases |steps|
  {
    if steps != [] {
      StepKeepsInv(s, steps[0]);
      RunKeepsInv(Next(s, steps[0]), steps[1..]);
    }
  }

  lemma InitInv()
    ensures Inv(Init())
  {
  }

  // --- Main results -----------------------------------------------------------------------

  /** In every interleaving: each priority class leaves in the order it was accepted, every
      accepted event being either discharged, in the packet or queued. */
  lemma EveryRunConserves(steps: seq<Step>, highPrio: bool)
    requires IsRun(Init(), steps)
    ensures var s := Exec(Init(), steps);
      OfClass(s.accepted, highPrio)
      == OfClass(s.discharged, highPrio) + (OfClass(s.log.packet, highPrio) + Queue(s.log, highPrio))
  {
    InitInv();
    RunKeepsInv(Init(), steps);
  }

  /** In every interleaving at most one upload is between its decision and its reply, what the
      uploader is given holds 1 to 50 events, and the queues keep their bounds. */
  lemma EveryRunIsSingleFlight(steps: seq<Step>)
    requires IsRun(Init(), steps)
    ensures var s := Exec(Init(), steps);
      && |s.active| <= 1
      && (s.active != [] <==> s.log.pendingUpload)
      && (forall h :: InFlight(h) in s.active ==> h == s.log.packet && 1 <= |h| <= MAX_POST_EVENTS)
      && (Calling in s.active ==> 1 <= |s.log.packet| <= MAX_POST_EVENTS)
      && |s.log.eventsHighPrio| <= MAX_PRIO_ELEMENTS && |s.log.events| <= MAX_ELEMENTS
  {
    InitInv();
    RunKeepsInv(Init(), steps);
    var s := Exec(Init(), steps);
    assert forall k | 0 <= k < |s.active| :: Backed(s.log, s.active[k]);
  }

  predicate HasReply(steps: seq<Step>) {
    exists k :: 0 <= k < |steps| && steps[k].Reply?
  }

  /** The packet handed to the uploader does not change before the reply arrives. */
  lemma {:induction false} PacketStableInFlight(s: System, steps: seq<Step>, h: seq<Entry>)
    requires Inv(s) && s.active == [InFlight(h)] && IsRun(s, steps) && !HasReply(steps)
    ensures Exec(s, steps).active == [InFlight(h)] && Exec(s, steps).log.packet == h
    decreases |steps|
  {
    hide Inv, Next, Enabled;
    if steps == [] {
      HandedIsPacket(s, h);
    } else {
      assert !steps[0].Reply?;
      assert forall k | 0 <= k < |steps| - 1 :: steps[1..][k] == steps[k + 1];
      StepKeepsInv(s, steps[0]);
      FlightStep(s, steps[0], h);
      PacketStableInFlight(Next(s, steps[0]), steps[1..], h);
    }
  }

  lemma HandedIsPacket(s: System, h: seq<Entry>)
    requires Inv(s) && s.active == [InFlight(h)]
    ensures s.log.packet == h
  {
    hide Conserved, RunCounted, QueuesTagged;
    assert Backed(s.log, s.active[0]);
  }

  lemma FlightStep(s: System, step: Step, h: seq<Entry>)
    requires Inv(s) && Enabled(s, step) && s.active == [InFlight(h)] && !step.Reply?
    ensures Next(s, step).active == [InFlight(h)]
  {
    hide Conserved, RunCounted, QueuesTagged, FilledFrom;
  }

  /** After a network error the next packet starts with the events of the failed one. */
  lemma RetryKeepsPacket(s: System, i: nat)
    requires Inv(s) && Enabled(s, Send(i)) && s.active[i] == Sending(false)
    ensures s.log.packet <= Next(s, Send(i)).log.packet
    ensures Next(s, Send(i)).active == [Calling]
  {
    assert s.active == [Sending(false)] && Backed(s.log, s.active[0]);
    FillingBounds(Settled(s.log, false));
  }

  /** A step while nothing is appended and the uploader neither refuses nor fails. */
  predicate Quiet(step: Step) {
    match step
    case Append(_, _) => false
    case Trigger => false
    case Call(_, taken) => taken
    case Reply(_, status) => status != NetworkError
    case _ => true
  }

  /** Each follow-up packet takes events from the queues, so this falls with every quiet step. */
  function Rank(s: System): nat {
    4 * (|s.log.eventsHighPrio| + |s.log.events|)
    + if s.active == [] then 0
      else match s.active[0]
           case Sending(next) => if next then 1 else 4
           case Calling => 3
           case InFlight(_) => 2
           case Clearing => 1
  }

  lemma QuietStepLowersRank(s: System, step: Step)
    requires Inv(s) && Enabled(s, step) && Quiet(step)
    ensures Rank(Next(s, step)) < Rank(s)
    ensures Next(s, step).active == [] && step.Send? ==>
      var log := Next(s, step).log; log.eventsHighPrio == [] && |log.events| < MAX_POST_EVENTS
  {
    hide Conserved, RunCounted, QueuesTagged, FilledFrom;
    assert |s.active| <= 1;
    match step
    case Send(i) => QuietSend(s, i);
    case Clear(i) =>
      assert s.active == [Clearing] && Without(s.active, i) == [];
    case _ =>
  }

  lemma QuietSend(s: System, i: nat)
    requires Inv(s) && Enabled(s, Send(i))
    ensures var t := Next(s, Send(i));
      && Rank(t) < Rank(s)
      && (t.active == [] ==> t.log.eventsHighPrio == [] && |t.log.events| < MAX_POST_EVENTS)
  {
    hide Conserved, RunCounted, QueuesTagged, FilledFrom;
    assert s.active == [s.active[i]] && Backed(s.log, s.active[0]);
    FillingBounds(Settled(s.log, s.active[i].next));
    assert Without(s.active, i) == [];
  }

  lemma QuietStepExists(s: System)
    requires s.active != [] && !s.active[0].Clearing?
    ensures exists step :: Enabled(s, step) && Quiet(step)
  {
    match s.active[0]
    case Sending(_) => assert Enabled(s, Send(0)) && Quiet(Send(0));
    case Calling => assert Enabled(s, Call(0, true)) && Quiet(Call(0, true));
    case InFlight(_) => assert Enabled(s, Reply(0, RestOk(200))) && Quiet(Reply(0, RestOk(200)));
  }

  lemma QuietStepEffect(s: System, step: Step)
    requires Inv(s) && Clearing !in s.active && Enabled(s, step) && Quiet(step)
    ensures Clearing !in Next(s, step).active && (Next(s, step).active == [] ==> step.Send?)
  {
    assert |s.active| <= 1;
  }

  /** Triggers are allowed too: while an upload is pending they do nothing. */
  predicate QuietOrTrigger(steps: seq<Step>) {
    forall step | step in steps :: Quiet(step) || step.Trigger?
  }

  /** An upload is pending before every step. */
  predicate Uploading(s: System, steps: seq<Step>)
    requires IsRun(s, steps)
    decreases |steps|
  {
    steps == [] || (s.active != [] && Uploading(Next(s, steps[0]), steps[1..]))
  }

  function Moves(steps: seq<Step>): nat {
    if steps == [] then 0 else (if steps[0].Trigger? then 0 else 1) + Moves(steps[1..])
  }

  lemma TriggerStutters(s: System)
    requires Inv(s) && s.active != []
    ensures Next(s, Trigger) == s
  {
  }

  /** With appends stopped and a working uploader a run of uploads ends: it has at most Rank steps
      besides triggers, it can go on as long as an upload is pending, and where it ends no
      high-priority event and less than one packet of others is left. */
  lemma {:induction false} QuietRunDrains(s: System, steps: seq<Step>)
    requires Inv(s) && s.active != [] && Clearing !in s.active && IsRun(s, steps)
    requires QuietOrTrigger(steps) && Uploading(s, steps)
    ensures Moves(steps) <= Rank(s)
    ensures Trigger !in steps ==> |steps| <= Rank(s)
    ensures var t := Exec(s, steps);
      && (t.active == [] ==> t.log.eventsHighPrio == [] && |t.log.events| < MAX_POST_EVENTS)
      && (t.active != [] ==> exists step :: Enabled(t, step) && Quiet(step))
    decreases |steps|
  {
    if steps == [] {
      QuietStepExists(s);
    } else {
      var t, rest := Next(s, steps[0]), steps[1..];
      assert QuietOrTrigger(rest) && (Quiet(steps[0]) || steps[0].Trigger?);
      if steps[0].Trigger? {
        TriggerStutters(s);
        QuietRunDrains(s, rest);
      } else {
        StepKeepsInv(s, steps[0]);
        QuietStepLowersRank(s, steps[0]);
        QuietStepEffect(s, steps[0]);
        if t.active != [] {
          QuietRunDrains(t, rest);
        } else {
          assert rest == [];
        }
      }
    }
  }

  /** Tickle prevention: in a run of uploads, packets that are sent below their full size
      without high-priority events forcing them outnumber the forced ones by at most one. */
  lemma TicklePrevention(steps: seq<Step>)
    requires IsRun(Init(), steps)
    ensures var run := Exec(Init(), steps).run;
      && NonFull(run, false) <= NonFull(run, true) + 1
      && ((forall k | 0 <= k < |run| :: !run[k].forced) ==> NonFull(run, false) + NonFull(run, true) <= 1)
  {
    InitInv();
    RunKeepsInv(Init(), steps);
    var run := Exec(Init(), steps).run;
    if forall k | 0 <= k < |run| :: !run[k].forced {
      NoneForced(run);
    }
  }

  lemma {:induction false} NoneForced(run: seq<Sent>)
    requires forall k | 0 <= k < |run| :: !run[k].forced
    ensures NonFull(run, true) == 0
  {
    if run != [] {
      NoneForced(run[..|run| - 1]);
    }
  }
}
