/** The event queue between pushing threads and its one consumer, `EventQueue` of `src/event.cpp`
    over `src/syncevent.cpp`. A step is what a thread does while it holds a mutex. */
module QueueWait {
  import opened Events
  import opened Strings

  /** A queued event with its place in the order of arrival. */
  datatype Entry = Entry(serial: nat, event: Event)

  /** A thread in the queue branch of pushEvent. */
  datatype Pusher =
    | Checking(event: Event)    // a unique event, before the search for one to replace
    | Appending(event: Event)   // the search is over and the lock released
    | Signalling
    | Finished

  /** The thread that calls waitForEvent, and popEvent when that returned true. */
  datatype Consumer = Ready | Found | BeforeWait | Waiting

  datatype System = System(
    queue: seq<Entry>,
    signalled: bool,          // m_State of the SyncEvent
    pushers: seq<Pusher>,
    consumer: Consumer,
    appended: nat,            // how many events have been appended
    popped: seq<Entry>,
    waits: nat)               // timed waits that ended since the first queued event could be taken

  datatype Step =
    | Arrive(event: Event)    // a thread enters pushEvent
    | Push(i: nat)            // that thread's next step
    | Call                    // waitForEvent looks at the queue
    | EnterWait               // waitFor forgets earlier signals
    | Wake                    // the condition has been notified
    | TimeOut
    | Take                    // popEvent

  function Init(): System {
    System([], false, [], Ready, 0, [], 0)
  }

  predicate Enabled(s: System, step: Step) {
    match step
    case Arrive(_) => true
    case Push(i) => i < |s.pushers| && !s.pushers[i].Finished?
    case Call => s.consumer == Ready
    case EnterWait => s.consumer == BeforeWait
    case Wake => s.consumer == Waiting && s.signalled
    case TimeOut => s.consumer == Waiting
    case Take => s.consumer == Found
  }

  function EventsIn(queue: seq<Entry>): (r: seq<Event>)
    ensures |r| == |queue| && forall i | 0 <= i < |r| :: r[i] == queue[i].event
  {
    seq(|queue|, i requires 0 <= i < |queue| => queue[i].event)
  }

  function Replaced(queue: seq<Entry>, k: nat, e: Event): seq<Entry>
    requires k < |queue|
  {
    queue[k := queue[k].(event := MergedInto(e, queue[k].event))]
  }

  function Pushed(s: System, i: nat): System
    requires i < |s.pushers|
  {
    match s.pushers[i]
    case Checking(e) =>
      var k := FirstInQueue(EventsIn(s.queue), KeyOf(e));
      if k < |s.queue| then s.(queue := Replaced(s.queue, k, e), pushers := s.pushers[i := Finished])
      else s.(pushers := s.pushers[i := Appending(e)])
    case Appending(e) =>
      s.(queue := s.queue + [Entry(s.appended, e)], appended := s.appended + 1,
         pushers := s.pushers[i := Signalling], waits := if s.queue == [] then 0 else s.waits)
    case Signalling => s.(signalled := true, pushers := s.pushers[i := Finished])
    case Finished => s
  }

  /** The end of a wait: the return value tells whether the queue holds an event. */
  function WaitEnded(s: System): System {
    s.(consumer := if s.queue == [] then Ready else Found, waits := s.waits + 1)
  }

  function Next(s: System, step: Step): System
    requires Enabled(s, step)
  {
    match step
    case Arrive(e) => s.(pushers := s.pushers + [if IsUnique(e) then Checking(e) else Appending(e)])
    case Push(i) => Pushed(s, i)
    case Call => s.(consumer := if s.queue == [] then BeforeWait else Found)
    case EnterWait => s.(consumer := Waiting, signalled := false)
    case Wake => WaitEnded(s)
    case TimeOut => WaitEnded(s)
    case Take =>
      if s.queue == [] then s.(consumer := Ready)
      else s.(consumer := Ready, queue := s.queue[1..], popped := s.popped + [s.queue[0]], waits := 0)
  }

  predicate IsRun(s: System, steps: seq<Step>)
    decreases |steps|
  {
    steps == [] || (Enabled(s, steps[0]) && IsRun(Next(s, steps[0]), steps[1..]))
  }

  function Exec(s: System, steps: seq<Step>): System
    requires IsRun(s, steps)
    decreases |steps|
  {
    if steps == [] then s else Exec(Next(s, steps[0]), steps[1..])
  }

  /** The state before step j of a run; the one after it for j == |steps|. */
  function At(s: System, steps: seq<Step>, j: nat): (r: System)
    requires IsRun(s, steps) && j <= |steps|
    ensures j < |steps| ==> Enabled(r, steps[j])
    decreases |steps|
  {
    if j == 0 then s else At(Next(s, steps[0]), steps[1..], j - 1)
  }

  lemma {:induction false} AtNext(s: System, steps: seq<Step>, j: nat)
    requires IsRun(s, steps) && j < |steps|
    ensures At(s, steps, j + 1) == Next(At(s, steps, j), steps[j])
    decreases |steps|
  {
    hide Next, Enabled;
    if j > 0 {
      AtNext(Next(s, steps[0]), steps[1..], j - 1);
    }
  }

  lemma {:induction false} AtEnd(s: System, steps: seq<Step>)
    requires IsRun(s, steps)
    ensures At(s, steps, |steps|) == Exec(s, steps)
    decreases |steps|
  {
    hide Next, Enabled;
    if steps != [] {
      AtEnd(Next(s, steps[0]), steps[1..]);
    }
  }

  // --- Order ------------------------------------------------------------------------------

  /** What has been popped and what is queued are all events in the order they were appended. */
  ghost predicate InOrder(s: System) {
    var all := s.popped + s.queue;
    |all| == s.appended && forall i | 0 <= i < |all| :: all[i].serial == i
  }

  lemma OrderKept(s: System, step: Step)
    requires InOrder(s) && Enabled(s, step)
    ensures InOrder(Next(s, step))
  {
    var s' := Next(s, step);
    match step
    case Push(i) => PushInOrder(s, i);
    case Take =>
      if s.queue != [] {
        assert s'.popped + s'.queue == s.popped + s.queue;
      }
    case _ =>
      assert s'.popped + s'.queue == s.popped + s.queue;
  }

  lemma PushInOrder(s: System, i: nat)
    requires InOrder(s) && i < |s.pushers|
    ensures InOrder(Pushed(s, i))
  {
    var s' := Pushed(s, i);
    match s.pushers[i]
    case Checking(e) =>
      var k := FirstInQueue(EventsIn(s.queue), KeyOf(e));
      forall j | 0 <= j < s'.appended ensures (s'.popped + s'.queue)[j].serial == j {
        assert (s.popped + s.queue)[j].serial == j;
      }
    case Appending(e) =>
      assert s'.popped + s'.queue == (s.popped + s.queue) + [Entry(s.appended, e)];
    case _ =>
      assert s'.popped + s'.queue == s.popped + s.queue;
  }

  // --- Delay ------------------------------------------------------------------------------

  /** While an event is queued, a wait that ends makes waitForEvent return true. */
  ghost predicate Prompt(s: System) {
    && (s.consumer == Found ==> s.queue != [])
    && (s.queue != [] ==> s.waits <= 1 && (s.consumer != Found ==> s.waits == 0))
  }

  lemma PromptKept(s: System, step: Step)
    requires Prompt(s) && Enabled(s, step)
    ensures Prompt(Next(s, step))
  {
  }

  lemma {:induction false} RunKeeps(s: System, steps: seq<Step>)
    requires InOrder(s) && Prompt(s) && IsRun(s, steps)
    ensures InOrder(Exec(s, steps)) && Prompt(Exec(s, steps))
    decreases |steps|
  {
    if steps != [] {
      hide InOrder, Prompt, Next;
      OrderKept(s, steps[0]);
      PromptKept(s, steps[0]);
      RunKeeps(Next(s, steps[0]), steps[1..]);
    }
  }

  /** In every interleaving, events are popped in the order they were appended, and at most one
      timed wait ends before waitForEvent returns true for a queue that holds an event. */
  lemma EveryRunIsOrderedAndPrompt(steps: seq<Step>)
    requires IsRun(Init(), steps)
    ensures var s := Exec(Init(), steps);
      && InOrder(s)
      && (s.queue != [] ==> s.waits <= 1 && (s.waits == 1 ==> s.consumer == Found))
  {
    RunKeeps(Init(), steps);
  }

  /** Steps the consumer still takes before it finds an event that is queued. */
  function StepsToFind(c: Consumer): nat {
    match c
    case Found => 0
    case Ready => 1
    case Waiting => 1
    case BeforeWait => 2
  }

  /** With an event queued, every step of the consumer but Take leads it nearer to finding it, no
      step of another thread leads it away, and no second wait begins. */
  lemma NoStuckEvent(s: System, step: Step)
    requires s.queue != [] && Enabled(s, step) && step != Take
    ensures var s' := Next(s, step);
      && s'.queue != [] && s'.queue[0].serial == s.queue[0].serial
      && (if step.Arrive? || step.Push? then s'.consumer == s.consumer
          else StepsToFind(s'.consumer) < StepsToFind(s.consumer))
      && (s'.consumer != BeforeWait || s.consumer == BeforeWait)
  {
    hide FirstInQueue, MergedInto;
  }

  /** The waits that end in some steps. */
  function EndedWaits(steps: seq<Step>): nat {
    if steps == [] then 0 else (if steps[0].Wake? || steps[0].TimeOut? then 1 else 0) + EndedWaits(steps[1..])
  }

  /** From whatever state with an event queued: however long a run takes no event, at most one wait ends
      in it, and then the consumer has found the event. */
  lemma {:induction false} AtMostOneWait(s: System, steps: seq<Step>)
    requires s.queue != [] && IsRun(s, steps) && Take !in steps
    ensures var t := Exec(s, steps);
      && t.queue != [] && EndedWaits(steps) <= 1
      && (EndedWaits(steps) == 1 || s.consumer == Found ==> t.consumer == Found)
      && (s.consumer == Found ==> EndedWaits(steps) == 0)
    decreases |steps|
  {
    if steps != [] {
      assert steps[0] in steps && forall step | step in steps[1..] :: step in steps;
      WaitStep(s, steps[0]);
      hide Next, Enabled;
      AtMostOneWait(Next(s, steps[0]), steps[1..]);
    }
  }

  lemma WaitStep(s: System, step: Step)
    requires s.queue != [] && Enabled(s, step) && step != Take
    ensures var t := Next(s, step);
      && t.queue != []
      && (s.consumer == Found ==> t.consumer == Found && !step.Wake? && !step.TimeOut?)
      && (step.Wake? || step.TimeOut? ==> t.consumer == Found)
  {
    hide FirstInQueue, MergedInto;
  }

  // --- An undisturbed push ----------------------------------------------------------------

  /** The steps of one thread through pushEvent, with nothing in between. */
  function PushSteps(s: System, e: Event): seq<Step> {
    var i := |s.pushers|;
    if !IsUnique(e) then [Arrive(e), Push(i), Push(i)]
    else if FirstInQueue(EventsIn(s.queue), KeyOf(e)) < |s.queue| then [Arrive(e), Push(i)]
    else [Arrive(e), Push(i), Push(i), Push(i)]
  }

  /** They do to the queue what pushEvent does as a whole, and signal exactly if an event was added. */
  lemma UndisturbedPush(s: System, e: Event)
    ensures var steps := PushSteps(s, e);
      && IsRun(s, steps)
      && var t := Exec(s, steps);
         && EventsIn(t.queue) == Queued(EventsIn(s.queue), e)
         && t.pushers == s.pushers + [Finished]
         && t.signalled == (s.signalled || |t.queue| > |s.queue|)
         && t.consumer == s.consumer && t.popped == s.popped
  {
    hide MergedInto, IsUnique, KeyOf, FirstInQueue, EventsIn, IsRun, Exec;
    var i, k := |s.pushers|, FirstInQueue(EventsIn(s.queue), KeyOf(e));
    var s1, rest := Next(s, Arrive(e)), PushSteps(s, e)[1..];
    assert PushSteps(s, e) == [Arrive(e)] + rest;
    RunOfOne(s, Arrive(e), rest);
    if !IsUnique(e) {
      assert rest == [Push(i), Push(i)];
      AppendingRun(s1, i, e);
    } else if k < |s.queue| {
      assert rest == [Push(i)] + [];
      RunOfOne(s1, Push(i), []);
      RunOfNone(Next(s1, Push(i)));
      assert EventsIn(Replaced(s.queue, k, e)) == EventsIn(s.queue)[k := MergedInto(e, EventsIn(s.queue)[k])];
    } else {
      assert rest == [Push(i)] + [Push(i), Push(i)];
      RunOfOne(s1, Push(i), [Push(i), Push(i)]);
      AppendingRun(Next(s1, Push(i)), i, e);
    }
    assert EventsIn(s.queue + [Entry(s.appended, e)]) == EventsIn(s.queue) + [e];
  }

  /** Behind its search a thread appends and signals. */
  lemma AppendingRun(s: System, i: nat, e: Event)
    requires i < |s.pushers| && s.pushers[i] == Appending(e)
    ensures IsRun(s, [Push(i), Push(i)])
    ensures Exec(s, [Push(i), Push(i)])
         == s.(queue := s.queue + [Entry(s.appended, e)], appended := s.appended + 1, signalled := true,
               pushers := s.pushers[i := Finished], waits := if s.queue == [] then 0 else s.waits)
  {
    hide IsRun, Exec;
    var t := Next(s, Push(i));
    assert [Push(i), Push(i)] == [Push(i)] + ([Push(i)] + []);
    RunOfOne(s, Push(i), [Push(i)] + []);
    RunOfOne(t, Push(i), []);
    RunOfNone(Next(t, Push(i)));
    assert t.pushers[i := Finished] == s.pushers[i := Finished];
  }

  lemma RunOfNone(s: System)
    ensures IsRun(s, []) && Exec(s, []) == s
  {
  }

  lemma RunOfOne(s: System, step: Step, rest: seq<Step>)
    requires Enabled(s, step)
    ensures IsRun(s, [step] + rest) <==> IsRun(Next(s, step), rest)
    ensures IsRun(Next(s, step), rest) ==> Exec(s, [step] + rest) == Exec(Next(s, step), rest)
  {
    hide Next, Enabled;
    assert ([step] + rest)[1..] == rest;
  }
}
