/** What interleaving does to the promises of `EventQueue`: which signals are lost, and when two
    events of one key are queued although all of them are unique. */
module QueueRaces {
  import opened Events
  import opened QueueWait
  import opened Strings

  // --- Lost signals -----------------------------------------------------------------------

  /** Step g of the run signals the condition. */
  predicate SignalAt(s: System, steps: seq<Step>, g: nat)
    requires IsRun(s, steps) && g < |steps|
  {
    steps[g].Push? && At(s, steps, g).pushers[steps[g].i].Signalling?
  }

  /** A signal before step j that no later wait has reset. */
  ghost predicate Unreset(s: System, steps: seq<Step>, g: nat, j: nat)
    requires IsRun(s, steps) && j <= |steps|
  {
    g < j && SignalAt(s, steps, g) && forall k | g < k < j :: !steps[k].EnterWait?
  }

  lemma {:induction false} SignalledAt(s: System, steps: seq<Step>, j: nat)
    requires IsRun(s, steps) && j <= |steps| && !s.signalled
    ensures At(s, steps, j).signalled <==> exists g :: Unreset(s, steps, g, j)
  {
    if j > 0 {
      SignalledAt(s, steps, j - 1);
      AtNext(s, steps, j - 1);
      SignalledStep(At(s, steps, j - 1), steps[j - 1]);
      hide At, Next, Enabled;
      if exists g :: Unreset(s, steps, g, j) {
        var g: nat :| Unreset(s, steps, g, j);
        if g < j - 1 {
          assert Unreset(s, steps, g, j - 1);
        }
      }
      if At(s, steps, j).signalled {
        if At(s, steps, j - 1).signalled {
          var g :| Unreset(s, steps, g, j - 1);
          assert Unreset(s, steps, g, j);
        } else {
          assert Unreset(s, steps, j - 1, j);
        }
      }
    }
  }

  lemma SignalledStep(s: System, step: Step)
    requires Enabled(s, step)
    ensures Next(s, step).signalled
         == (!step.EnterWait? && (s.signalled || (step.Push? && s.pushers[step.i].Signalling?)))
  {
    hide FirstInQueue, MergedInto;
  }

  /** In every run, a waiting consumer can be woken if and only if some thread has signalled since
      the consumer began to wait. */
  lemma WokenExactly(steps: seq<Step>)
    requires IsRun(Init(), steps)
    ensures var s := Exec(Init(), steps);
      Enabled(s, Wake) <==> s.consumer.Waiting? && exists g :: Unreset(Init(), steps, g, |steps|)
  {
    AtEnd(Init(), steps);
    SignalledAt(Init(), steps, |steps|);
  }

  predicate ByOthers(step: Step) {
    step.Arrive? || step.Push?
  }

  lemma ConsumerStep(s: System, step: Step)
    requires Enabled(s, step)
    ensures ByOthers(step) ==> Next(s, step).consumer == s.consumer
    ensures Next(s, step).consumer.BeforeWait? && !ByOthers(step) ==> step.Call? && s.queue == []
    ensures Next(s, step).consumer.Waiting? && !ByOthers(step) ==> step.EnterWait? && s.consumer.BeforeWait?
  {
    hide FirstInQueue, MergedInto;
  }

  lemma {:induction false} LookedAt(steps: seq<Step>, j: nat) returns (c: nat)
    requires IsRun(Init(), steps) && j <= |steps| && At(Init(), steps, j).consumer.BeforeWait?
    ensures c < j && steps[c] == Call && At(Init(), steps, c).queue == []
    ensures forall k | c < k < j :: ByOthers(steps[k])
  {
    AtNext(Init(), steps, j - 1);
    ConsumerStep(At(Init(), steps, j - 1), steps[j - 1]);
    hide At, Next;
    c := j - 1;
    if ByOthers(steps[j - 1]) {
      c := LookedAt(steps, j - 1);
    }
  }

  /** The consumer waits since step w, after it looked at the queue in step c and found it empty;
      no step since then but w is its own. */
  ghost predicate WaitsSince(steps: seq<Step>, c: nat, w: nat, j: nat)
    requires IsRun(Init(), steps) && j <= |steps|
  {
    && c < w < j && steps[c] == Call && steps[w] == EnterWait
    && At(Init(), steps, c).queue == []
    && forall k | c < k < j && k != w :: ByOthers(steps[k])
  }

  lemma {:induction false} WaitsFrom(steps: seq<Step>, j: nat) returns (c: nat, w: nat)
    requires IsRun(Init(), steps) && j <= |steps| && At(Init(), steps, j).consumer.Waiting?
    ensures WaitsSince(steps, c, w, j)
  {
    AtNext(Init(), steps, j - 1);
    ConsumerStep(At(Init(), steps, j - 1), steps[j - 1]);
    hide At, Next;
    if ByOthers(steps[j - 1]) {
      c, w := WaitsFrom(steps, j - 1);
    } else {
      w := j - 1;
      c := LookedAt(steps, w);
    }
  }

  lemma AppendedStep(s: System, step: Step, from: nat)
    requires Enabled(s, step) && from <= s.appended && forall x | x in s.queue :: x.serial >= from
    ensures Next(s, step).appended >= from && forall x | x in Next(s, step).queue :: x.serial >= from
  {
    hide FirstInQueue, MergedInto;
  }

  lemma {:induction false} AppendedSince(s: System, steps: seq<Step>, c: nat, j: nat)
    requires IsRun(s, steps) && c <= j <= |steps| && At(s, steps, c).queue == []
    ensures At(s, steps, j).appended >= At(s, steps, c).appended
    ensures forall x | x in At(s, steps, j).queue :: x.serial >= At(s, steps, c).appended
    decreases j
  {
    if c < j {
      AppendedSince(s, steps, c, j - 1);
      AtNext(s, steps, j - 1);
      AppendedStep(At(s, steps, j - 1), steps[j - 1], At(s, steps, c).appended);
    }
  }

  /** Where the consumer waits, it had looked at the queue before every queued event was appended,
      and only the time-out can end the wait if and only if every signal given since that look came
      before the wait began. */
  lemma LostExactly(steps: seq<Step>) returns (c: nat, w: nat)
    requires IsRun(Init(), steps) && Exec(Init(), steps).consumer.Waiting?
    ensures WaitsSince(steps, c, w, |steps|)
    ensures var s := Exec(Init(), steps);
      && (forall x | x in s.queue :: x.serial >= At(Init(), steps, c).appended)
      && (!Enabled(s, Wake) <==> forall g | c < g < |steps| && SignalAt(Init(), steps, g) :: g < w)
  {
    AtEnd(Init(), steps);
    c, w := WaitsFrom(steps, |steps|);
    AppendedSince(Init(), steps, c, |steps|);
    WokenExactly(steps);
    hide At, Exec, IsRun;
    if exists g :: Unreset(Init(), steps, g, |steps|) {
      var g: nat :| Unreset(Init(), steps, g, |steps|);
      assert g > w;
    }
    if g: nat :| c < g < |steps| && SignalAt(Init(), steps, g) && g >= w {
      assert Unreset(Init(), steps, g, |steps|);
    }
  }

  // --- Two events of one key --------------------------------------------------------------

  predicate Appends(p: Pusher, key: Key) {
    p.Appending? && KeyOf(p.event) == key
  }

  /** Events of the key that are queued or about to be appended. */
  ghost predicate AtMostOne(s: System, key: Key) {
    && (forall i, j | 0 <= i < j < |s.queue| ::
          !(KeyOf(s.queue[i].event) == key && KeyOf(s.queue[j].event) == key))
    && (forall i, j | 0 <= i < j < |s.pushers| :: !(Appends(s.pushers[i], key) && Appends(s.pushers[j], key)))
    && forall i, j | 0 <= i < |s.queue| && 0 <= j < |s.pushers| ::
         !(KeyOf(s.queue[i].event) == key && Appends(s.pushers[j], key))
  }

  ghost predicate TwoQueued(s: System, key: Key) {
    exists i, j :: 0 <= i < j < |s.queue| && KeyOf(s.queue[i].event) == key && KeyOf(s.queue[j].event) == key
  }

  /** A thread searches the queue for the key while another is about to append an event of it. */
  ghost predicate Overlaps(s: System, step: Step, key: Key) {
    && step.Push? && step.i < |s.pushers| && s.pushers[step.i].Checking? && KeyOf(s.pushers[step.i].event) == key
    && exists j :: 0 <= j < |s.pushers| && Appends(s.pushers[j], key)
  }

  /** All events of the key are unique. */
  predicate UniqueArrival(step: Step, key: Key) {
    step.Arrive? && KeyOf(step.event) == key ==> IsUnique(step.event)
  }

  lemma OverlapBreaks(s: System, step: Step, key: Key)
    requires Enabled(s, step) && AtMostOne(s, key) && UniqueArrival(step, key)
    ensures AtMostOne(Next(s, step), key) <==> !Overlaps(s, step, key)
  {
    match step
    case Push(i) => PushBreaks(s, i, key);
    case _ =>
  }

  lemma PushBreaks(s: System, i: nat, key: Key)
    requires i < |s.pushers| && AtMostOne(s, key)
    ensures AtMostOne(Pushed(s, i), key) <==> !Overlaps(s, Push(i), key)
  {
    hide FirstInQueue, MergedInto, EventsIn;
    var t := Pushed(s, i);
    match s.pushers[i]
    case Checking(e) =>
      var k := FirstInQueue(EventsIn(s.queue), KeyOf(e));
      if k < |s.queue| {
        ReplacedKeepsOne(s, i, k, e, key);
      } else {
        StartsAppending(s, i, e, key);
      }
    case Appending(e) =>
    case _ =>
  }

  /** Merging keeps every key in its place. */
  lemma ReplacedKeepsOne(s: System, i: nat, k: nat, e: Event, key: Key)
    requires AtMostOne(s, key) && i < |s.pushers| && s.pushers[i] == Checking(e) && k < |s.queue|
    requires k == FirstInQueue(EventsIn(s.queue), KeyOf(e))
    ensures AtMostOne(Pushed(s, i), key) && !Overlaps(s, Push(i), key)
  {
    assert KeyOf(s.queue[k].event) == KeyOf(e);
    assert KeyOf(MergedInto(e, s.queue[k].event)) == KeyOf(s.queue[k].event);
    hide FirstInQueue, MergedInto, EventsIn;
  }

  lemma StartsAppending(s: System, i: nat, e: Event, key: Key)
    requires AtMostOne(s, key) && i < |s.pushers| && s.pushers[i] == Checking(e)
    requires FirstInQueue(EventsIn(s.queue), KeyOf(e)) >= |s.queue|
    ensures AtMostOne(Pushed(s, i), key) <==> !Overlaps(s, Push(i), key)
  {
    var t := Pushed(s, i);
    NoneOfKey(s.queue, KeyOf(e));
    hide FirstInQueue, EventsIn;
    if Overlaps(s, Push(i), key) {
      var j :| 0 <= j < |s.pushers| && Appends(s.pushers[j], key);
      assert Appends(t.pushers[j], key) && Appends(t.pushers[i], key);
    }
  }

  lemma NoneOfKey(queue: seq<Entry>, key: Key)
    requires FirstInQueue(EventsIn(queue), key) >= |queue|
    ensures forall i | 0 <= i < |queue| :: KeyOf(queue[i].event) != key
  {
    hide FirstInQueue;
    forall i | 0 <= i < |queue| ensures KeyOf(queue[i].event) != key {
      assert EventsIn(queue)[i] == queue[i].event;
    }
  }

  ghost predicate AlwaysOne(steps: seq<Step>, key: Key)
    requires IsRun(Init(), steps)
  {
    forall j | 0 <= j <= |steps| :: AtMostOne(At(Init(), steps, j), key)
  }

  ghost predicate NeverOverlaps(steps: seq<Step>, key: Key)
    requires IsRun(Init(), steps)
  {
    forall j | 0 <= j < |steps| :: !Overlaps(At(Init(), steps, j), steps[j], key)
  }

  /** While all events of a key are unique: at most one of them is queued or about to be, throughout
      a run, if and only if in no step of it a thread searches the queue for the key while another
      is about to append. */
  lemma OneWithoutOverlap(steps: seq<Step>, key: Key)
    requires IsRun(Init(), steps) && forall step | step in steps :: UniqueArrival(step, key)
    ensures AlwaysOne(steps, key) <==> NeverOverlaps(steps, key)
  {
    hide Next, Overlaps, AtMostOne, IsRun;
    if AlwaysOne(steps, key) {
      forall j | 0 <= j < |steps| ensures !Overlaps(At(Init(), steps, j), steps[j], key) {
        AtNext(Init(), steps, j);
        assert AtMostOne(At(Init(), steps, j), key) && AtMostOne(At(Init(), steps, j + 1), key);
        OverlapBreaks(At(Init(), steps, j), steps[j], key);
      }
    }
    if NeverOverlaps(steps, key) {
      forall j | 0 <= j <= |steps| ensures AtMostOne(At(Init(), steps, j), key) {
        OneUpTo(steps, key, j);
      }
    }
  }

  lemma {:induction false} OneUpTo(steps: seq<Step>, key: Key, j: nat)
    requires IsRun(Init(), steps) && j <= |steps| && forall step | step in steps :: UniqueArrival(step, key)
    requires forall k | 0 <= k < j :: !Overlaps(At(Init(), steps, k), steps[k], key)
    ensures AtMostOne(At(Init(), steps, j), key)
  {
    if j > 0 {
      hide Next, Overlaps, AtMostOne;
      OneUpTo(steps, key, j - 1);
      AtNext(Init(), steps, j - 1);
      OverlapBreaks(At(Init(), steps, j - 1), steps[j - 1], key);
    }
  }

  lemma NothingQueued(s: System, i: nat, j: nat, key: Key)
    requires AtMostOne(s, key) && i < |s.pushers| && j < |s.pushers|
    requires s.pushers[i].Checking? && KeyOf(s.pushers[i].event) == key && Appends(s.pushers[j], key)
    ensures FirstInQueue(EventsIn(s.queue), KeyOf(s.pushers[i].event)) >= |s.queue|
  {
    hide FirstInQueue;
    assert forall k | 0 <= k < |s.queue| :: EventsIn(s.queue)[k] == s.queue[k].event;
  }

  /** After an overlap, the next step of each of the two threads queues its event. */
  lemma OverlapQueuesTwo(s: System, i: nat, j: nat, key: Key)
    requires AtMostOne(s, key) && i < |s.pushers| && j < |s.pushers|
    requires s.pushers[i].Checking? && KeyOf(s.pushers[i].event) == key && Appends(s.pushers[j], key)
    ensures var steps := [Push(i), Push(j), Push(i)];
      IsRun(s, steps) && TwoQueued(Exec(s, steps), key)
  {
    hide FirstInQueue, EventsIn, MergedInto, AtMostOne;
    NothingQueued(s, i, j, key);
    var s1 := Next(s, Push(i));
    assert s1.pushers == s.pushers[i := Appending(s.pushers[i].event)] && s1.queue == s.queue;
    var s2 := Next(s1, Push(j));
    assert s2.pushers[i] == Appending(s.pushers[i].event);
    var s3 := Next(s2, Push(i));
    assert s3.queue == s.queue + [Entry(s.appended, s.pushers[j].event), Entry(s.appended + 1, s.pushers[i].event)];
    assert KeyOf(s3.queue[|s.queue|].event) == key && KeyOf(s3.queue[|s.queue| + 1].event) == key;
    assert [] + [Push(i)] == [Push(i)] && [Push(i)] + [Push(j)] == [Push(i), Push(j)];
    assert [Push(i), Push(j)] + [Push(i)] == [Push(i), Push(j), Push(i)];
    RunSnoc(s, [], Push(i));
    RunSnoc(s, [Push(i)], Push(j));
    RunSnoc(s, [Push(i), Push(j)], Push(i));
  }

  /** Such a run exists: two threads that both search before either appends. */
  lemma TwoUniqueQueued(e: Event, f: Event)
    requires IsUnique(e) && IsUnique(f) && KeyOf(e) == KeyOf(f)
    ensures var steps := [Arrive(e), Arrive(f), Push(0), Push(1), Push(0), Push(1)];
      && IsRun(Init(), steps)
      && EventsIn(Exec(Init(), steps).queue) == [e, f]
  {
    var s2 := System([], false, [Checking(e), Checking(f)], Ready, 0, [], 0);
    var s4 := System([], false, [Appending(e), Appending(f)], Ready, 0, [], 0);
    RunThree(Init(), [], Arrive(e), Arrive(f), Push(0));
    assert Next(Next(Init(), Arrive(e)), Arrive(f)) == s2;
    assert Next(Next(s2, Push(0)), Push(1)) == s4;
    assert Next(Next(s4, Push(0)), Push(1)).queue == [Entry(0, e), Entry(1, f)];
    RunThree(Init(), [Arrive(e), Arrive(f), Push(0)], Push(1), Push(0), Push(1));
    assert [Arrive(e), Arrive(f), Push(0)] + [Push(1), Push(0), Push(1)]
        == [Arrive(e), Arrive(f), Push(0), Push(1), Push(0), Push(1)];
  }

  /** And one in which the signal for the only event is given between the look and the wait. */
  lemma WakeupCanBeLost(e: Event)
    requires !IsUnique(e)
    ensures var steps := [Call, Arrive(e), Push(0), Push(0), EnterWait];
      && IsRun(Init(), steps)
      && var s := Exec(Init(), steps);
         s.queue != [] && s.pushers == [Finished] && s.consumer == Waiting && !Enabled(s, Wake)
  {
    var s3 := System([Entry(0, e)], false, [Signalling], BeforeWait, 1, [], 0);
    RunThree(Init(), [], Call, Arrive(e), Push(0));
    assert Next(Next(Next(Init(), Call), Arrive(e)), Push(0)) == s3;
    RunSnoc(Init(), [Call, Arrive(e), Push(0)], Push(0));
    assert [Call, Arrive(e), Push(0)] + [Push(0)] == [Call, Arrive(e), Push(0), Push(0)];
    RunSnoc(Init(), [Call, Arrive(e), Push(0), Push(0)], EnterWait);
    assert [Call, Arrive(e), Push(0), Push(0)] + [EnterWait] == [Call, Arrive(e), Push(0), Push(0), EnterWait];
  }

  lemma RunThree(s: System, steps: seq<Step>, a: Step, b: Step, c: Step)
    requires IsRun(s, steps) && Enabled(Exec(s, steps), a)
    requires Enabled(Next(Exec(s, steps), a), b) && Enabled(Next(Next(Exec(s, steps), a), b), c)
    ensures IsRun(s, steps + [a, b, c])
    ensures Exec(s, steps + [a, b, c]) == Next(Next(Next(Exec(s, steps), a), b), c)
    ensures [] + [a, b, c] == [a, b, c]
  {
    hide Next, Enabled;
    RunSnoc(s, steps, a);
    RunSnoc(s, steps + [a], b);
    RunSnoc(s, steps + [a] + [b], c);
    assert steps + [a] + [b] + [c] == steps + [a, b, c];
  }

  lemma {:induction false} RunSnoc(s: System, steps: seq<Step>, step: Step)
    requires IsRun(s, steps) && Enabled(Exec(s, steps), step)
    ensures IsRun(s, steps + [step]) && Exec(s, steps + [step]) == Next(Exec(s, steps), step)
    decreases |steps|
  {
    if steps == [] {
      assert steps + [step] == [step] && [step][1..] == [];
    } else {
      hide Next, Enabled;
      assert (steps + [step])[1..] == steps[1..] + [step];
      RunSnoc(Next(s, steps[0]), steps[1..], step);
    }
  }
}
