/** Schedules of `src/datetools.cpp`, in seconds since the epoch and a zone of constant UTC offset. */
module Schedule {
  import opened Strings

  const NULL_DATE: int := 0

  /** The UTC offset of the zone, and whether the start of a recurrence is given in UTC. */
  datatype Clock = Clock(offset: int, utc: bool) {
    /** getNextOccurence adds the offset to its argument, which is wrong for a start in UTC: an
        occurrence is passed over this much early. */
    function Lead(): int { if utc then offset else 0 }

    /** leapAdjust is called without the offset, which is wrong for a start in local time: it stops
        this much early. */
    function Lag(): int { if utc then 0 else offset }
  }

  /** What the recurrence of libical will still yield is known in advance; the first is m_NextSchedule. */
  datatype Schedule = StaticSchedule(when: int) | ICalSchedule(occurrences: seq<int>, clock: Clock) {
    predicate HasRecurrence() { ICalSchedule? }
  }

  datatype Occurrence = Occurrence(time: int, schedule: Schedule)

  ghost predicate Increasing(s: seq<int>) {
    (forall i | 0 <= i < |s| :: s[i] > NULL_DATE) && forall i, j | 0 <= i < j < |s| :: s[i] < s[j]
  }

  ghost predicate Valid(s: Schedule) {
    s.ICalSchedule? ==> Increasing(s.occurrences)
  }

  /** getNextOccurence; an iCal schedule moves on past an occurrence that is due. */
  function NextOccurrence(s: Schedule, from: int): Occurrence {
    match s
    case StaticSchedule(when) => Occurrence(if from <= when then when else from, s)
    case ICalSchedule(occ, clock) =>
      if occ == [] then Occurrence(NULL_DATE, s)
      else if from + clock.Lead() < occ[0] then Occurrence(occ[0], s)
      else Occurrence(occ[0], ICalSchedule(occ[1..], clock))
  }

  /** The occurrences from a time on. */
  function NotBefore(occ: seq<int>, end: int): (r: seq<int>)
    ensures |r| <= |occ| && (r == [] || r[0] >= end)
  {
    if occ != [] && occ[0] < end then NotBefore(occ[1..], end) else occ
  }

  lemma {:induction false} NotBeforeSuffix(occ: seq<int>, end: int)
    ensures var k := |occ| - |NotBefore(occ, end)|;
      NotBefore(occ, end) == occ[k..] && forall i | 0 <= i < k :: occ[i] < end
  {
    if occ != [] && occ[0] < end {
      NotBeforeSuffix(occ[1..], end);
      var k := |occ[1..]| - |NotBefore(occ[1..], end)|;
      forall i | 0 <= i < k + 1 ensures occ[i] < end {
        assert i > 0 ==> occ[i] == occ[1..][i - 1];
      }
    }
  }

  function LeapAdjusted(s: Schedule, end: int): Schedule {
    match s
    case StaticSchedule(_) => s
    case ICalSchedule(occ, clock) => ICalSchedule(NotBefore(occ, end - clock.Lag()), clock)
  }

  /** Points in time from what the calendar reads. */
  function Times(readings: seq<int>, clock: Clock): seq<int> {
    if readings == [] then [] else [readings[0] - clock.Lag()] + Times(readings[1..], clock)
  }

  /** The iterator of an iCal schedule, with the reading it stands at; local readings are those of UTC
      plus the offset. */
  class ICalIterator {
    const clock: Clock
    var nextSchedule: Option<int>   // None once the recurrence has ended
    var upcoming: seq<int>          // what it will yield afterwards

    ghost function Remaining(): seq<int>
      reads this
    {
      if nextSchedule.None? then [] else Times([nextSchedule.value] + upcoming, clock)
    }

    ghost predicate Valid()
      reads this
    {
      (nextSchedule.None? ==> upcoming == []) && forall t | t in Remaining() :: t != NULL_DATE
    }

    constructor (readings: seq<int>, clock: Clock, now: int)
      requires forall t | t in Times(readings, clock) :: t != NULL_DATE
      ensures this.clock == clock && Valid() && Remaining() == NotBefore(Times(readings, clock), now)
    {
      this.clock, nextSchedule, upcoming := clock, None, readings;
      new;
      Advance();
      var t0 := now;
      if !clock.utc {
        t0 := t0 + clock.offset;
      }
      var _ := LeapAdjust(t0);
    }

    /** icalrecur_iterator_next */
    method Advance()
      requires forall t | t in Times(upcoming, clock) :: t != NULL_DATE
      modifies this
      ensures Valid() && Remaining() == old(Times(upcoming, clock))
    {
      if upcoming == [] {
        nextSchedule := None;
      } else {
        assert upcoming == [upcoming[0]] + upcoming[1..];
        nextSchedule, upcoming := Some(upcoming[0]), upcoming[1..];
      }
    }

    /** What remains is a time and what is upcoming. */
    lemma Head()
      requires nextSchedule.Some?
      ensures Remaining() == [nextSchedule.value - clock.Lag()] + Times(upcoming, clock)
      ensures Remaining()[1..] == Times(upcoming, clock)
      ensures forall t | t in Times(upcoming, clock) :: t in Remaining()
    {
      assert ([nextSchedule.value] + upcoming)[1..] == upcoming;
    }

    method LeapAdjust(endTime: int) returns (skipped: nat)
      requires Valid()
      modifies this
      ensures Valid() && Remaining() == NotBefore(old(Remaining()), endTime - clock.Lag())
      ensures skipped == |old(Remaining())| - |Remaining()|
    {
      skipped := 0;
      while nextSchedule.Some? && nextSchedule.value < endTime
        invariant Valid()
        invariant NotBefore(Remaining(), endTime - clock.Lag()) == NotBefore(old(Remaining()), endTime - clock.Lag())
        invariant skipped == |old(Remaining())| - |Remaining()|
        decreases |Remaining()|
      {
        Head();
        Advance();
        skipped := skipped + 1;
      }
      if nextSchedule.Some? {
        Head();
      }
    }

    method GetNextOccurrence(from: int) returns (result: int)
      requires Valid()
      modifies this
      ensures Valid()
      ensures NextOccurrence(ICalSchedule(old(Remaining()), clock), from)
           == Occurrence(result, ICalSchedule(Remaining(), clock))
    {
      if nextSchedule.None? {
        return NULL_DATE;
      }
      Head();
      var t0 := from + clock.offset;
      result := ToTime(nextSchedule.value);
      if t0 >= nextSchedule.value {
        Advance();
      }
    }

    /** ical_to_tm */
    function ToTime(reading: int): int {
      if clock.utc then reading else reading - clock.offset
    }
  }

  // --- One pass over a schedule -----------------------------------------------------------

  /** What raisePendingEvents makes of one schedule: the occurrence it raises, if any, and the
      schedule, unless it has ended. */
  datatype Passed = Passed(raised: seq<int>, ended: bool, schedule: Schedule)

  function Pass(s: Schedule, now: int): Passed {
    var next := NextOccurrence(s, now);
    if next.time == NULL_DATE then Passed([], true, next.schedule)
    else if next.time > now then Passed([], false, next.schedule)
    else if !s.HasRecurrence() then Passed([next.time], true, next.schedule)
    else
      var ahead := NextOccurrence(next.schedule, now + 1);
      Passed([next.time], ahead.time == NULL_DATE, LeapAdjusted(ahead.schedule, now + 1))
  }

  lemma SuffixIncreasing(s: seq<int>, k: nat)
    requires Increasing(s) && k <= |s|
    ensures Increasing(s[k..])
  {
  }

  /** A one-shot schedule is raised and ended by a pass that finds it due, and left alone by others. */
  lemma StaticPass(when: int, now: int)
    requires now > NULL_DATE
    ensures Pass(StaticSchedule(when), now)
         == if when <= now then Passed([now], true, StaticSchedule(when))
            else Passed([], false, StaticSchedule(when))
  {
  }

  /** Whether a pass takes the first occurrence from the schedule although it is not due. */
  predicate TooEarly(occ: seq<int>, clock: Clock, now: int) {
    occ != [] && now < occ[0] <= now + clock.Lead()
  }

  /** What is left behind the first occurrence when its raise at now has looked a second ahead. */
  function LookedAhead(rest: seq<int>, clock: Clock, now: int): seq<int> {
    if rest != [] && rest[0] <= now + 1 + clock.Lead() then rest[1..] else rest
  }

  /** One raise, however many occurrences are overdue; what is left. */
  lemma RecurringPass(occ: seq<int>, clock: Clock, now: int)
    requires Increasing(occ)
    ensures var r := Pass(ICalSchedule(occ, clock), now);
      && (occ == [] ==> r == Passed([], true, ICalSchedule([], clock)))
      && (occ != [] && occ[0] > now ==>
            r == Passed([], false, ICalSchedule(if TooEarly(occ, clock, now) then occ[1..] else occ, clock)))
      && (occ != [] && occ[0] <= now ==>
            && r.raised == [occ[0]] && (r.ended ==> |occ| == 1)
            && r.schedule == ICalSchedule(NotBefore(LookedAhead(occ[1..], clock, now), now + 1 - clock.Lag()), clock))
  {
    if occ != [] && occ[0] <= now {
      var next := NextOccurrence(ICalSchedule(occ, clock), now).schedule.occurrences;
      if now + clock.Lead() < occ[0] {
        EarlyLook(occ, clock, now);
      }
    }
  }

  /** Where the zone is behind UTC, a raise may leave its own occurrence to leapAdjust. */
  lemma EarlyLook(occ: seq<int>, clock: Clock, now: int)
    requires Increasing(occ) && occ != [] && now + clock.Lead() < occ[0] <= now
    ensures var ahead := if now + 1 + clock.Lead() < occ[0] then occ else occ[1..];
      NotBefore(ahead, now + 1 - clock.Lag()) == NotBefore(LookedAhead(occ[1..], clock, now), now + 1 - clock.Lag())
  {
    assert |occ| > 1 ==> occ[1] > occ[0];
  }

  ghost predicate NoEarlier(occ: seq<int>, end: int) {
    forall i | 0 <= i < |occ| :: occ[i] >= end
  }

  lemma {:induction false} RestLater(occ: seq<int>, end: int)
    requires Increasing(occ)
    ensures Increasing(NotBefore(occ, end)) && NoEarlier(NotBefore(occ, end), end)
  {
    NotBeforeSuffix(occ, end);
    var k := |occ| - |NotBefore(occ, end)|;
    hide NotBefore;
    SuffixIncreasing(occ, k);
    FirstLeast(occ[k..], end);
  }

  lemma FirstLeast(occ: seq<int>, end: int)
    requires Increasing(occ) && (occ != [] ==> occ[0] >= end)
    ensures NoEarlier(occ, end)
  {
  }

  /** After a pass: still a valid schedule, and after a raise nothing is left before now + 1, counted
      by the clock that leapAdjust is called with. */
  ghost predicate MovesOn(s: Schedule, now: int, r: Passed) {
    && Valid(r.schedule) && r.schedule.HasRecurrence() == s.HasRecurrence()
    && |r.raised| <= 1 && (r.raised != [] ==> r.raised[0] <= now)
    && (r.raised != [] && s.HasRecurrence() ==>
          r.schedule.HasRecurrence() && NoEarlier(r.schedule.occurrences, now + 1 - s.clock.Lag()))
  }

  lemma PassMovesOn(s: Schedule, now: int)
    requires Valid(s) && now > NULL_DATE
    ensures MovesOn(s, now, Pass(s, now))
  {
    match s
    case StaticSchedule(when) => StaticPass(when, now);
    case ICalSchedule(occ, clock) => RecurringMovesOn(occ, clock, now);
  }

  lemma RecurringMovesOn(occ: seq<int>, clock: Clock, now: int)
    requires Increasing(occ)
    ensures MovesOn(ICalSchedule(occ, clock), now, Pass(ICalSchedule(occ, clock), now))
  {
    hide Increasing, NotBefore, NoEarlier, Pass;
    RecurringPass(occ, clock, now);
    if occ != [] {
      SuffixIncreasing(occ, 1);
      var rest := occ[1..];
      if rest != [] {
        SuffixIncreasing(rest, 1);
      }
      RestLater(LookedAhead(rest, clock, now), now + 1 - clock.Lag());
    }
  }

  /** No raise leaves an occurrence that is due. */
  ghost predicate LeavesNothingDue(clock: Clock) {
    forall occ, now :: Increasing(occ) ==> NothingDueAfter(occ, clock, now)
  }

  ghost predicate NothingDueAfter(occ: seq<int>, clock: Clock, now: int) {
    var r := Pass(ICalSchedule(occ, clock), now);
    r.raised != [] && r.schedule.ICalSchedule? ==> NoEarlier(r.schedule.occurrences, now + 1)
  }

  /** That holds if and only if the start is in UTC or the zone is not ahead of UTC. */
  lemma NothingDueExactly(clock: Clock)
    ensures LeavesNothingDue(clock) <==> clock.utc || clock.offset <= 0
  {
    if clock.Lag() <= 0 {
      forall occ, now | Increasing(occ) ensures NothingDueAfter(occ, clock, now) {
        RecurringMovesOn(occ, clock, now);
      }
    } else {
      OverdueLeft(clock);
    }
  }

  /** East of UTC a pass at 3 over 1, 2 and 3 leaves the last overdue. */
  lemma OverdueLeft(clock: Clock)
    requires clock.Lag() > 0
    ensures Increasing([1, 2, 3])
    ensures Pass(ICalSchedule([1, 2, 3], clock), 3) == Passed([1], false, ICalSchedule([3], clock))
    ensures !NothingDueAfter([1, 2, 3], clock, 3)
  {
    RecurringPass([1, 2, 3], clock, 3);
    assert [1, 2, 3][1..] == [2, 3] && [2, 3][1..] == [3];
    assert [3][0] < 4;
  }

  // --- All passes over a schedule ---------------------------------------------------------

  /** A raise: for which occurrence, and when. */
  datatype Due = Due(occurrence: int, at: int)

  /** The raises of a schedule by passes at some times. */
  function Raised(s: Schedule, times: seq<int>): seq<Due>
    decreases |times|
  {
    if times == [] then []
    else
      var p := Pass(s, times[0]);
      (if p.raised == [] then [] else [Due(p.raised[0], times[0])])
      + if p.ended then [] else Raised(p.schedule, times[1..])
  }

  /** The occurrences that are left of a recurrence afterwards. */
  function Left(occ: seq<int>, clock: Clock, times: seq<int>): seq<int>
    decreases |times|
  {
    if times == [] then occ
    else
      var p := Pass(ICalSchedule(occ, clock), times[0]);
      if p.ended then [] else Left(p.schedule.occurrences, clock, times[1..])
  }

  /** How many occurrences a raise passes over besides those leapAdjust does. */
  function Taken(occ: seq<int>, clock: Clock, now: int): (n: nat)
    requires occ != []
    ensures 1 <= n <= |occ|
  {
    if |occ| > 1 && occ[1] <= now + 1 + clock.Lead() then 2 else 1
  }

  lemma AheadSuffix(occ: seq<int>, clock: Clock, now: int)
    requires occ != []
    ensures LookedAhead(occ[1..], clock, now) == occ[Taken(occ, clock, now)..]
  {
    assert |occ| > 1 ==> occ[1..][0] == occ[1] && occ[1..][1..] == occ[2..];
  }

  lemma SuffixOfSuffix(occ: seq<int>, n: nat, k: nat)
    requires n <= k <= |occ|
    ensures occ[n..][k - n..] == occ[k..]
  {
  }

  lemma RaiseSuffix(occ: seq<int>, clock: Clock, now: int) returns (k: nat)
    requires occ != []
    ensures 1 <= k <= |occ| && NotBefore(LookedAhead(occ[1..], clock, now), now + 1 - clock.Lag()) == occ[k..]
  {
    hide NotBefore, LookedAhead, Taken;
    AheadSuffix(occ, clock, now);
    var n, end := Taken(occ, clock, now), now + 1 - clock.Lag();
    NotBeforeSuffix(occ[n..], end);
    k := |occ| - |NotBefore(occ[n..], end)|;
    SuffixOfSuffix(occ, n, k);
  }

  /** What a pass leaves is a suffix: behind the occurrence it raised, or takes too early, or all. */
  lemma PassSuffix(occ: seq<int>, clock: Clock, now: int) returns (k: nat)
    requires Increasing(occ)
    ensures var r := Pass(ICalSchedule(occ, clock), now);
      && k <= |occ| && r.schedule == ICalSchedule(occ[k..], clock) && Increasing(occ[k..])
      && (occ != [] && occ[0] <= now ==> k >= 1 && r.raised == [occ[0]])
      && (occ == [] || occ[0] > now ==> r.raised == [] && k == if TooEarly(occ, clock, now) then 1 else 0)
      && (r.ended ==> occ[k..] == [])
  {
    hide Pass, NotBefore, Increasing, LookedAhead;
    RecurringPass(occ, clock, now);
    if occ == [] || occ[0] > now {
      k := if TooEarly(occ, clock, now) then 1 else 0;
      assert occ[0..] == occ;
    } else {
      k := RaiseSuffix(occ, clock, now);
    }
    SuffixIncreasing(occ, k);
  }

  /** An exhausted recurrence raises nothing, and has nothing left. */
  lemma NothingRaised(clock: Clock, times: seq<int>)
    ensures Raised(ICalSchedule([], clock), times) == [] && Left([], clock, times) == []
  {
    if times != [] {
      RecurringPass([], clock, times[0]);
    }
  }

  lemma NoPasses(occ: seq<int>, clock: Clock)
    ensures Raised(ICalSchedule(occ, clock), []) == [] && Left(occ, clock, []) == occ
  {
  }

  /** One pass, then the others over a suffix. */
  lemma FirstPass(occ: seq<int>, clock: Clock, times: seq<int>) returns (k: nat)
    requires Increasing(occ) && times != []
    ensures k <= |occ| && Increasing(occ[k..])
    ensures var p := Pass(ICalSchedule(occ, clock), times[0]);
      && p.schedule == ICalSchedule(occ[k..], clock) && (p.ended ==> occ[k..] == [])
      && p.raised == (if occ != [] && occ[0] <= times[0] then [occ[0]] else [])
    ensures Left(occ, clock, times) == Left(occ[k..], clock, times[1..])
    ensures var later := Raised(ICalSchedule(occ[k..], clock), times[1..]);
      if occ != [] && occ[0] <= times[0] then
        k >= 1 && Raised(ICalSchedule(occ, clock), times) == [Due(occ[0], times[0])] + later
      else
        && k == (if TooEarly(occ, clock, times[0]) then 1 else 0)
        && Raised(ICalSchedule(occ, clock), times) == later
  {
    k := PassSuffix(occ, clock, times[0]);
    hide Pass, Increasing;
    if occ[k..] == [] {
      NothingRaised(clock, times[1..]);
    }
  }

  /** Whatever the offset, each raise has an occurrence of the schedule that was due, and no two have
      the same. */
  lemma {:induction false} RaisedDistinct(occ: seq<int>, clock: Clock, times: seq<int>)
    requires Increasing(occ)
    ensures var ds := Raised(ICalSchedule(occ, clock), times);
      && (forall i | 0 <= i < |ds| :: ds[i].occurrence in occ && ds[i].occurrence <= ds[i].at)
      && forall i, j | 0 <= i < j < |ds| :: ds[i].occurrence < ds[j].occurrence
    ensures forall o | o in Left(occ, clock, times) :: o in occ
    decreases |times|
  {
    hide Pass, Raised, Left;
    if times == [] {
      NoPasses(occ, clock);
    } else {
      var k := FirstPass(occ, clock, times);
      RaisedDistinct(occ[k..], clock, times[1..]);
      var later := Raised(ICalSchedule(occ[k..], clock), times[1..]);
      SuffixAbove(occ, k);
      hide Increasing;
      if occ != [] && occ[0] <= times[0] {
        RaisedBehind(occ, Due(occ[0], times[0]), later, k);
      }
    }
  }

  lemma SuffixAbove(occ: seq<int>, k: nat)
    requires Increasing(occ) && k <= |occ|
    ensures forall o | o in occ[k..] :: o in occ && (k > 0 ==> o > occ[0])
  {
    forall o | o in occ[k..] ensures o in occ && (k > 0 ==> o > occ[0]) {
      var i :| 0 <= i < |occ[k..]| && occ[k..][i] == o;
      assert occ[k + i] == o;
    }
  }

  lemma RaisedBehind(occ: seq<int>, first: Due, later: seq<Due>, k: nat)
    requires 1 <= k <= |occ| && first.occurrence == occ[0] && occ[0] <= first.at
    requires forall o | o in occ[k..] :: o in occ && o > occ[0]
    requires forall i | 0 <= i < |later| :: later[i].occurrence in occ[k..] && later[i].occurrence <= later[i].at
    requires forall i, j | 0 <= i < j < |later| :: later[i].occurrence < later[j].occurrence
    ensures var ds := [first] + later;
      && (forall i | 0 <= i < |ds| :: ds[i].occurrence in occ && ds[i].occurrence <= ds[i].at)
      && forall i, j | 0 <= i < j < |ds| :: ds[i].occurrence < ds[j].occurrence
  {
    var ds := [first] + later;
    forall i | 0 <= i < |ds| ensures ds[i].occurrence in occ && ds[i].occurrence <= ds[i].at {
      assert i > 0 ==> ds[i] == later[i - 1];
    }
    forall i, j | 0 <= i < j < |ds| ensures ds[i].occurrence < ds[j].occurrence {
      assert ds[j] == later[j - 1] && (i > 0 ==> ds[i] == later[i - 1]);
    }
  }

  // --- Lost occurrences -------------------------------------------------------------------

  ghost predicate IsRaised(ds: seq<Due>, o: int) {
    exists i :: 0 <= i < |ds| && ds[i].occurrence == o
  }

  ghost predicate Follows(occ: seq<int>, a: int, b: int) {
    exists i :: 0 <= i < |occ| - 1 && occ[i] == a && occ[i + 1] == b
  }

  /** The raise d takes o with it: o is a later occurrence that leapAdjust passes over, or the very
      next one, which the look a second ahead passes over. */
  ghost predicate Skips(occ: seq<int>, clock: Clock, d: Due, o: int) {
    && d.occurrence < o
    && (o < d.at + 1 - clock.Lag() || (o <= d.at + 1 + clock.Lead() && Follows(occ, d.occurrence, o)))
  }

  ghost predicate Skipped(occ: seq<int>, clock: Clock, ds: seq<Due>, o: int) {
    exists i :: 0 <= i < |ds| && Skips(occ, clock, ds[i], o)
  }

  /** Pass j finds o first, not due yet, and passes over it all the same. */
  ghost predicate MissedAt(occ: seq<int>, clock: Clock, times: seq<int>, j: nat, o: int) {
    && j < |times|
    && var left := Left(occ, clock, times[..j]);
       TooEarly(left, clock, times[j]) && left[0] == o
  }

  ghost predicate Missed(occ: seq<int>, clock: Clock, times: seq<int>, o: int) {
    exists j :: MissedAt(occ, clock, times, j, o)
  }

  lemma Ordered(occ: seq<int>, i: nat, j: nat)
    requires Increasing(occ) && i < |occ| && j < |occ|
    ensures occ[i] < occ[j] <==> i < j
  {
  }

  /** Where what a raising pass leaves begins. */
  lemma LeftFrom(occ: seq<int>, clock: Clock, now: int, k: nat)
    requires Increasing(occ) && occ != [] && occ[0] <= now
    requires 1 <= k <= |occ| && Pass(ICalSchedule(occ, clock), now).schedule == ICalSchedule(occ[k..], clock)
    ensures var n := Taken(occ, clock, now);
      && k >= n && (forall i | n <= i < k :: occ[i] < now + 1 - clock.Lag())
      && (k < |occ| ==> occ[k] >= now + 1 - clock.Lag())
  {
    RecurringPass(occ, clock, now);
    hide Pass, NotBefore, Increasing, LookedAhead, Taken;
    AheadSuffix(occ, clock, now);
    var n, end := Taken(occ, clock, now), now + 1 - clock.Lag();
    var ahead := occ[n..];
    NotBeforeSuffix(ahead, end);
    assert |occ[k..]| == |NotBefore(ahead, end)|;
    forall i | n <= i < k ensures occ[i] < end {
      assert occ[i] == ahead[i - n];
    }
    assert k < |occ| ==> NotBefore(ahead, end)[0] == occ[k];
  }

  /** What a raising pass drops, besides the occurrence it raises. */
  lemma DroppedExactly(occ: seq<int>, clock: Clock, now: int, k: nat, o: int)
    requires Increasing(occ) && occ != [] && occ[0] <= now && o in occ && o != occ[0]
    requires 1 <= k <= |occ| && Pass(ICalSchedule(occ, clock), now).schedule == ICalSchedule(occ[k..], clock)
    ensures o !in occ[k..] <==> Skips(occ, clock, Due(occ[0], now), o)
  {
    var i: nat :| i < |occ| && occ[i] == o;
    hide Pass, Increasing, Follows;
    LeftFrom(occ, clock, now, k);
    InSuffix(occ, k, i);
    FollowsFirst(occ, i);
    Ordered(occ, 0, i);
    Ordered(occ, i, 1);
    if k < |occ| {
      Ordered(occ, i, k);
    }
  }

  lemma InSuffix(occ: seq<int>, k: nat, i: nat)
    requires Increasing(occ) && k <= |occ| && i < |occ|
    ensures occ[i] in occ[k..] <==> i >= k
  {
    if i >= k {
      assert occ[k..][i - k] == occ[i];
    }
    if occ[i] in occ[k..] {
      var j :| 0 <= j < |occ[k..]| && occ[k..][j] == occ[i];
      hide Increasing;
      Ordered(occ, i, k + j);
      Ordered(occ, k + j, i);
    }
  }

  lemma FollowsFirst(occ: seq<int>, i: nat)
    requires Increasing(occ) && 0 < i < |occ|
    ensures Follows(occ, occ[0], occ[i]) <==> i == 1
  {
    hide Increasing;
    if Follows(occ, occ[0], occ[i]) {
      var j :| 0 <= j < |occ| - 1 && occ[j] == occ[0] && occ[j + 1] == occ[i];
      Ordered(occ, 0, j);
      Ordered(occ, j + 1, i);
      Ordered(occ, i, j + 1);
    }
  }

  lemma SkipsInSuffix(occ: seq<int>, clock: Clock, k: nat, d: Due, o: int)
    requires Increasing(occ) && k <= |occ| && d.occurrence in occ[k..] && o in occ[k..]
    ensures Skips(occ, clock, d, o) <==> Skips(occ[k..], clock, d, o)
  {
    hide Increasing;
    var rest := occ[k..];
    if Follows(occ, d.occurrence, o) {
      var i :| 0 <= i < |occ| - 1 && occ[i] == d.occurrence && occ[i + 1] == o;
      InSuffix(occ, k, i);
      assert rest[i - k] == d.occurrence && rest[i - k + 1] == o;
    }
    if Follows(rest, d.occurrence, o) {
      var i :| 0 <= i < |rest| - 1 && rest[i] == d.occurrence && rest[i + 1] == o;
      assert occ[k + i] == d.occurrence && occ[k + i + 1] == o;
    }
  }

  /** An occurrence is missed by the first pass or by a later one. */
  lemma MissedBehind(occ: seq<int>, clock: Clock, times: seq<int>, k: nat, o: int)
    requires Increasing(occ) && times != [] && k <= |occ|
    requires Pass(ICalSchedule(occ, clock), times[0]).schedule == ICalSchedule(occ[k..], clock)
    requires Pass(ICalSchedule(occ, clock), times[0]).ended ==> occ[k..] == []
    ensures Missed(occ, clock, times, o)
       <==> (TooEarly(occ, clock, times[0]) && occ[0] == o) || Missed(occ[k..], clock, times[1..], o)
  {
    var rest, ts := occ[k..], times[1..];
    forall j: nat | j < |ts| ensures MissedAt(occ, clock, times, j + 1, o) <==> MissedAt(rest, clock, ts, j, o) {
      assert times[..j + 1][0] == times[0] && times[..j + 1][1..] == ts[..j];
      if rest == [] {
        NothingRaised(clock, ts[..j]);
      }
    }
    hide Pass;
    assert MissedAt(occ, clock, times, 0, o) <==> TooEarly(occ, clock, times[0]) && occ[0] == o by {
      assert times[..0] == [];
    }
    MissedShift(occ, clock, times, rest, o);
  }

  lemma MissedShift(occ: seq<int>, clock: Clock, times: seq<int>, rest: seq<int>, o: int)
    requires times != []
    requires forall j: nat | j < |times| - 1 ::
               MissedAt(occ, clock, times, j + 1, o) <==> MissedAt(rest, clock, times[1..], j, o)
    ensures Missed(occ, clock, times, o)
       <==> MissedAt(occ, clock, times, 0, o) || Missed(rest, clock, times[1..], o)
  {
    hide MissedAt;
    if j: nat :| MissedAt(occ, clock, times, j, o) {
      MissedInRange(occ, clock, times, j, o);
      if j > 0 {
        assert MissedAt(occ, clock, times, (j - 1) + 1, o);
        assert MissedAt(rest, clock, times[1..], j - 1, o);
      }
    }
    if j: nat :| MissedAt(rest, clock, times[1..], j, o) {
      MissedInRange(rest, clock, times[1..], j, o);
      assert MissedAt(occ, clock, times, j + 1, o);
    }
  }

  lemma MissedInRange(occ: seq<int>, clock: Clock, times: seq<int>, j: nat, o: int)
    requires MissedAt(occ, clock, times, j, o)
    ensures j < |times|
  {
  }

  lemma MissedInside(occ: seq<int>, clock: Clock, times: seq<int>, o: int)
    requires Increasing(occ) && Missed(occ, clock, times, o)
    ensures o in occ
  {
    hide Left, Increasing;
    var j: nat :| MissedAt(occ, clock, times, j, o);
    RaisedDistinct(occ, clock, times[..j]);
  }

  /** An occurrence that is neither raised nor left. */
  ghost predicate IsLost(occ: seq<int>, clock: Clock, times: seq<int>, o: int) {
    !IsRaised(Raised(ICalSchedule(occ, clock), times), o) && o !in Left(occ, clock, times)
  }

  ghost predicate TakenAway(occ: seq<int>, clock: Clock, times: seq<int>, o: int) {
    || Skipped(occ, clock, Raised(ICalSchedule(occ, clock), times), o)
    || Missed(occ, clock, times, o)
  }

  /** Whatever the offset: over all passes an occurrence is lost if and only if some raise of an
      earlier one took it along, or some pass took it too early. */
  lemma {:induction false} LostExactly(occ: seq<int>, clock: Clock, times: seq<int>, o: int)
    requires Increasing(occ) && o in occ
    ensures IsLost(occ, clock, times, o) <==> TakenAway(occ, clock, times, o)
    decreases |times|, 1
  {
    hide Pass, Raised, Left, TooEarly;
    if times == [] {
      NoPasses(occ, clock);
    } else {
      var k := FirstPass(occ, clock, times);
      MissedBehind(occ, clock, times, k, o);
      hide Increasing, Missed;
      if occ[0] > times[0] {
        LostLater(occ, clock, times, k, o);
      } else {
        LostBehind(occ, clock, times, k, o);
      }
    }
  }

  lemma LostLater(occ: seq<int>, clock: Clock, times: seq<int>, k: nat, o: int)
    requires Increasing(occ) && o in occ && times != [] && occ[0] > times[0]
    requires k == (if TooEarly(occ, clock, times[0]) then 1 else 0) && Increasing(occ[k..])
    requires Left(occ, clock, times) == Left(occ[k..], clock, times[1..])
    requires Raised(ICalSchedule(occ, clock), times) == Raised(ICalSchedule(occ[k..], clock), times[1..])
    requires Missed(occ, clock, times, o)
        <==> (TooEarly(occ, clock, times[0]) && occ[0] == o) || Missed(occ[k..], clock, times[1..], o)
    ensures IsLost(occ, clock, times, o) <==> TakenAway(occ, clock, times, o)
    decreases |times|, 0
  {
    hide Raised, Left, TooEarly, Missed, Skips;
    var rest := occ[k..];
    var ds := Raised(ICalSchedule(rest, clock), times[1..]);
    RaisedDistinct(rest, clock, times[1..]);
    SuffixAbove(occ, k);
    if o in rest {
      LostExactly(rest, clock, times[1..], o);
      forall i | 0 <= i < |ds| ensures Skips(occ, clock, ds[i], o) <==> Skips(rest, clock, ds[i], o) {
        SkipsInSuffix(occ, clock, k, ds[i], o);
      }
      hide Increasing;
      if k == 1 {
        assert o != occ[0];
      }
      SameSkipped(occ, rest, clock, ds, o);
    } else {
      assert k == 1 by {
        assert occ[0..] == occ;
      }
      hide Increasing;
      InFirst(occ, o);
    }
  }

  lemma InFirst(occ: seq<int>, o: int)
    requires occ != [] && o in occ && o !in occ[1..]
    ensures o == occ[0]
  {
    assert occ == [occ[0]] + occ[1..];
  }

  lemma SameSkipped(occ: seq<int>, rest: seq<int>, clock: Clock, ds: seq<Due>, o: int)
    requires forall i | 0 <= i < |ds| :: Skips(occ, clock, ds[i], o) <==> Skips(rest, clock, ds[i], o)
    ensures Skipped(occ, clock, ds, o) <==> Skipped(rest, clock, ds, o)
  {
    hide Skips;
  }

  lemma LostBehind(occ: seq<int>, clock: Clock, times: seq<int>, k: nat, o: int)
    requires Increasing(occ) && o in occ && times != [] && occ[0] <= times[0] && 1 <= k <= |occ|
    requires Increasing(occ[k..]) && Pass(ICalSchedule(occ, clock), times[0]).schedule == ICalSchedule(occ[k..], clock)
    requires Left(occ, clock, times) == Left(occ[k..], clock, times[1..])
    requires Raised(ICalSchedule(occ, clock), times)
          == [Due(occ[0], times[0])] + Raised(ICalSchedule(occ[k..], clock), times[1..])
    requires Missed(occ, clock, times, o)
        <==> (TooEarly(occ, clock, times[0]) && occ[0] == o) || Missed(occ[k..], clock, times[1..], o)
    ensures IsLost(occ, clock, times, o) <==> TakenAway(occ, clock, times, o)
    decreases |times|, 0
  {
    hide Pass, Raised, Left, Missed, Skips;
    var first, rest := Due(occ[0], times[0]), occ[k..];
    var later := Raised(ICalSchedule(rest, clock), times[1..]);
    var ds := [first] + later;
    RaisedDistinct(rest, clock, times[1..]);
    SuffixAbove(occ, k);
    assert !TooEarly(occ, clock, times[0]);
    if Missed(rest, clock, times[1..], o) {
      MissedInside(rest, clock, times[1..], o);
    }
    if o == occ[0] {
      hide Increasing;
      assert ds[0].occurrence == o;
      forall i | 0 <= i < |ds| ensures !Skips(occ, clock, ds[i], o) {
        assert i > 0 ==> ds[i] == later[i - 1];
        NoSkipBack(occ, clock, ds[i], o);
      }
    } else {
      DroppedExactly(occ, clock, times[0], k, o);
      RaisedTail(first, later, o);
      if o in rest {
        LostExactly(rest, clock, times[1..], o);
        forall i | 0 <= i < |later| ensures Skips(occ, clock, later[i], o) <==> Skips(rest, clock, later[i], o) {
          SkipsInSuffix(occ, clock, k, later[i], o);
        }
        hide Increasing;
        SkippedTail(occ, rest, clock, first, later, o);
      } else {
        hide Increasing;
        assert Skips(occ, clock, ds[0], o);
        assert forall i | 0 <= i < |later| :: later[i].occurrence in rest;
      }
    }
  }

  lemma NoSkipBack(occ: seq<int>, clock: Clock, d: Due, o: int)
    requires d.occurrence >= o
    ensures !Skips(occ, clock, d, o)
  {
  }

  lemma RaisedTail(first: Due, later: seq<Due>, o: int)
    requires first.occurrence != o
    ensures IsRaised([first] + later, o) <==> IsRaised(later, o)
  {
    var ds := [first] + later;
    if i :| 0 <= i < |later| && later[i].occurrence == o {
      assert ds[i + 1].occurrence == o;
    }
  }

  lemma SkippedTail(occ: seq<int>, rest: seq<int>, clock: Clock, first: Due, later: seq<Due>, o: int)
    requires !Skips(occ, clock, first, o)
    requires forall i | 0 <= i < |later| :: Skips(occ, clock, later[i], o) <==> Skips(rest, clock, later[i], o)
    ensures Skipped(occ, clock, [first] + later, o) <==> Skipped(rest, clock, later, o)
  {
    hide Skips;
    var ds := [first] + later;
    if i :| 0 <= i < |later| && Skips(rest, clock, later[i], o) {
      assert Skips(occ, clock, ds[i + 1], o);
    }
    if i :| 0 <= i < |ds| && Skips(occ, clock, ds[i], o) {
      assert i > 0 && ds[i] == later[i - 1];
    }
  }

  // --- The offset -------------------------------------------------------------------------

  const UTC := Clock(0, true)

  /** What is lost is lost as if the zone were UTC: to raises, all that is due with an earlier one and
      the one that comes a second later, and nothing else. */
  ghost predicate LosesAsInUtc(occ: seq<int>, clock: Clock, times: seq<int>, o: int) {
    IsLost(occ, clock, times, o) <==> Skipped(occ, UTC, Raised(ICalSchedule(occ, clock), times), o)
  }

  ghost predicate AlwaysAsInUtc(clock: Clock) {
    forall occ, times, o :: Increasing(occ) && o in occ ==> LosesAsInUtc(occ, clock, times, o)
  }

  /** That holds if and only if the offset is 0. */
  lemma AsInUtcExactly(clock: Clock)
    ensures AlwaysAsInUtc(clock) <==> clock.offset == 0
  {
    if clock.offset == 0 {
      forall occ, times, o | Increasing(occ) && o in occ ensures LosesAsInUtc(occ, clock, times, o) {
        AsInUtc(occ, clock, times, o);
      }
    } else {
      var occ, times, o := OffsetMatters(clock);
    }
  }

  lemma AsInUtc(occ: seq<int>, clock: Clock, times: seq<int>, o: int)
    requires Increasing(occ) && o in occ && clock.offset == 0
    ensures LosesAsInUtc(occ, clock, times, o)
  {
    hide Raised, Left, IsRaised;
    LostExactly(occ, clock, times, o);
    assert !Missed(occ, clock, times, o);
    var ds := Raised(ICalSchedule(occ, clock), times);
    forall i | 0 <= i < |ds| ensures Skips(occ, clock, ds[i], o) <==> Skips(occ, UTC, ds[i], o) {
    }
    hide Skips;
  }

  /** For every other offset an instance: local starts lose too little east of UTC and too much west of
      it, and starts in UTC the other way round. */
  lemma OffsetMatters(clock: Clock) returns (occ: seq<int>, times: seq<int>, o: int)
    requires clock.offset != 0
    ensures Increasing(occ) && o in occ && !LosesAsInUtc(occ, clock, times, o)
  {
    if !clock.utc && clock.offset > 0 {
      occ, times, o := [1, 2, 3], [3], 3;
      OverdueKept(clock);
    } else if !clock.utc {
      occ, times, o := [1, 2, 3], [2], 3;
      FutureLost(clock);
    } else if clock.offset > 0 {
      occ, times, o := [2], [1], 2;
      NeverRaised(clock);
    } else {
      occ, times, o := [1, 2], [1], 2;
      NextKept(clock);
    }
  }

  /** Raises and rest of a single pass that raises the first occurrence. */
  lemma OnePass(occ: seq<int>, clock: Clock, now: int, left: seq<int>)
    requires Increasing(occ) && occ != [] && occ[0] <= now
    requires NotBefore(LookedAhead(occ[1..], clock, now), now + 1 - clock.Lag()) == left
    ensures Raised(ICalSchedule(occ, clock), [now]) == [Due(occ[0], now)] && Left(occ, clock, [now]) == left
  {
    RecurringPass(occ, clock, now);
    var k := FirstPass(occ, clock, [now]);
    hide Pass;
    assert [now][1..] == [];
    NoPasses(occ[k..], clock);
  }

  lemma OverdueKept(clock: Clock)
    requires !clock.utc && clock.offset > 0
    ensures Increasing([1, 2, 3]) && !LosesAsInUtc([1, 2, 3], clock, [3], 3)
  {
    var occ := [1, 2, 3];
    assert occ[1..] == [2, 3] && [2, 3][1..] == [3];
    OnePass(occ, clock, 3, [3]);
    var ds := [Due(1, 3)];
    assert Skips(occ, UTC, ds[0], 3);
    assert 3 in [3];
    hide Raised, Left, Skips;
  }

  lemma FutureLost(clock: Clock)
    requires !clock.utc && clock.offset < 0
    ensures Increasing([1, 2, 3]) && !LosesAsInUtc([1, 2, 3], clock, [2], 3)
  {
    var occ := [1, 2, 3];
    assert occ[1..] == [2, 3] && [2, 3][1..] == [3] && [3][1..] == [];
    OnePass(occ, clock, 2, []);
    var ds := [Due(1, 2)];
    assert !Follows(occ, 1, 3);
    assert !Skips(occ, UTC, ds[0], 3);
    hide Raised, Left, Skips;
  }

  lemma NeverRaised(clock: Clock)
    requires clock.utc && clock.offset > 0
    ensures Increasing([2]) && !LosesAsInUtc([2], clock, [1], 2)
  {
    var k := FirstPass([2], clock, [1]);
    hide Pass;
    assert [1][1..] == [] && [2][1..] == [];
    NoPasses([], clock);
    hide Raised, Left;
  }

  lemma NextKept(clock: Clock)
    requires clock.utc && clock.offset < 0
    ensures Increasing([1, 2]) && !LosesAsInUtc([1, 2], clock, [1], 2)
  {
    var occ := [1, 2];
    assert occ[1..] == [2];
    OnePass(occ, clock, 1, [2]);
    var ds := [Due(1, 1)];
    assert occ[0] == 1 && occ[0 + 1] == 2;
    assert Follows(occ, 1, 2);
    assert Skips(occ, UTC, ds[0], 2);
    assert 2 in [2];
    hide Raised, Left, Skips;
  }

  /** An occurrence one second after the one raised is lost, if and only if the start is in local time
      or the zone is not behind UTC. */
  lemma LookAheadLoses(t: int, later: seq<int>, clock: Clock)
    requires Increasing([t, t + 1] + later)
    ensures var r := Pass(ICalSchedule([t, t + 1] + later, clock), t);
      && r.raised == [t] && r.schedule.ICalSchedule?
      && (t + 1 !in r.schedule.occurrences <==> !clock.utc || clock.offset >= 0)
      && (clock.offset == 0 ==> r == Passed([t], false, ICalSchedule(later, clock)))
  {
    var occ := [t, t + 1] + later;
    var k := PassSuffix(occ, clock, t);
    DroppedExactly(occ, clock, t, k, t + 1);
    FollowsFirst(occ, 1);
    RecurringPass(occ, clock, t);
    assert occ[1..][1..] == later;
    if clock.offset == 0 && later != [] {
      Ordered(occ, 1, 2);
    }
  }
}
