/** Subscriptions through the internal relay: `src/event.cpp`, `src/eventinterpreterplugins.cpp`,
    `src/eventcollector.cpp` and `src/eventsubscriptionsession.cpp`. */
module Subscriptions {
  import opened Exceptions
  import opened Strings
  import Numbers

  datatype Subscription = Subscription(id: string, eventName: string, handler: string)

  // --- Unique IDs -------------------------------------------------------------------------

  predicate Taken(subs: seq<Subscription>, id: string) {
    exists i :: 0 <= i < |subs| && subs[i].id == id
  }

  /** The proposal, then the proposal with 1, 2, 3 and so on behind it. */
  function Candidate(proposal: string, i: nat): string {
    if i == 0 then proposal else proposal + Numbers.NatToString(i)
  }

  lemma CandidatesDiffer(proposal: string, i: nat, j: nat)
    requires i != j
    ensures Candidate(proposal, i) != Candidate(proposal, j)
  {
    var a, b := Candidate(proposal, i), Candidate(proposal, j);
    if a == b {
      assert a[|proposal|..] == b[|proposal|..];
      if i != 0 && j != 0 {
        Numbers.NatToStringInjective(i, j);
      }
    }
  }

  function Ids(subs: seq<Subscription>): (ids: set<string>)
    ensures forall id :: id in ids <==> Taken(subs, id)
    ensures |ids| <= |subs|
  {
    if subs == [] then {}
    else
      var rest := Ids(subs[1..]);
      IdsCons(subs, rest);
      rest + {subs[0].id}
  }

  lemma IdsCons(subs: seq<Subscription>, rest: set<string>)
    requires subs != [] && forall id :: id in rest <==> Taken(subs[1..], id)
    ensures forall id :: id in rest + {subs[0].id} <==> Taken(subs, id)
  {
  }

  ghost function Candidates(proposal: string, n: nat): (cs: set<string>)
    ensures |cs| == n
    ensures forall c :: c in cs <==> exists i :: 0 <= i < n && c == Candidate(proposal, i)
  {
    hide Candidate;
    if n == 0 then {}
    else
      var before := Candidates(proposal, n - 1);
      OneMore(proposal, n - 1, before);
      before + {Candidate(proposal, n - 1)}
  }

  lemma OneMore(proposal: string, n: nat, before: set<string>)
    requires forall c :: c in before <==> exists i :: 0 <= i < n && c == Candidate(proposal, i)
    ensures Candidate(proposal, n) !in before
  {
    if Candidate(proposal, n) in before {
      var i :| 0 <= i < n && Candidate(proposal, n) == Candidate(proposal, i);
      CandidatesDiffer(proposal, i, n);
    }
  }

  lemma SubsetSize<T>(a: set<T>, b: set<T>)
    requires a <= b
    ensures |a| <= |b|
  {
    assert b == a + (b - a);
  }

  /** N subscriptions cannot take N + 1 candidates. */
  lemma Pigeonhole(subs: seq<Subscription>, proposal: string, n: nat)
    requires forall i | 0 <= i < n :: Taken(subs, Candidate(proposal, i))
    ensures n <= |subs|
  {
    var cs := Candidates(proposal, n);
    forall c | c in cs ensures c in Ids(subs) {
      var i :| 0 <= i < n && c == Candidate(proposal, i);
    }
    SubsetSize(cs, Ids(subs));
  }

  /** How many candidates before the first free one. */
  function FreeFrom(subs: seq<Subscription>, proposal: string, n: nat): (k: nat)
    requires forall i | 0 <= i < n :: Taken(subs, Candidate(proposal, i))
    ensures n <= k <= |subs| && !Taken(subs, Candidate(proposal, k))
    ensures forall i | 0 <= i < k :: Taken(subs, Candidate(proposal, i))
    decreases |subs| + 1 - n
  {
    Pigeonhole(subs, proposal, n);
    if Taken(subs, Candidate(proposal, n)) then
      assert forall i | 0 <= i < n + 1 :: Taken(subs, Candidate(proposal, i));
      Pigeonhole(subs, proposal, n + 1);
      FreeFrom(subs, proposal, n + 1)
    else n
  }

  function UniqueId(subs: seq<Subscription>, proposal: string): string {
    Candidate(proposal, FreeFrom(subs, proposal, 0))
  }

  /** The proposal itself where it is free, and else the proposal with the first number behind it that
      makes it free. */
  lemma UniqueIdMeaning(subs: seq<Subscription>, proposal: string)
    ensures !Taken(subs, proposal) ==> UniqueId(subs, proposal) == proposal
    ensures Taken(subs, proposal) ==>
      exists k: nat :: 1 <= k <= |subs| && UniqueId(subs, proposal) == proposal + Numbers.NatToString(k)
        && !Taken(subs, UniqueId(subs, proposal))
        && forall j: nat | 1 <= j < k :: Taken(subs, proposal + Numbers.NatToString(j))
  {
    hide Taken;
    var k := FreeFrom(subs, proposal, 0);
    assert Candidate(proposal, 0) == proposal;
    if k > 0 {
      assert Taken(subs, Candidate(proposal, 0));
      forall j: nat | 1 <= j < k ensures Taken(subs, proposal + Numbers.NatToString(j)) {
        assert Taken(subs, Candidate(proposal, j));
      }
    }
  }

  function WithoutSub(subs: seq<Subscription>, id: string): seq<Subscription> {
    if subs == [] then [] else if subs[0].id == id then subs[1..] else [subs[0]] + WithoutSub(subs[1..], id)
  }

  class EventInterpreter {
    var subscriptions: seq<Subscription>

    constructor ()
      ensures subscriptions == []
    {
      subscriptions := [];
    }

    method SubscriptionById(id: string) returns (result: Option<Subscription>)
      ensures result.Some? <==> Taken(subscriptions, id)
      ensures result.Some? ==> result.value in subscriptions && result.value.id == id
    {
      var i := 0;
      while i < |subscriptions|
        invariant 0 <= i <= |subscriptions|
        invariant forall j | 0 <= j < i :: subscriptions[j].id != id
      {
        if subscriptions[i].id == id {
          return Some(subscriptions[i]);
        }
        i := i + 1;
      }
      return None;
    }

    /** Finds a free ID, after at most one more lookup than there are subscriptions. */
    method UniqueSubscriptionId(proposal: string) returns (result: string, ghost lookups: nat)
      ensures result == UniqueId(subscriptions, proposal) && !Taken(subscriptions, result)
      ensures lookups <= |subscriptions| + 1
    {
      result := proposal;
      var index := 1;
      var found := SubscriptionById(result);
      lookups := 1;
      while found.Some?
        invariant 1 <= index == lookups && result == Candidate(proposal, index - 1)
        invariant forall i | 0 <= i < index - 1 :: Taken(subscriptions, Candidate(proposal, i))
        invariant found.Some? <==> Taken(subscriptions, result)
        invariant lookups <= |subscriptions| + 1
        decreases |subscriptions| + 1 - index
      {
        assert forall i | 0 <= i < index :: Taken(subscriptions, Candidate(proposal, i));
        Pigeonhole(subscriptions, proposal, index);
        result := proposal + Numbers.IntToString(index);
        index := index + 1;
        found := SubscriptionById(result);
        lookups := lookups + 1;
      }
    }

    method Subscribe(subscription: Subscription)
      requires !Taken(subscriptions, subscription.id)
      modifies this
      ensures subscriptions == old(subscriptions) + [subscription]
    {
      subscriptions := subscriptions + [subscription];
    }

    method Unsubscribe(id: string)
      modifies this
      ensures subscriptions == WithoutSub(old(subscriptions), id)
    {
      var i := 0;
      while i < |subscriptions|
        invariant 0 <= i <= |subscriptions| && subscriptions == old(subscriptions)
        invariant forall j | 0 <= j < i :: subscriptions[j].id != id
      {
        if subscriptions[i].id == id {
          WithoutSubAt(subscriptions, i, id);
          subscriptions := subscriptions[..i] + subscriptions[i + 1..];
          return;
        }
        i := i + 1;
      }
      WithoutSubAt(subscriptions, i, id);
    }
  }

  lemma {:induction false} WithoutSubAt(subs: seq<Subscription>, i: nat, id: string)
    requires i <= |subs| && forall j | 0 <= j < i :: subs[j].id != id
    requires i < |subs| ==> subs[i].id == id
    ensures WithoutSub(subs, id) == if i < |subs| then subs[..i] + subs[i + 1..] else subs
  {
    if i > 0 {
      WithoutSubAt(subs[1..], i - 1, id);
      if i < |subs| {
        SkipOne(subs, i);
      } else {
        assert subs == [subs[0]] + subs[1..];
      }
    } else if subs != [] {
      assert [] + subs[1..] == subs[1..];
    }
  }
}
