/** Sessions subscribing to events through the internal relay, and that the lists they share agree. */
module RelaySessions {
  import opened Exceptions
  import opened Lists
  import opened Strings
  import opened Subscriptions

  const RELAY_NAME := "internal_relay"

  /** One session: the subscriptions of its collector, and their IDs by event name. */
  datatype Session = Session(collected: seq<string>, names: map<string, string>)

  /** A target of the relay is known by the number of its session. */
  type Targets = map<string, Option<nat>>

  /** A subscription whose events go to the relay. */
  function RelaySubscription(id: string, eventName: string): Subscription {
    Subscription(id, eventName, RELAY_NAME)
  }

  datatype View = View(subs: seq<Subscription>, targets: Targets, session: Session)

  // --- What the calls do ------------------------------------------------------------------

  /** EventRelayTarget::unsubscribeFrom */
  function UnsubscribedFrom(v: View, id: string): View {
    View(WithoutSub(v.subs, id), v.targets[id := None],
         v.session.(collected := RemoveFirst(v.session.collected, id)))
  }

  /** EventCollector::subscribeTo; the result is the new ID. */
  function NewId(v: View, eventName: string): string {
    UniqueId(v.subs, eventName + ("_" + RELAY_NAME))
  }

  function SubscribedTo(v: View, k: nat, eventName: string): View {
    var id := NewId(v, eventName);
    View(v.subs + [RelaySubscription(id, eventName)], v.targets[id := Some(k)],
         v.session.(collected := v.session.collected + [id]))
  }

  function Unsubscribed(v: View, eventName: string): Result<View> {
    if eventName !in v.session.names then Throw(RuntimeError)
    else
      var r := UnsubscribedFrom(v, v.session.names[eventName]);
      Ok(r.(session := r.session.(names := r.session.names - {eventName})))
  }

  /** subscribe ends an earlier subscription to the same event first. */
  function Subscribed(v: View, k: nat, eventName: string): View {
    var cleared := Unsubscribed(v, eventName);
    var v1 := if cleared.Ok? then cleared.value else v;
    var v2 := SubscribedTo(v1, k, eventName);
    v2.(session := v2.session.(names := v2.session.names[eventName := NewId(v1, eventName)]))
  }

  /** The loop of the destructor of EventRelayTarget. */
  function Drained(v: View): View
    decreases |v.session.collected|
  {
    if v.session.collected == [] then v else Drained(UnsubscribedFrom(v, v.session.collected[0]))
  }

  // --- The code ---------------------------------------------------------------------------

  class InternalRelay {
    const interpreter: EventInterpreter
    var targets: Targets

    constructor (interpreter: EventInterpreter)
      ensures this.interpreter == interpreter && targets == map[]
    {
      this.interpreter, targets := interpreter, map[];
    }

    method RegisterSubscription(target: nat, id: string)
      modifies this
      ensures targets == old(targets)[id := Some(target)]
    {
      targets := targets[id := Some(target)];
    }

    method RemoveSubscription(id: string)
      modifies this
      ensures targets == old(targets)[id := None]
    {
      targets := targets[id := None];
    }

    /** The session an event is handed to. */
    method HandleEvent(subscription: Subscription) returns (target: Option<nat>)
      modifies this
      ensures targets == if subscription.id in old(targets) then old(targets) else old(targets)[subscription.id := None]
      ensures target == targets[subscription.id]
    {
      // operator[] adds what is missing
      if subscription.id !in targets {
        targets := targets[subscription.id := None];
      }
      target := targets[subscription.id];
    }
  }

  class SubscriptionSession {
    const number: nat
    const relay: InternalRelay
    var collected: seq<string>
    var names: map<string, string>

    constructor (number: nat, relay: InternalRelay)
      ensures this.number == number && this.relay == relay && collected == [] && names == map[]
    {
      this.number, this.relay, collected, names := number, relay, [], map[];
    }

    ghost function Shared(): View
      reads this, relay, relay.interpreter
    {
      View(relay.interpreter.subscriptions, relay.targets, Session(collected, names))
    }

    method SubscribeTo(eventName: string) returns (id: string)
      modifies this, relay, relay.interpreter
      ensures id == NewId(old(Shared()), eventName)
      ensures Shared() == SubscribedTo(old(Shared()), number, eventName)
    {
      ghost var lookups;
      id, lookups := relay.interpreter.UniqueSubscriptionId(eventName + ("_" + RELAY_NAME));
      relay.RegisterSubscription(number, id);
      collected := collected + [id];
      relay.interpreter.Subscribe(RelaySubscription(id, eventName));
    }

    method UnsubscribeFrom(id: string)
      modifies this, relay, relay.interpreter
      ensures Shared() == UnsubscribedFrom(old(Shared()), id)
    {
      relay.RemoveSubscription(id);
      relay.interpreter.Unsubscribe(id);
      collected := RemoveFirst(collected, id);
    }

    method Unsubscribe(eventName: string) returns (r: Result<()>)
      modifies this, relay, relay.interpreter
      ensures match Unsubscribed(old(Shared()), eventName)
              case Ok(v) => r == Ok(()) && Shared() == v
              case Throw(e) => r == Throw(e) && Shared() == old(Shared())
    {
      if eventName !in names {
        return Throw(RuntimeError);
      }
      UnsubscribeFrom(names[eventName]);
      names := names - {eventName};
      return Ok(());
    }

    method Subscribe(eventName: string) returns (id: string)
      modifies this, relay, relay.interpreter
      ensures Shared() == Subscribed(old(Shared()), number, eventName)
      ensures eventName in names && id == names[eventName]
    {
      // no double subscriptions
      var _ := Unsubscribe(eventName);
      id := SubscribeTo(eventName);
      names := names[eventName := id];
    }

    /** The destructor of the collector. */
    method Drain()
      modifies this, relay, relay.interpreter
      ensures Shared() == Drained(old(Shared()))
    {
      while collected != []
        invariant Drained(Shared()) == Drained(old(Shared()))
        decreases |collected|
      {
        UnsubscribeFrom(collected[0]);
      }
    }
  }

  // --- Runs of several sessions -----------------------------------------------------------

  datatype State = State(subs: seq<Subscription>, targets: Targets, sessions: seq<Session>)

  datatype Step =
    | Subscribe(k: nat, eventName: string)
    | Unsubscribe(k: nat, eventName: string)
    | Close(k: nat)                        // a session and its collector are destroyed
    | Other(subscription: Subscription)    // a subscription of another handler

  predicate Enabled(st: State, step: Step) {
    match step
    case Subscribe(k, _) => k < |st.sessions|
    case Unsubscribe(k, _) => k < |st.sessions|
    case Close(k) => k < |st.sessions|
    case Other(s) => s.handler != RELAY_NAME && !Taken(st.subs, s.id)
  }

  function Of(st: State, k: nat): View
    requires k < |st.sessions|
  {
    View(st.subs, st.targets, st.sessions[k])
  }

  function Back(st: State, k: nat, v: View): State
    requires k < |st.sessions|
  {
    State(v.subs, v.targets, st.sessions[k := v.session])
  }

  function Closed(st: State, k: nat): State
    requires k < |st.sessions|
  {
    Back(st, k, Drained(Of(st, k)).(session := Session([], map[])))
  }

  function Next(st: State, step: Step): State
    requires Enabled(st, step)
  {
    match step
    case Subscribe(k, e) => Back(st, k, Subscribed(Of(st, k), k, e))
    case Unsubscribe(k, e) =>
      (match Unsubscribed(Of(st, k), e) case Ok(v) => Back(st, k, v) case Throw(_) => st)
    case Close(k) => Closed(st, k)
    case Other(s) => st.(subs := st.subs + [s])
  }

  predicate IsRun(st: State, steps: seq<Step>)
    decreases |steps|
  {
    steps == [] || (Enabled(st, steps[0]) && IsRun(Next(st, steps[0]), steps[1..]))
  }

  function Exec(st: State, steps: seq<Step>): State
    requires IsRun(st, steps)
    decreases |steps|
  {
    if steps == [] then st else Exec(Next(st, steps[0]), steps[1..])
  }

  // --- Agreement --------------------------------------------------------------------------

  ghost predicate DistinctIds(subs: seq<Subscription>) {
    forall i, j | 0 <= i < j < |subs| :: subs[i].id != subs[j].id
  }

  /** The relay hands events of this subscription to the session. */
  predicate Relayed(targets: Targets, id: string, k: nat) {
    id in targets && targets[id] == Some(k)
  }

  /** What a session has by name is live in the interpreter and in the relay. */
  ghost predicate NamesLive(st: State) {
    forall k, e | 0 <= k < |st.sessions| && e in st.sessions[k].names ::
      var id := st.sessions[k].names[e];
      Relayed(st.targets, id, k) && RelaySubscription(id, e) in st.subs
  }

  /** What the relay hands on belongs to a session. */
  ghost predicate TargetsNamed(st: State) {
    forall id, k: nat | Relayed(st.targets, id, k) ::
      k < |st.sessions| && exists e :: e in st.sessions[k].names && st.sessions[k].names[e] == id
  }

  predicate Names(session: Session, s: Subscription) {
    s.eventName in session.names && session.names[s.eventName] == s.id
  }

  /** Every subscription of the relay in the list of the interpreter belongs to a session. */
  ghost predicate SubsNamed(st: State) {
    forall s | s in st.subs && s.handler == RELAY_NAME ::
      exists k :: 0 <= k < |st.sessions| && Names(st.sessions[k], s)
  }

  ghost predicate CollectedNamed(s: Session) {
    && (forall i, j | 0 <= i < j < |s.collected| :: s.collected[i] != s.collected[j])
    && (forall id | id in s.collected :: exists e :: e in s.names && s.names[e] == id)
    && forall e | e in s.names :: s.names[e] in s.collected
  }

  ghost predicate Agree(st: State) {
    && DistinctIds(st.subs) && NamesLive(st) && TargetsNamed(st) && SubsNamed(st)
    && forall k | 0 <= k < |st.sessions| :: CollectedNamed(st.sessions[k])
  }

  /** The subscription of the relay at i of the interpreter's list is to event e. */
  ghost predicate ListedAt(st: State, e: string, i: nat) {
    i < |st.subs| && st.subs[i].handler == RELAY_NAME && st.subs[i].eventName == e
  }

  /** It is live for the session: its events are handed to it. */
  ghost predicate LiveAt(st: State, k: nat, e: string, i: nat) {
    ListedAt(st, e, i) && Relayed(st.targets, st.subs[i].id, k)
  }

  lemma SameSub(subs: seq<Subscription>, a: Subscription, b: Subscription)
    requires DistinctIds(subs) && a in subs && b in subs && a.id == b.id
    ensures a == b
  {
  }

  /** A session has exactly one live subscription to each event it names, and none to any other. */
  lemma ExactlyOneLive(st: State, k: nat, e: string)
    requires Agree(st) && k < |st.sessions|
    ensures e in st.sessions[k].names <==> exists i :: LiveAt(st, k, e, i)
    ensures forall i, j | LiveAt(st, k, e, i) && LiveAt(st, k, e, j) :: i == j
  {
    hide CollectedNamed, SubsNamed;
    var names := st.sessions[k].names;
    if e in names {
      var i :| 0 <= i < |st.subs| && st.subs[i] == RelaySubscription(names[e], e);
      assert LiveAt(st, k, e, i);
    }
    forall i: nat | LiveAt(st, k, e, i) ensures e in names && names[e] == st.subs[i].id {
      var id := st.subs[i].id;
      var e' :| e' in names && names[e'] == id;
      SameSub(st.subs, RelaySubscription(id, e'), st.subs[i]);
    }
  }

  /** Every listed subscription is live for exactly one session. */
  lemma ListedIsLive(st: State, e: string, i: nat)
    requires Agree(st) && ListedAt(st, e, i)
    ensures exists k: nat :: k < |st.sessions| && e in st.sessions[k].names && LiveAt(st, k, e, i)
    ensures forall k, k' | LiveAt(st, k, e, i) && LiveAt(st, k', e, i) :: k == k'
  {
    var s := st.subs[i];
    assert s in st.subs;
    var k :| 0 <= k < |st.sessions| && Names(st.sessions[k], s);
    assert LiveAt(st, k, e, i);
  }

  lemma {:induction false} WithoutSubDistinct(subs: seq<Subscription>, id: string)
    requires DistinctIds(subs)
    ensures DistinctIds(WithoutSub(subs, id))
    ensures forall s :: s in WithoutSub(subs, id) <==> s in subs && s.id != id
  {
    if subs != [] {
      WithoutSubDistinct(subs[1..], id);
      hide DistinctIds;
      assert subs == [subs[0]] + subs[1..];
      if subs[0].id != id {
        ConsDistinct(subs[0], WithoutSub(subs[1..], id));
      }
    }
  }

  lemma ConsDistinct(s: Subscription, rest: seq<Subscription>)
    requires DistinctIds(rest) && forall r | r in rest :: r.id != s.id
    ensures DistinctIds([s] + rest)
  {
  }

  /** The names of a session have an ID each, and no two sessions share one. */
  lemma NamesApart(st: State, k: nat, e: string, k': nat, e': string)
    requires Agree(st) && k < |st.sessions| && k' < |st.sessions|
    requires e in st.sessions[k].names && e' in st.sessions[k'].names
    requires st.sessions[k].names[e] == st.sessions[k'].names[e']
    ensures k == k' && e == e'
  {
  }

  lemma UnsubscribeKeeps(st: State, k: nat, e: string)
    requires Agree(st) && k < |st.sessions| && e in st.sessions[k].names
    ensures var st' := Back(st, k, Unsubscribed(Of(st, k), e).value);
      Agree(st') && |st'.sessions| == |st.sessions| && e !in st'.sessions[k].names
  {
    hide WithoutSub, RemoveFirst, DistinctIds, NamesLive, TargetsNamed, SubsNamed;
    var id := st.sessions[k].names[e];
    var st' := Back(st, k, Unsubscribed(Of(st, k), e).value);
    WithoutSubDistinct(st.subs, id);
    UnsubscribeNames(st, k, e, st');
    UnsubscribeTargets(st, k, e, st');
    UnsubscribeSubs(st, k, e, st');
    UnsubscribeCollected(st, k, e);
  }

  lemma UnsubscribeSubs(st: State, k: nat, e: string, st': State)
    requires Agree(st) && k < |st.sessions| && e in st.sessions[k].names
    requires st' == Back(st, k, Unsubscribed(Of(st, k), e).value)
    requires forall s :: s in st'.subs <==> s in st.subs && s.id != st.sessions[k].names[e]
    ensures SubsNamed(st')
  {
    hide WithoutSub, RemoveFirst, DistinctIds, NamesLive, TargetsNamed, CollectedNamed;
    forall s | s in st'.subs && s.handler == RELAY_NAME
      ensures exists k' :: 0 <= k' < |st'.sessions| && Names(st'.sessions[k'], s)
    {
      var k' :| 0 <= k' < |st.sessions| && Names(st.sessions[k'], s);
      assert Names(st'.sessions[k'], s);
    }
  }

  lemma UnsubscribeNames(st: State, k: nat, e: string, st': State)
    requires Agree(st) && k < |st.sessions| && e in st.sessions[k].names
    requires st' == Back(st, k, Unsubscribed(Of(st, k), e).value)
    requires var id := st.sessions[k].names[e];
      forall s :: s in st'.subs <==> s in st.subs && s.id != id
    ensures NamesLive(st')
  {
    hide WithoutSub, RemoveFirst, DistinctIds, TargetsNamed, SubsNamed, CollectedNamed;
    forall k', e' | 0 <= k' < |st'.sessions| && e' in st'.sessions[k'].names
      ensures Relayed(st'.targets, st'.sessions[k'].names[e'], k')
           && RelaySubscription(st'.sessions[k'].names[e'], e') in st'.subs
    {
      assert e' in st.sessions[k'].names && st'.sessions[k'].names[e'] == st.sessions[k'].names[e'];
      if st.sessions[k'].names[e'] == st.sessions[k].names[e] {
        NamesApart(st, k, e, k', e');
      }
    }
  }

  lemma UnsubscribeTargets(st: State, k: nat, e: string, st': State)
    requires Agree(st) && k < |st.sessions| && e in st.sessions[k].names
    requires st' == Back(st, k, Unsubscribed(Of(st, k), e).value)
    ensures TargetsNamed(st')
  {
    hide WithoutSub, RemoveFirst, DistinctIds, NamesLive, SubsNamed, CollectedNamed;
    forall id, k': nat | Relayed(st'.targets, id, k')
      ensures k' < |st'.sessions| && exists e' :: e' in st'.sessions[k'].names && st'.sessions[k'].names[e'] == id
    {
      assert Relayed(st.targets, id, k');
      var e' :| e' in st.sessions[k'].names && st.sessions[k'].names[e'] == id;
      assert e' in st'.sessions[k'].names && st'.sessions[k'].names[e'] == id;
    }
  }

  lemma UnsubscribeCollected(st: State, k: nat, e: string)
    requires Agree(st) && k < |st.sessions| && e in st.sessions[k].names
    ensures CollectedNamed(Unsubscribed(Of(st, k), e).value.session)
  {
    hide WithoutSub, DistinctIds, NamesLive, TargetsNamed, SubsNamed;
    var s := st.sessions[k];
    var id := s.names[e];
    var s' := Unsubscribed(Of(st, k), e).value.session;
    RemoveFirstMembers(s.collected, id);
    hide RemoveFirst;
    forall x | x in s'.collected ensures exists e' :: e' in s'.names && s'.names[e'] == x {
      var e' :| e' in s.names && s.names[e'] == x;
      assert e' in s'.names;
    }
    forall e' | e' in s'.names ensures s'.names[e'] in s'.collected {
      if s.names[e'] == id {
        NamesApart(st, k, e, k, e');
      }
    }
  }

  lemma SubscribeKeeps(st: State, k: nat, e: string)
    requires Agree(st) && k < |st.sessions| && e !in st.sessions[k].names
    ensures Agree(Back(st, k, Subscribed(Of(st, k), k, e)))
  {
    var id := NewId(Of(st, k), e);
    var st' := Back(st, k, Subscribed(Of(st, k), k, e));
    hide NewId;
    FreshEverywhere(st, k, e);
    assert st'.subs == st.subs + [RelaySubscription(id, e)] && st'.targets == st.targets[id := Some(k)];
    var s, s' := st.sessions[k], st'.sessions[k];
    assert s' == Session(s.collected + [id], s.names[e := id]);
    SubscribeShared(st, k, e, id, st');
    SubscribeTargets(st, k, e, id, st');
    SubscribeSubs(st, k, e, id, st');
    SubscribeCollected(s, e, id);
  }

  lemma SubscribeSubs(st: State, k: nat, e: string, id: string, st': State)
    requires Agree(st) && k < |st.sessions| && e !in st.sessions[k].names
    requires st' == State(st.subs + [RelaySubscription(id, e)], st.targets[id := Some(k)],
                          st.sessions[k := Session(st.sessions[k].collected + [id], st.sessions[k].names[e := id])])
    ensures SubsNamed(st')
  {
    hide NamesLive, TargetsNamed, CollectedNamed, DistinctIds;
    forall s | s in st'.subs && s.handler == RELAY_NAME
      ensures exists k' :: 0 <= k' < |st'.sessions| && Names(st'.sessions[k'], s)
    {
      if s in st.subs {
        var k' :| 0 <= k' < |st.sessions| && Names(st.sessions[k'], s);
        assert Names(st'.sessions[k'], s);
      } else {
        assert Names(st'.sessions[k], s);
      }
    }
  }

  /** A new ID is neither taken nor relayed nor collected. */
  lemma FreshEverywhere(st: State, k: nat, e: string)
    requires Agree(st) && k < |st.sessions|
    ensures var id := NewId(Of(st, k), e);
      && !Taken(st.subs, id) && (forall k': nat :: !Relayed(st.targets, id, k'))
      && id !in st.sessions[k].collected
  {
  }

  lemma SubscribeShared(st: State, k: nat, e: string, id: string, st': State)
    requires Agree(st) && k < |st.sessions| && e !in st.sessions[k].names && !Taken(st.subs, id)
    requires st' == State(st.subs + [RelaySubscription(id, e)], st.targets[id := Some(k)],
                          st.sessions[k := Session(st.sessions[k].collected + [id], st.sessions[k].names[e := id])])
    ensures DistinctIds(st'.subs) && NamesLive(st')
  {
    hide TargetsNamed, SubsNamed, CollectedNamed;
  }

  lemma SubscribeTargets(st: State, k: nat, e: string, id: string, st': State)
    requires Agree(st) && k < |st.sessions| && e !in st.sessions[k].names
    requires st' == State(st.subs + [RelaySubscription(id, e)], st.targets[id := Some(k)],
                          st.sessions[k := Session(st.sessions[k].collected + [id], st.sessions[k].names[e := id])])
    ensures TargetsNamed(st')
  {
    hide NamesLive, SubsNamed, CollectedNamed, DistinctIds, Taken;
    forall x, k': nat | Relayed(st'.targets, x, k')
      ensures k' < |st'.sessions| && exists e' :: e' in st'.sessions[k'].names && st'.sessions[k'].names[e'] == x
    {
      if x == id {
        assert e in st'.sessions[k].names;
      } else {
        assert Relayed(st.targets, x, k');
        var e' :| e' in st.sessions[k'].names && st.sessions[k'].names[e'] == x;
        assert e' in st'.sessions[k'].names && st'.sessions[k'].names[e'] == x;
      }
    }
  }

  lemma SubscribeCollected(s: Session, e: string, id: string)
    requires CollectedNamed(s) && e !in s.names && id !in s.collected
    ensures CollectedNamed(Session(s.collected + [id], s.names[e := id]))
  {
    var s' := Session(s.collected + [id], s.names[e := id]);
    forall x | x in s'.collected ensures exists e' :: e' in s'.names && s'.names[e'] == x {
      if x == id {
        assert e in s'.names;
      } else {
        var e' :| e' in s.names && s.names[e'] == x;
        assert e' in s'.names;
      }
    }
  }

  lemma OtherKeeps(st: State, s: Subscription)
    requires Agree(st) && Enabled(st, Other(s))
    ensures Agree(st.(subs := st.subs + [s]))
  {
  }

  /** Draining does not look at the names. */
  lemma {:induction false} DrainedNames(v: View, names: map<string, string>)
    ensures var w := v.(session := v.session.(names := names));
      Drained(w).subs == Drained(v).subs && Drained(w).targets == Drained(v).targets
    decreases |v.session.collected|
  {
    if v.session.collected != [] {
      hide WithoutSub, RemoveFirst;
      DrainedNames(UnsubscribedFrom(v, v.session.collected[0]), names);
    }
  }

  lemma {:induction false} CloseKeeps(st: State, k: nat)
    requires Agree(st) && k < |st.sessions|
    ensures Agree(Closed(st, k))
    decreases |st.sessions[k].collected|
  {
    var s := st.sessions[k];
    if s.collected == [] {
      assert s.names == map[] by {
        assert forall e | e in s.names :: s.names[e] in s.collected;
      }
      assert st.sessions[k := Session([], map[])] == st.sessions;
    } else {
      var e := NameOfFirst(st, k);
      UnsubscribeKeeps(st, k, e);
      hide Agree;
      var v := Unsubscribed(Of(st, k), e).value;
      var st1 := Back(st, k, v);
      assert Of(st1, k) == v;
      CloseKeeps(st1, k);
      DrainedNames(UnsubscribedFrom(Of(st, k), s.names[e]), s.names - {e});
      assert st1.sessions[k := Session([], map[])] == st.sessions[k := Session([], map[])];
    }
  }

  lemma NameOfFirst(st: State, k: nat) returns (e: string)
    requires Agree(st) && k < |st.sessions| && st.sessions[k].collected != []
    ensures e in st.sessions[k].names && st.sessions[k].names[e] == st.sessions[k].collected[0]
  {
    var id := st.sessions[k].collected[0];
    assert id in st.sessions[k].collected;
    e :| e in st.sessions[k].names && st.sessions[k].names[e] == id;
  }

  lemma StepKeeps(st: State, step: Step)
    requires Agree(st) && Enabled(st, step)
    ensures Agree(Next(st, step))
  {
    hide Agree;
    match step
    case Subscribe(k, e) =>
      if e in st.sessions[k].names {
        UnsubscribeKeeps(st, k, e);
        var st1 := Back(st, k, Unsubscribed(Of(st, k), e).value);
        SubscribeKeeps(st1, k, e);
        Resubscribed(st, k, e, st1);
      } else {
        SubscribeKeeps(st, k, e);
      }
    case Unsubscribe(k, e) =>
      if e in st.sessions[k].names {
        UnsubscribeKeeps(st, k, e);
      }
    case Close(k) => CloseKeeps(st, k);
    case Other(s) => OtherKeeps(st, s);
  }

  lemma Resubscribed(st: State, k: nat, e: string, st1: State)
    requires k < |st.sessions| && e in st.sessions[k].names
    requires st1 == Back(st, k, Unsubscribed(Of(st, k), e).value)
    ensures Back(st, k, Subscribed(Of(st, k), k, e)) == Back(st1, k, Subscribed(Of(st1, k), k, e))
  {
  }

  /** Over every run, interpreter, relay, collectors and sessions agree. */
  lemma {:induction false} RunKeepsAgreement(st: State, steps: seq<Step>)
    requires Agree(st) && IsRun(st, steps)
    ensures Agree(Exec(st, steps))
    decreases |steps|
  {
    if steps != [] {
      hide Agree, Next, Enabled;
      StepKeeps(st, steps[0]);
      RunKeepsAgreement(Next(st, steps[0]), steps[1..]);
    }
  }

  /** From the start on, whatever the sessions do, each event name a session has subscribed to has
      exactly one live subscription for it, and no other has any; and the interpreter lists no
      subscription of the relay but these. */
  lemma EveryRunAgrees(sessions: seq<Session>, steps: seq<Step>, k: nat, e: string, i: nat)
    requires forall i | 0 <= i < |sessions| :: sessions[i] == Session([], map[])
    requires IsRun(State([], map[], sessions), steps)
    ensures var st := Exec(State([], map[], sessions), steps);
      && (k < |st.sessions| ==>
            && (e in st.sessions[k].names <==> exists i :: LiveAt(st, k, e, i))
            && forall i, j | LiveAt(st, k, e, i) && LiveAt(st, k, e, j) :: i == j)
      && (ListedAt(st, e, i) ==>
            && (exists k: nat :: k < |st.sessions| && e in st.sessions[k].names && LiveAt(st, k, e, i))
            && forall k, k' | LiveAt(st, k, e, i) && LiveAt(st, k', e, i) :: k == k')
  {
    var start := State([], map[], sessions);
    assert Agree(start);
    hide Next, Agree;
    RunKeepsAgreement(start, steps);
    var st := Exec(start, steps);
    if k < |st.sessions| {
      ExactlyOneLive(st, k, e);
    }
    if ListedAt(st, e, i) {
      ListedIsLive(st, e, i);
    }
  }

  /** Closing a session takes all its subscriptions from the interpreter and the relay, and those
      of no other session. */
  lemma {:induction false} DrainedEmpty(v: View)
    requires DistinctIds(v.subs)
    ensures var d := Drained(v);
      && d.session.collected == []
      && (forall id | id in v.session.collected :: id in d.targets && d.targets[id] == None)
      && (forall id | id !in v.session.collected && id in v.targets :: id in d.targets && d.targets[id] == v.targets[id])
      && forall s :: s in d.subs <==> s in v.subs && s.id !in v.session.collected
    decreases |v.session.collected|
  {
    if v.session.collected != [] {
      var id := v.session.collected[0];
      var next := UnsubscribedFrom(v, id);
      WithoutSubDistinct(v.subs, id);
      DrainedEmpty(next);
      assert v.session.collected == [id] + next.session.collected;
    }
  }

  // --- Subscriptions of others ------------------------------------------------------------

  /** The subscriptions that do not go to the relay. */
  function NotRelayed(subs: seq<Subscription>): seq<Subscription> {
    if subs == [] then []
    else (if subs[0].handler != "internal_relay" then [subs[0]] else []) + NotRelayed(subs[1..])
  }

  function AddedByOthers(steps: seq<Step>): seq<Subscription> {
    if steps == [] then []
    else (if steps[0].Other? then [steps[0].subscription] else []) + AddedByOthers(steps[1..])
  }

  lemma {:induction false} NotRelayedConcat(a: seq<Subscription>, b: seq<Subscription>)
    ensures NotRelayed(a + b) == NotRelayed(a) + NotRelayed(b)
  {
    if a == [] {
      assert a + b == b;
    } else {
      assert (a + b)[1..] == a[1..] + b;
      NotRelayedConcat(a[1..], b);
    }
  }

  /** Whoever has the ID is subscribed through the relay. */
  predicate OfRelay(subs: seq<Subscription>, id: string) {
    forall s | s in subs && s.id == id :: s.handler == RELAY_NAME
  }

  lemma {:induction false} WithoutKeepsOthers(subs: seq<Subscription>, id: string)
    requires OfRelay(subs, id)
    ensures NotRelayed(WithoutSub(subs, id)) == NotRelayed(subs)
    ensures forall s | s in WithoutSub(subs, id) :: s in subs
  {
    if subs != [] {
      assert subs[0] in subs && forall s | s in subs[1..] :: s in subs;
      var rest := WithoutSub(subs[1..], id);
      WithoutKeepsOthers(subs[1..], id);
      assert ([subs[0]] + rest)[1..] == rest;
    }
  }

  lemma {:induction false} DrainKeepsOthers(v: View)
    requires forall id | id in v.session.collected :: OfRelay(v.subs, id)
    ensures NotRelayed(Drained(v).subs) == NotRelayed(v.subs)
    decreases |v.session.collected|
  {
    var ids := v.session.collected;
    if ids != [] {
      hide NotRelayed, WithoutSub;
      assert ids[0] in ids;
      WithoutKeepsOthers(v.subs, ids[0]);
      assert RemoveFirst(ids, ids[0]) == ids[1..];
      forall id | id in ids[1..] ensures OfRelay(WithoutSub(v.subs, ids[0]), id) {
        assert id in ids && OfRelay(v.subs, id);
      }
      DrainKeepsOthers(UnsubscribedFrom(v, ids[0]));
    }
  }

  lemma NamedOfRelay(st: State, k: nat, e: string)
    requires Agree(st) && k < |st.sessions| && e in st.sessions[k].names
    ensures OfRelay(st.subs, st.sessions[k].names[e])
  {
    hide SubsNamed, TargetsNamed, CollectedNamed;
    var id := st.sessions[k].names[e];
    forall s | s in st.subs && s.id == id ensures s.handler == RELAY_NAME {
      SameSub(st.subs, s, RelaySubscription(id, e));
    }
  }

  lemma StepKeepsOthers(st: State, step: Step)
    requires Agree(st) && Enabled(st, step)
    ensures NotRelayed(Next(st, step).subs)
         == NotRelayed(st.subs) + if step.Other? then [step.subscription] else []
  {
    hide NewId, WithoutSub, Drained, DistinctIds, NamesLive, TargetsNamed, SubsNamed, OfRelay;
    match step
    case Subscribe(k, e) =>
      if e in st.sessions[k].names {
        NamedOfRelay(st, k, e);
        WithoutKeepsOthers(st.subs, st.sessions[k].names[e]);
      }
      var v := if e in st.sessions[k].names then Unsubscribed(Of(st, k), e).value else Of(st, k);
      var s := RelaySubscription(NewId(v, e), e);
      NotRelayedConcat(v.subs, [s]);
      assert NotRelayed([s]) == [];
    case Unsubscribe(k, e) =>
      if e in st.sessions[k].names {
        NamedOfRelay(st, k, e);
        WithoutKeepsOthers(st.subs, st.sessions[k].names[e]);
      }
    case Close(k) =>
      forall id | id in st.sessions[k].collected ensures OfRelay(st.subs, id) {
        var e :| e in st.sessions[k].names && st.sessions[k].names[e] == id;
        NamedOfRelay(st, k, e);
      }
      DrainKeepsOthers(Of(st, k));
    case Other(s) =>
      NotRelayedConcat(st.subs, [s]);
      assert NotRelayed([s]) == [s] by { assert [s][1..] == []; }
  }

  /** Over every run of the sessions the subscriptions of other handlers stay as they were, in their
      order, with those added behind them. */
  lemma {:induction false} OthersUntouched(st: State, steps: seq<Step>)
    requires Agree(st) && IsRun(st, steps)
    ensures NotRelayed(Exec(st, steps).subs) == NotRelayed(st.subs) + AddedByOthers(steps)
    decreases |steps|
  {
    if steps != [] {
      hide Agree, Next, Enabled, NotRelayed;
      StepKeepsOthers(st, steps[0]);
      StepKeeps(st, steps[0]);
      OthersUntouched(Next(st, steps[0]), steps[1..]);
    }
  }

  /** The ID of a subscription starts with the event and the name of the relay, and has a number behind
      them only where that is taken. */
  lemma NewIdText(v: View, eventName: string)
    ensures eventName + "_internal_relay" <= NewId(v, eventName)
    ensures !Taken(v.subs, eventName + "_internal_relay") ==> NewId(v, eventName) == eventName + "_internal_relay"
  {
    hide Taken;
    assert eventName + ("_" + RELAY_NAME) == eventName + "_internal_relay" by { assert "_" + RELAY_NAME == "_internal_relay"; }
    UniqueIdMeaning(v.subs, eventName + "_internal_relay");
  }
}
