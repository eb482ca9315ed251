/** Which devices the text of a set expression selects, by the fields of the devices. */
module SetSelection {
  import opened DeviceSet
  import opened Exceptions
  import opened SetExpression
  import opened SetParsing
  import opened Strings
  import Numbers

  // --- Selections by fields ---------------------------------------------------------------

  datatype Criterion =
    | InGroup(group: int)
    | InZone(zone: int)
    | WithFunction(functionId: int)
    | WithTag(tag: string)
    | WithDsuid(dsuid: string)
    | NamedInGroup(ofGroup: int, name: string)

  /** Group 0 and zone 0 are those of all devices. */
  predicate Meets(d: Device, c: Criterion) {
    match c
    case InGroup(id) => id == 0 || id in d.groupIds
    case InZone(id) => id == 0 || d.zoneId == id
    case WithFunction(id) => d.functionId == id
    case WithTag(tag) => tag in d.tags
    case WithDsuid(dsuid) => d.dsuid == dsuid
    case NamedInGroup(id, name) => (id == 0 || id in d.groupIds) && d.name == name
  }

  /** r holds exactly the devices of s that meet the criterion, in their order. */
  ghost predicate Exactly(r: DeviceSet, s: DeviceSet, c: Criterion) {
    (forall d :: d in r <==> d in s && Meets(d, c)) && InOrder(r, s)
  }

  ghost predicate InOrder(r: DeviceSet, s: DeviceSet) {
    forall i, j | 0 <= i < j < |r| :: Before(s, r[i], r[j])
  }

  ghost predicate Before(s: DeviceSet, d: Device, e: Device) {
    exists a, b :: 0 <= a < b < |s| && s[a] == d && s[b] == e
  }

  /** d is the first device of s that meets the criterion. */
  ghost predicate FirstOf(d: Device, s: DeviceSet, c: Criterion) {
    exists i :: 0 <= i < |s| && s[i] == d && Meets(d, c) && forall j | 0 <= j < i :: !Meets(s[j], c)
  }

  predicate Has(s: DeviceSet, c: Criterion) {
    exists i :: 0 <= i < |s| && Meets(s[i], c)
  }

  /** What a bare name selects: a device of the context group before a group, a group before a zone. */
  ghost predicate NameSelects(apt: Apartment, name: string, devices: DeviceSet, context: Group, r: DeviceSet) {
    var device := NamedInGroup(context.id, name);
    if Has(context.zoneDevices, device) then |r| == 1 && FirstOf(r[0], context.zoneDevices, device)
    else if devices == [] then r == []
    else if name in apt.groupIds then Exactly(r, devices, InGroup(apt.groupIds[name]))
    else if name in apt.zoneIds then Exactly(r, devices, InZone(apt.zoneIds[name]))
    else r == []
  }

  /** What a quoted name selects; a set without devices is not asked for its names. */
  ghost predicate QuotedSelects(known: bool, c: Criterion, devices: DeviceSet, r: Result<DeviceSet>) {
    if devices == [] then r == Ok([])
    else if known then r.Ok? && Exactly(r.value, devices, c)
    else r == Throw(ItemNotFound)
  }

  ghost predicate IdSelects(apt: Apartment, text: string, devices: DeviceSet, r: Result<DeviceSet>) {
    match apt.parseDsuid(text)
    case None => r == Throw(InvalidArgument)
    case Some(id) =>
      if Has(devices, WithDsuid(id)) then r.Ok? && |r.value| == 1 && FirstOf(r.value[0], devices, WithDsuid(id))
      else r == Throw(ItemNotFound)
  }

  ghost predicate Numbered(text: string, cs: int -> Criterion, devices: DeviceSet, r: Result<DeviceSet>) {
    match Numbers.StrToInt(text)
    case None => r == Throw(InvalidArgument)
    case Some(n) => r.Ok? && Exactly(r.value, devices, cs(n))
  }

  /** A reference of addDevices is to the first device of the apartment with the name or the dSUID. */
  ghost predicate Refers(apt: Apartment, r: Reference, d: Device) {
    match r
    case ByQuotedName(name) => FirstOf(d, apt.devices, NamedInGroup(0, name.text))
    case ByBareId(id) =>
      match apt.parseDsuid(id.text)
      case None => false
      case Some(dsuid) => FirstOf(d, apt.devices, WithDsuid(dsuid))
  }

  /** The devices referred to that are not there yet are added behind the others, once each. */
  ghost predicate Adds(apt: Apartment, rs: seq<Reference>, devices: DeviceSet, r: DeviceSet) {
    && devices <= r
    && (forall k | 0 <= k < |rs| :: exists d :: Refers(apt, rs[k], d) && d.dsuid in Keys(r))
    && (forall i | |devices| <= i < |r| :: exists k :: 0 <= k < |rs| && Refers(apt, rs[k], r[i]))
    && (forall i, j | 0 <= i < j < |r| && |devices| <= j :: r[i].dsuid != r[j].dsuid)
  }

  ghost predicate Dangling(apt: Apartment, r: Reference) {
    forall d :: !Refers(apt, r, d)
  }

  /** What one step makes of the devices before it, but for add and remove. */
  ghost predicate StepSelects(apt: Apartment, op: Op, devices: DeviceSet, context: Group, r: Result<DeviceSet>) {
    match op
    case Name(name) => r.Ok? && NameSelects(apt, name, devices, context, r.value)
    case Dsid(id) => IdSelects(apt, id.text, devices, r)
    case DsuidFunction(id) => IdSelects(apt, id.text, devices, r)
    case ZoneNamed(name) =>
      var known := name.text in apt.zoneIds;
      QuotedSelects(known, InZone(if known then apt.zoneIds[name.text] else 0), devices, r)
    case ZoneNumbered(id) => Numbered(id.text, n => InZone(n), devices, r)
    case GroupNamed(name) =>
      var known := name.text in apt.groupIds;
      QuotedSelects(known, InGroup(if known then apt.groupIds[name.text] else 0), devices, r)
    case GroupNumbered(id) => Numbered(id.text, n => InGroup(n), devices, r)
    case FunctionId(id) => Numbered(id.text, n => WithFunction(n), devices, r)
    case Tagged(_, tag) => r.Ok? && Exactly(r.value, devices, WithTag(tag.text))
    case Empty => r == Ok([])
    case AddDevices(rs) =>
      if r.Ok? then Adds(apt, rs, devices, r.value) else exists k :: 0 <= k < |rs| && Dangling(apt, rs[k])
    case _ => true
  }

  predicate Selecting(op: Op) {
    !op.Add? && !op.RemoveAll?
  }

  // --- Filtering --------------------------------------------------------------------------

  ghost predicate Tests(keep: Device -> bool, c: Criterion) {
    forall d :: keep(d) <==> Meets(d, c)
  }

  lemma BeforeLater(s: DeviceSet, d: Device, e: Device)
    requires s != []
    ensures Before(s[1..], d, e) ==> Before(s, d, e)
    ensures e in s[1..] ==> Before(s, s[0], e)
  {
    if Before(s[1..], d, e) {
      var a, b :| 0 <= a < b < |s[1..]| && s[1..][a] == d && s[1..][b] == e;
      assert s[a + 1] == d && s[b + 1] == e;
    }
    if e in s[1..] {
      var b :| 0 <= b < |s[1..]| && s[1..][b] == e;
      assert s[b + 1] == e;
    }
  }

  lemma {:induction false} FilterInOrder(s: DeviceSet, keep: Device -> bool)
    ensures InOrder(Filter(s, keep), s)
  {
    if s != [] {
      var rest := Filter(s[1..], keep);
      FilterInOrder(s[1..], keep);
      hide Before, InOrder, Filter;
      LaterInOrder(s, rest);
      if keep(s[0]) {
        FirstInOrder(s, rest);
      }
      FilterStep(s, keep);
    }
  }

  lemma FilterStep(s: DeviceSet, keep: Device -> bool)
    requires s != []
    ensures Filter(s, keep) == if keep(s[0]) then [s[0]] + Filter(s[1..], keep) else Filter(s[1..], keep)
  {
    assert [] + Filter(s[1..], keep) == Filter(s[1..], keep);
  }

  lemma LaterInOrder(s: DeviceSet, rest: DeviceSet)
    requires s != [] && InOrder(rest, s[1..])
    ensures InOrder(rest, s)
  {
    hide Before;
    forall i, j | 0 <= i < j < |rest| ensures Before(s, rest[i], rest[j]) {
      BeforeLater(s, rest[i], rest[j]);
    }
  }

  lemma FirstInOrder(s: DeviceSet, rest: DeviceSet)
    requires s != [] && InOrder(rest, s) && forall d | d in rest :: d in s[1..]
    ensures InOrder([s[0]] + rest, s)
  {
    hide Before;
    var r := [s[0]] + rest;
    forall i, j | 0 <= i < j < |r| ensures Before(s, r[i], r[j]) {
      assert r[j] == rest[j - 1] && rest[j - 1] in rest;
      BeforeLater(s, r[i], r[j]);
    }
  }

  lemma FilterExactly(s: DeviceSet, keep: Device -> bool, c: Criterion)
    requires Tests(keep, c)
    ensures Exactly(Filter(s, keep), s, c)
  {
    hide InOrder, Meets;
    FilterInOrder(s, keep);
  }

  lemma AllExactly(s: DeviceSet, c: Criterion)
    requires forall d | d in s :: Meets(d, c)
    ensures Exactly(s, s, c)
  {
    forall i, j | 0 <= i < j < |s| ensures Before(s, s[i], s[j]) {
    }
  }

  lemma {:induction false} FirstKept(s: DeviceSet, keep: Device -> bool, c: Criterion)
    requires Tests(keep, c)
    ensures match First(s, keep)
            case Ok(d) => FirstOf(d, s, c) && Has(s, c)
            case Throw(e) => e == ItemNotFound && !Has(s, c)
  {
    hide Meets;
    if s != [] {
      FirstKept(s[1..], keep, c);
      if keep(s[0]) {
        assert FirstOf(s[0], s, c);
      } else if Filter(s, keep) != [] {
        FirstLater(s, Filter(s, keep)[0], c);
      } else {
        forall i | 0 <= i < |s| ensures !Meets(s[i], c) {
          assert i > 0 ==> s[i] == s[1..][i - 1];
        }
      }
    }
  }

  lemma FirstLater(s: DeviceSet, d: Device, c: Criterion)
    requires s != [] && !Meets(s[0], c) && FirstOf(d, s[1..], c)
    ensures FirstOf(d, s, c) && Has(s, c)
  {
    hide Meets;
    var i :| 0 <= i < |s[1..]| && s[1..][i] == d && Meets(d, c) && forall j | 0 <= j < i :: !Meets(s[1..][j], c);
    assert s[i + 1] == d;
    forall j | 0 <= j < i + 1 ensures !Meets(s[j], c) {
      assert j > 0 ==> s[j] == s[1..][j - 1];
    }
  }

  lemma ByGroupExactly(s: DeviceSet, id: int)
    ensures Exactly(ByGroup(s, id), s, InGroup(id))
  {
    if id != 0 {
      FilterExactly(s, (d: Device) => id in d.groupIds, InGroup(id));
    } else {
      AllExactly(s, InGroup(id));
    }
  }

  lemma ByZoneExactly(s: DeviceSet, id: int)
    ensures Exactly(ByZone(s, id), s, InZone(id))
  {
    if id != 0 {
      FilterExactly(s, (d: Device) => d.zoneId == id, InZone(id));
    } else {
      AllExactly(s, InZone(id));
    }
  }

  // --- What a step denotes ----------------------------------------------------------------

  lemma {:induction false} FilterTwice(s: DeviceSet, p: Device -> bool, q: Device -> bool, both: Device -> bool)
    requires forall d :: both(d) <==> p(d) && q(d)
    ensures Filter(Filter(s, p), q) == Filter(s, both)
  {
    if s != [] {
      FilterTwice(s[1..], p, q, both);
      var front, rest := Filter(s, p), Filter(s[1..], p);
      if p(s[0]) {
        assert front[0] == s[0] && front[1..] == rest;
      } else {
        assert front == rest;
      }
    }
  }

  /** The first device of a name in a group. */
  lemma NamedInGroupFirst(s: DeviceSet, id: int, name: string)
    ensures var c := NamedInGroup(id, name);
      match ByName(ByGroup(s, id), name)
      case Ok(d) => FirstOf(d, s, c) && Has(s, c)
      case Throw(e) => e == ItemNotFound && !Has(s, c)
  {
    hide Filter;
    var c := NamedInGroup(id, name);
    var named, both := (d: Device) => d.name == name, (d: Device) => Meets(d, c);
    FirstKept(s, both, c);
    FilterTwice(s, (d: Device) => id in d.groupIds, named, (d: Device) => id in d.groupIds && named(d));
    if id != 0 {
      SameFilter(s, both, (d: Device) => id in d.groupIds && named(d));
    } else {
      SameFilter(s, both, named);
    }
  }

  lemma {:induction false} SameFilter(s: DeviceSet, p: Device -> bool, q: Device -> bool)
    requires forall d :: p(d) <==> q(d)
    ensures Filter(s, p) == Filter(s, q)
  {
    if s != [] {
      SameFilter(s[1..], p, q);
    }
  }

  lemma RestrictedSelects(apt: Apartment, name: string, devices: DeviceSet, context: Group)
    ensures NameSelects(apt, name, devices, context, Restricted(apt, name, devices, context))
  {
    NamedInGroupFirst(context.zoneDevices, context.id, name);
    hide ByName, ByGroup, ByZone, Exactly, FirstOf, Has;
    if name in apt.groupIds {
      ByGroupExactly(devices, apt.groupIds[name]);
    }
    if name in apt.zoneIds {
      ByZoneExactly(devices, apt.zoneIds[name]);
    }
  }

  lemma OnlySelects(apt: Apartment, id: Bare, devices: DeviceSet)
    ensures IdSelects(apt, id.text, devices, Only(apt, id, devices))
  {
    var dsuid := apt.parseDsuid(id.text);
    if dsuid.Some? {
      FirstKept(devices, (d: Device) => d.dsuid == dsuid.value, WithDsuid(dsuid.value));
      hide First, FirstOf, Has;
    }
  }

  lemma NumberSelects(id: Bare, devices: DeviceSet)
    ensures Numbered(id.text, n => InZone(n), devices, ZoneNumber(id, devices))
    ensures Numbered(id.text, n => InGroup(n), devices, GroupNumber(id, devices))
    ensures Numbered(id.text, n => WithFunction(n), devices, FunctionNumber(id, devices))
  {
    hide Numbers.StrToInt, Exactly, ByZone, ByGroup;
    match Numbers.StrToInt(id.text)
    case None =>
    case Some(n) =>
      ByZoneExactly(devices, n);
      ByGroupExactly(devices, n);
      FilterExactly(devices, (d: Device) => d.functionId == n, WithFunction(n));
  }

  lemma ReferenceRefers(apt: Apartment, r: Reference)
    ensures match DenoteReference(apt, r)
            case Ok(d) => Refers(apt, r, d)
            case Throw(_) => Dangling(apt, r)
  {
    match r
    case ByQuotedName(name) =>
      FirstKept(apt.devices, (d: Device) => d.name == name.text, NamedInGroup(0, name.text));
    case ByBareId(id) =>
      var dsuid := apt.parseDsuid(id.text);
      if dsuid.Some? {
        FirstKept(apt.devices, (d: Device) => d.dsuid == dsuid.value, WithDsuid(dsuid.value));
      }
  }

  lemma {:induction false} ReferencesAdd(apt: Apartment, rs: seq<Reference>, devices: DeviceSet)
    ensures match DenoteReferences(apt, rs, devices)
            case Ok(r) => Adds(apt, rs, devices, r)
            case Throw(_) => exists k :: 0 <= k < |rs| && Dangling(apt, rs[k])
    decreases |rs|
  {
    hide DenoteReference, Refers;
    if rs != [] {
      ReferenceRefers(apt, rs[0]);
      var d := DenoteReference(apt, rs[0]);
      if d.Ok? {
        var more := AddDevice(devices, d.value);
        ReferencesAdd(apt, rs[1..], more);
        var r := DenoteReferences(apt, rs[1..], more);
        if r.Ok? {
          AddsOne(apt, rs, devices, d.value, r.value);
        } else {
          var k :| 0 <= k < |rs[1..]| && Dangling(apt, rs[1..][k]);
          assert rs[k + 1] == rs[1..][k];
        }
      }
    }
  }

  lemma AddsOne(apt: Apartment, rs: seq<Reference>, devices: DeviceSet, d: Device, r: DeviceSet)
    requires rs != [] && Refers(apt, rs[0], d) && Adds(apt, rs[1..], AddDevice(devices, d), r)
    ensures Adds(apt, rs, devices, r)
  {
    hide Refers;
    var more := AddDevice(devices, d);
    AddedKey(devices, d, r);
    hide Keys;
    forall k | 0 <= k < |rs| ensures exists x :: Refers(apt, rs[k], x) && x.dsuid in Keys(r) {
      if k == 0 {
        assert Refers(apt, rs[0], d) && d.dsuid in Keys(r);
      } else {
        assert rs[k] == rs[1..][k - 1];
      }
    }
    forall i | |devices| <= i < |r| ensures exists k :: 0 <= k < |rs| && Refers(apt, rs[k], r[i]) {
      if i < |more| {
        assert r[i] == d;
      } else {
        ReferredLater(apt, rs, r[i]);
      }
    }
    forall i, j | 0 <= i < j < |r| && |devices| <= j ensures r[i].dsuid != r[j].dsuid {
      if j < |more| {
        assert r[j] == d && r[i] == devices[i];
      }
    }
  }

  lemma ReferredLater(apt: Apartment, rs: seq<Reference>, d: Device)
    requires rs != [] && exists k :: 0 <= k < |rs[1..]| && Refers(apt, rs[1..][k], d)
    ensures exists k :: 0 <= k < |rs| && Refers(apt, rs[k], d)
  {
    hide Refers;
    var k :| 0 <= k < |rs[1..]| && Refers(apt, rs[1..][k], d);
    assert rs[k + 1] == rs[1..][k];
  }

  lemma AddedKey(devices: DeviceSet, d: Device, r: DeviceSet)
    requires AddDevice(devices, d) <= r
    ensures d.dsuid in Keys(r)
  {
    if Contains(devices, d) {
      var i :| 0 <= i < |devices| && devices[i].dsuid == d.dsuid;
      assert r[i] == devices[i] && r[i] in r;
    } else {
      assert AddDevice(devices, d)[|devices|] == d && r[|devices|] == d && d in r;
    }
  }

  lemma OpSelects(apt: Apartment, op: Op, devices: DeviceSet, context: Group)
    requires Selecting(op)
    ensures StepSelects(apt, op, devices, context, DenoteOp(apt, op, devices, context))
  {
    hide Exactly, Restricted, NameSelects, IdSelects, Numbered, QuotedSelects, Only, ZoneNumber, GroupNumber,
         FunctionNumber, ByZoneName, ByGroupName, ByTag, DenoteReferences, Adds, Dangling;
    match op
    case Name(name) => RestrictedSelects(apt, name, devices, context);
    case Dsid(id) => OnlySelects(apt, id, devices);
    case DsuidFunction(id) => OnlySelects(apt, id, devices);
    case ZoneNumbered(id) => NumberSelects(id, devices);
    case GroupNumbered(id) => NumberSelects(id, devices);
    case FunctionId(id) => NumberSelects(id, devices);
    case ZoneNamed(name) => NamedSelects(apt, name, devices);
    case GroupNamed(name) => NamedSelects(apt, name, devices);
    case Tagged(_, tag) => TagSelects(tag.text, devices);
    case AddDevices(rs) => ReferencesAdd(apt, rs, devices);
    case Empty =>
  }

  lemma NamedSelects(apt: Apartment, name: Quoted, devices: DeviceSet)
    ensures var known := name.text in apt.zoneIds;
      QuotedSelects(known, InZone(if known then apt.zoneIds[name.text] else 0), devices,
                    ByZoneName(apt, devices, name.text))
    ensures var known := name.text in apt.groupIds;
      QuotedSelects(known, InGroup(if known then apt.groupIds[name.text] else 0), devices,
                    ByGroupName(apt, devices, name.text))
  {
    hide Exactly, ByZone, ByGroup;
    if name.text in apt.zoneIds {
      ByZoneExactly(devices, apt.zoneIds[name.text]);
    }
    if name.text in apt.groupIds {
      ByGroupExactly(devices, apt.groupIds[name.text]);
    }
  }

  lemma TagSelects(tag: string, devices: DeviceSet)
    ensures Exactly(ByTag(devices, tag), devices, WithTag(tag))
  {
    FilterExactly(devices, (d: Device) => tag in d.tags, WithTag(tag));
  }

  // --- The text ---------------------------------------------------------------------------

  /** An expression with one more step. */
  function Then(e: Expr, step: Step): Expr
    decreases e
  {
    match e
    case One(first) => Chain(first, One(step))
    case Chain(first, rest) => Chain(first, Then(rest, step))
    case FromRoot(before, rest) => FromRoot(before, Then(rest, step))
  }

  lemma {:induction false} ThenText(e: Expr, step: Step)
    ensures Print(Then(e, step)) == Print(e) + ("." + PrintStep(step))
    ensures WellFormed(e) && WellFormedStep(step) ==> WellFormed(Then(e, step))
    ensures Then(e, step).FromRoot? == e.FromRoot? && (e.FromRoot? ==> Then(e, step).before == e.before)
    decreases e
  {
    hide PrintStep, WellFormedStep;
    match e
    case One(first) =>
      assert Print(One(step)) == PrintStep(step);
    case Chain(first, rest) => ThenText(rest, step);
    case FromRoot(before, rest) => ThenText(rest, step);
  }

  lemma {:induction false} ThenDenotes(apt: Apartment, e: Expr, step: Step, devices: DeviceSet, context: Group)
    ensures var front := Denote(apt, e, devices, context);
      Denote(apt, Then(e, step), devices, context) == DenotedStep(apt, step.op, front, context)
    decreases e
  {
    hide DenoteOp;
    match e
    case One(first) =>
    case Chain(first, rest) =>
      var r := DenoteOp(apt, first.op, devices, context);
      if r.Ok? {
        ThenDenotes(apt, rest, step, r.value, context);
      }
    case FromRoot(before, rest) => ThenDenotes(apt, rest, step, apt.devices, context);
  }

  /** The context group: that of the broadcast zone if the text starts with a dot or none is given. */
  function ContextOf(apt: Apartment, text: string, context: Option<Group>): Group {
    if context.None? || (text != "" && text[0] == '.') then Group(apt.broadcastZoneDevices, 0) else context.value
  }

  function DenotedStep(apt: Apartment, op: Op, devices: Result<DeviceSet>, context: Group): Result<DeviceSet> {
    match devices
    case Ok(d) => DenoteOp(apt, op, d, context)
    case Throw(error) => Throw(error)
  }

  lemma DenotedAfter(apt: Apartment, front: Expr, step: Step, context: Option<Group>)
    requires WellFormed(front)
    ensures DenoteText(apt, Then(front, step), context)
         == DenotedStep(apt, step.op, DenoteText(apt, front, context), ContextOf(apt, Print(front), context))
  {
    hide DenoteOp, PrintStep, Denote, WellFormed;
    ThenText(front, step);
    DotFirst(front);
    var all := BroadcastGroup(apt);
    if front.FromRoot? && front.before == "" {
      ThenDenotes(apt, front.rest, step, all.GetDevices(), all);
    } else {
      match context
      case Some(group) => ThenDenotes(apt, front, step, group.GetDevices(), group);
      case None => ThenDenotes(apt, front, step, [], all);
    }
  }

  /** Behind any text that is evaluated, one more step selects from what the text selects. */
  lemma NextStepSelects(apt: Apartment, front: Expr, step: Step, context: Option<Group>)
    requires WellFormed(front) && WellFormedStep(step) && Selecting(step.op)
    ensures var text := Print(front);
      match Built(apt, text, context)
      case Ok(devices) =>
        StepSelects(apt, step.op, devices, ContextOf(apt, text, context),
                    Built(apt, text + ("." + PrintStep(step)), context))
      case Throw(error) => Built(apt, text + ("." + PrintStep(step)), context) == Throw(error)
  {
    hide Built, Denote, DenoteOp, StepSelects, PrintStep, WellFormedStep, Selecting;
    var all := Then(front, step);
    ThenText(front, step);
    BuildSetDenotes(apt, front, context);
    BuildSetDenotes(apt, all, context);
    DotFirst(front);
    DenotedAfter(apt, front, step, context);
    var devices := Built(apt, Print(front), context);
    if devices.Ok? {
      OpSelects(apt, step.op, devices.value, ContextOf(apt, Print(front), context));
    }
  }

  /** The first step selects from what the empty text stands for, or the single dot. */
  lemma FirstStepSelects(apt: Apartment, dot: bool, step: Step, context: Option<Group>)
    requires WellFormedStep(step) && Selecting(step.op)
    ensures var start := if dot then "." else "";
      && Built(apt, start, context).Ok?
      && StepSelects(apt, step.op, Built(apt, start, context).value, ContextOf(apt, start, context),
                     Built(apt, start + PrintStep(step), context))
  {
    hide Denote, DenoteOp, StepSelects, PrintStep, WellFormedStep, Selecting, SetAt;
    var start, devices := if dot then "." else "", Started(apt, dot, context);
    StartSets(apt, context);
    var e := if dot then FromRoot("", One(step)) else One(step);
    OneStep(step, dot);
    BuildSetDenotes(apt, e, context);
    OneDenotes(apt, step, devices, ContextOf(apt, start, context));
    OpSelects(apt, step.op, devices, ContextOf(apt, start, context));
  }

  lemma OneStep(step: Step, dot: bool)
    requires WellFormedStep(step)
    ensures var e := if dot then FromRoot("", One(step)) else One(step);
      WellFormed(e) && Print(e) == (if dot then "." else "") + PrintStep(step)
  {
    hide PrintStep, WellFormedStep;
    assert Print(One(step)) == PrintStep(step);
    assert "" + ("." + PrintStep(step)) == "." + PrintStep(step) && "" + PrintStep(step) == PrintStep(step);
  }

  lemma OneDenotes(apt: Apartment, step: Step, devices: DeviceSet, context: Group)
    ensures Denote(apt, One(step), devices, context) == DenoteOp(apt, step.op, devices, context)
  {
  }

  /** What an expression starts from. */
  function Started(apt: Apartment, dot: bool, context: Option<Group>): DeviceSet {
    if dot then apt.broadcastZoneDevices
    else match context
         case None => []
         case Some(group) => ByGroup(group.zoneDevices, group.id)
  }

  /** Nothing stands for the devices of the context group, a dot for those of the broadcast zone, and a
      dot behind white space or behind the first for all devices of the apartment. */
  lemma StartSets(apt: Apartment, context: Option<Group>)
    ensures Built(apt, ".", context) == Ok(apt.broadcastZoneDevices)
    ensures Built(apt, " .", context) == Built(apt, "..", context) == Ok(apt.devices)
    ensures Built(apt, "", context) == Ok(Started(apt, false, context))
    ensures match context
            case None => Started(apt, false, context) == []
            case Some(group) => Exactly(Started(apt, false, context), group.zoneDevices, InGroup(group.id))
  {
    hide Exactly, ByGroup, SetAt;
    if context.Some? {
      ByGroupExactly(context.value.zoneDevices, context.value.id);
      EmptyRest(apt, "", 0, ByGroup(context.value.zoneDevices, context.value.id), context.value);
    }
    var all := BroadcastGroup(apt);
    EmptyRest(apt, "", 0, [], all);
    EmptyRest(apt, ".", 1, all.GetDevices(), all);
    assert all.GetDevices() == apt.broadcastZoneDevices by { WholeGroup(apt.broadcastZoneDevices); }
    TwoDots(apt, all);
    match context
    case None => BlankDot(apt, [], all);
    case Some(group) => BlankDot(apt, group.GetDevices(), group);
  }

  lemma WholeGroup(s: DeviceSet)
    ensures ByGroup(s, GROUP_ID_BROADCAST) == s
  {
  }

  /** Behind the end of the text nothing is selected any more. */
  lemma EmptyRest(apt: Apartment, s: string, i: nat, devices: DeviceSet, group: Group)
    requires i == |s|
    ensures SetAt(apt, s, i, devices, group) == Ok(Parsed(devices, i))
  {
    assert EntryAt(s, i) == NoEntry(i);
  }

  lemma TwoDots(apt: Apartment, group: Group)
    ensures SetAt(apt, "..", 1, group.GetDevices(), group) == Ok(Parsed(apt.devices, 2))
  {
    hide SetAt, ByGroup;
    assert ".."[1..1] == "" && ".."[1] == '.';
    RootAt("..", 1, "", 1);
    SetAtRoot(apt, "..", 1, 2, group.GetDevices(), group);
    EmptyRest(apt, "..", 2, apt.devices, group);
  }

  lemma BlankDot(apt: Apartment, devices: DeviceSet, group: Group)
    ensures SetAt(apt, " .", 0, devices, group) == Ok(Parsed(apt.devices, 2))
  {
    hide SetAt;
    assert " ."[0..1] == " " && " ."[1] == '.' && IsBlank(' ');
    RootAt(" .", 0, " ", 1);
    SetAtRoot(apt, " .", 0, 2, devices, group);
    EmptyRest(apt, " .", 2, apt.devices, group);
  }

  // --- The calls as they are written ------------------------------------------------------

  /** A step with nothing around it. */
  function Alone(op: Op): Step {
    Step("", op, "")
  }

  function Word(text: string): Bare {
    Bare("", text, "")
  }

  function InQuotes(text: string): Quoted {
    Quoted(text, "")
  }

  lemma WordText(t: string)
    ensures PrintBare(Word(t)) == t && PrintQuoted(InQuotes(t)) == "'" + t + "'"
  {
    assert "" + (t + "") == t;
  }

  function Called(name: string, parameters: string): string {
    name + ("(" + (parameters + ")"))
  }

  lemma CallText(op: Op, name: string, parameters: string)
    requires !op.Name? && FunctionName(op) == name && PrintParameters(op) == parameters
    ensures PrintStep(Alone(op)) == Called(name, parameters)
  {
    hide FunctionName, PrintParameters;
    assert "" + (PrintOp(op) + "") == PrintOp(op);
  }

  /** The text of the functions, spelt out: with a bare parameter, */
  lemma WordCalls(t: string)
    ensures PrintStep(Alone(Name(t))) == t
    ensures PrintStep(Alone(Dsid(Word(t)))) == Called("dsid", t)
    ensures PrintStep(Alone(DsuidFunction(Word(t)))) == Called("dsuid", t)
    ensures PrintStep(Alone(ZoneNumbered(Word(t)))) == Called("zone", t)
    ensures PrintStep(Alone(GroupNumbered(Word(t)))) == Called("group", t)
    ensures PrintStep(Alone(FunctionId(Word(t)))) == Called("fid", t)
    ensures PrintStep(Alone(AddDevices([ByBareId(Word(t))]))) == Called("addDevices", t)
  {
    hide PrintBare, PrintQuoted, Called, PrintStep, PrintOp;
    WordText(t);
    NameText(t);
    CallText(Dsid(Word(t)), "dsid", t);
    CallText(DsuidFunction(Word(t)), "dsuid", t);
    CallText(ZoneNumbered(Word(t)), "zone", t);
    CallText(GroupNumbered(Word(t)), "group", t);
    CallText(FunctionId(Word(t)), "fid", t);
    CallText(AddDevices([ByBareId(Word(t))]), "addDevices", t);
  }

  /** in quotes, */
  lemma QuotedCalls(t: string)
    ensures PrintStep(Alone(ZoneNamed(InQuotes(t)))) == Called("zone", "'" + t + "'")
    ensures PrintStep(Alone(GroupNamed(InQuotes(t)))) == Called("group", "'" + t + "'")
    ensures PrintStep(Alone(Tagged("", InQuotes(t)))) == Called("tag", "'" + t + "'")
    ensures PrintStep(Alone(AddDevices([ByQuotedName(InQuotes(t))]))) == Called("addDevices", "'" + t + "'")
  {
    hide PrintBare, PrintQuoted, Called, PrintStep, PrintOp;
    WordText(t);
    assert "" + ("'" + t + "'") == "'" + t + "'";
    CallText(ZoneNamed(InQuotes(t)), "zone", "'" + t + "'");
    CallText(GroupNamed(InQuotes(t)), "group", "'" + t + "'");
    CallText(Tagged("", InQuotes(t)), "tag", "'" + t + "'");
    CallText(AddDevices([ByQuotedName(InQuotes(t))]), "addDevices", "'" + t + "'");
  }

  /** and with an expression or nothing in the brackets. */
  lemma NestedCalls(e: Expr)
    ensures PrintStep(Alone(Add(e))) == Called("add", Print(e))
    ensures PrintStep(Alone(RemoveAll(e))) == Called("remove", Print(e))
    ensures PrintStep(Alone(Empty)) == Called("empty", "")
  {
    hide Called, PrintStep, PrintOp, Print;
    CallText(Add(e), "add", Print(e));
    CallText(RemoveAll(e), "remove", Print(e));
    CallText(Empty, "empty", "");
  }

  lemma NameText(t: string)
    ensures PrintStep(Alone(Name(t))) == t
  {
    assert "" + (t + "") == t;
  }

  // --- A parameter too many ---------------------------------------------------------------

  /** A function that has just one parameter. */
  predicate OneParameter(op: Op) {
    Selecting(op) && !op.Name? && !op.Empty? && !op.AddDevices?
  }

  /** The text of such a call with a comma, and more, behind its parameter. */
  function WithMore(op: Op, more: string): string {
    FunctionName(op) + ("(" + (PrintParameters(op) + ("," + more)))
  }

  /** What the call would select does not matter: the text is refused. */
  lemma SuperfluousParameter(apt: Apartment, op: Op, more: string, context: Option<Group>)
    requires OneParameter(op) && WellFormedOp(op)
    ensures var devices := Started(apt, false, context);
      var selected := DenoteOp(apt, op, devices, ContextOf(apt, "", context));
      Built(apt, WithMore(op, more), context)
      == if selected.Throw? then Throw(selected.error) else Throw(RuntimeError)
  {
    hide DenoteOp, PrintParameters, FunctionName, WellFormedOp, SetAt, CallAt, FunctionAt, FunctionNamed, ByGroup;
    var s := WithMore(op, more);
    var devices, group := Started(apt, false, context), ContextOf(apt, "", context);
    var open, end := SplitMore(s, op, more);
    FunctionNames(op);
    ParameterRead(apt, s, open + 1, op, devices, group, end);
    CallRefused(apt, s, FunctionName(op), open + 1, devices, group, end, DenoteOp(apt, op, devices, group));
    assert s[0..0] == "";
    CallEntryAt(s, 0, "", 0, open);
    SetAtRefused(apt, s, FunctionName(op), open + 1, devices, group);
    CallFirst(op, s);
  }

  lemma CallFirst(op: Op, s: string)
    requires !op.Name? && FunctionName(op) <= s
    ensures s != "" && s[0] != '.'
  {
    NamePlain(op);
    assert s[0] == FunctionName(op)[0] && FunctionName(op)[0] in FunctionName(op);
  }

  lemma SplitMore(s: string, op: Op, more: string) returns (open: nat, end: nat)
    requires !op.Name? && s == WithMore(op, more)
    ensures Spans(s, 0, FunctionName(op), open) && 0 < open && s[open] == '('
    ensures Spans(s, open + 1, PrintParameters(op), end) && end < |s| && s[end] == ','
    ensures FunctionName(op) <= s && s[0..open] == FunctionName(op)
    ensures !Numbers.IsSpace(s[0]) && forall k | 0 <= k < open :: s[k] !in {'.', '(', ')', ','}
  {
    hide FunctionName, PrintParameters;
    NamePlain(op);
    var name, params := FunctionName(op), PrintParameters(op);
    assert s[0..|s|] == s;
    open := Split(s, 0, name, "(" + (params + ("," + more)), |s|);
    var first := Split(s, open, "(", params + ("," + more), |s|);
    end := Split(s, first, params, "," + more, |s|);
    CharAt(s, open, "(", first, open);
    CharAt(s, end, "," + more, |s|, end);
    AllFree(s, 0, name, open, {'.', '(', ')', ','});
    CharAt(s, 0, name, open, 0);
  }

  lemma ParameterRead(apt: Apartment, s: string, i: nat, op: Op, devices: DeviceSet, group: Group, end: nat)
    requires OneParameter(op) && WellFormedOp(op)
    requires Spans(s, i, PrintParameters(op), end) && EndsParameter(s, end)
    ensures i < |s| && FunctionAt(apt, s, FunctionOf(op), i, devices, group)
         == Through(DenoteOp(apt, op, devices, group), end)
  {
    hide OnlyAt, ZoneAt, GroupAt, FidAt, TagAt, Only, ZoneNumber, GroupNumber, FunctionNumber, PrintBare, PrintQuoted,
         ByZoneName, ByGroupName, WellFormedBare, DevicesAdded, SetAt, ByTag;
    match op
    case Dsid(id) => DsidCall(apt, s, i, id, devices, end);
    case DsuidFunction(id) => DsidCall(apt, s, i, id, devices, end);
    case ZoneNamed(name) => NamedCalls(apt, s, i, name, devices, end);
    case GroupNamed(name) => NamedCalls(apt, s, i, name, devices, end);
    case ZoneNumbered(id) => NumberedCalls(apt, s, i, id, devices, end);
    case GroupNumbered(id) => NumberedCalls(apt, s, i, id, devices, end);
    case FunctionId(id) => NumberedCalls(apt, s, i, id, devices, end);
    case Tagged(before, tag) => TagCall(s, i, before, tag, devices, end);
  }

  lemma CallRefused(apt: Apartment, s: string, name: string, i: nat, devices: DeviceSet, group: Group, end: nat,
                    d: Result<DeviceSet>)
    requires i <= end < |s| && s[end] == ','
    requires FunctionAt(apt, s, FunctionNamed(name), i, devices, group) == Through(d, end)
    ensures CallAt(apt, s, name, i, devices, group) == if d.Throw? then Throw(d.error) else Throw(RuntimeError)
  {
    hide FunctionAt, FunctionNamed;
  }

  lemma SetAtRefused(apt: Apartment, s: string, name: string, next: nat, devices: DeviceSet, group: Group)
    requires next <= |s| && EntryAt(s, 0) == Call(name, next) && CallAt(apt, s, name, next, devices, group).Throw?
    ensures SetAt(apt, s, 0, devices, group) == Throw(CallAt(apt, s, name, next, devices, group).error)
  {
    hide CallAt, EntryAt;
  }
}
