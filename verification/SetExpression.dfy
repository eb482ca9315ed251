/** Set expressions as trees: how they are printed, what they denote, and that SetBuilder
    evaluates the printed form to the denotation. */
module SetExpression {
  import opened DeviceSet
  import opened Exceptions
  import opened SetParsing
  import opened Strings
  import Numbers

  // --- Trees ------------------------------------------------------------------------------

  /** A bare parameter with blanks around it. */
  datatype Bare = Bare(before: string, text: string, after: string)

  /** A parameter in single quotes, with blanks behind it. */
  datatype Quoted = Quoted(text: string, after: string)

  datatype Reference = ByQuotedName(name: Quoted) | ByBareId(id: Bare)

  datatype Op =
    | Name(identifier: string)
    | Dsid(id: Bare)
    | DsuidFunction(id: Bare)
    | ZoneNamed(name: Quoted)
    | ZoneNumbered(id: Bare)
    | GroupNamed(name: Quoted)
    | GroupNumbered(id: Bare)
    | FunctionId(id: Bare)
    | Tagged(before: string, tag: Quoted)
    | Add(added: Expr)
    | RemoveAll(removed: Expr)
    | Empty
    | AddDevices(references: seq<Reference>)

  datatype Step = Step(before: string, op: Op, after: string)

  datatype Expr =
    | One(step: Step)
    | Chain(step: Step, rest: Expr)          // step.rest
    | FromRoot(before: string, rest: Expr)   // .rest

  // --- Printing ---------------------------------------------------------------------------

  function PrintBare(b: Bare): string { b.before + (b.text + b.after) }

  function PrintQuoted(q: Quoted): string { ("'" + q.text + "'") + q.after }

  function PrintReference(r: Reference): string {
    match r
    case ByQuotedName(name) => PrintQuoted(name)
    case ByBareId(id) => PrintBare(id)
  }

  function PrintReferences(rs: seq<Reference>): string {
    if rs == [] then "" else if |rs| == 1 then PrintReference(rs[0])
    else PrintReference(rs[0]) + ("," + PrintReferences(rs[1..]))
  }

  function FunctionName(op: Op): string {
    match op
    case Name(_) => ""
    case Dsid(_) => "dsid"
    case DsuidFunction(_) => "dsuid"
    case ZoneNamed(_) => "zone"
    case ZoneNumbered(_) => "zone"
    case GroupNamed(_) => "group"
    case GroupNumbered(_) => "group"
    case FunctionId(_) => "fid"
    case Tagged(_, _) => "tag"
    case Add(_) => "add"
    case RemoveAll(_) => "remove"
    case Empty => "empty"
    case AddDevices(_) => "addDevices"
  }

  function PrintParameters(op: Op): string
    decreases op, 0
  {
    match op
    case Name(_) => ""
    case Dsid(id) => PrintBare(id)
    case DsuidFunction(id) => PrintBare(id)
    case ZoneNamed(name) => PrintQuoted(name)
    case ZoneNumbered(id) => PrintBare(id)
    case GroupNamed(name) => PrintQuoted(name)
    case GroupNumbered(id) => PrintBare(id)
    case FunctionId(id) => PrintBare(id)
    case Tagged(before, tag) => before + PrintQuoted(tag)
    case Add(added) => Print(added)
    case RemoveAll(removed) => Print(removed)
    case Empty => ""
    case AddDevices(references) => PrintReferences(references)
  }

  function PrintOp(op: Op): string
    decreases op, 1
  {
    if op.Name? then op.identifier else FunctionName(op) + "(" + (PrintParameters(op) + ")")
  }

  function PrintStep(step: Step): string
    decreases step
  {
    step.before + (PrintOp(step.op) + step.after)
  }

  function Print(e: Expr): string
    decreases e
  {
    match e
    case One(step) => PrintStep(step)
    case Chain(step, rest) => PrintStep(step) + ("." + Print(rest))
    case FromRoot(before, rest) => before + ("." + Print(rest))
  }

  // --- Well-formed trees ------------------------------------------------------------------

  predicate WellFormedBare(b: Bare) {
    && AllBlank(b.before) && AllBlank(b.after) && Free(b.text, {',', ')'})
    && (b.text != "" ==> !Numbers.IsSpace(b.text[0]) && !IsBlank(b.text[|b.text| - 1]))
  }

  predicate WellFormedQuoted(q: Quoted) {
    AllBlank(q.after) && Free(q.text, {',', ')'})
  }

  /** A parameter that the code must not take for a quoted one. */
  predicate Unquoted(b: Bare) {
    b.before != "" || b.text == "" || b.text[0] != '\''
  }

  predicate WellFormedReference(r: Reference) {
    match r
    case ByQuotedName(name) => WellFormedQuoted(name)
    case ByBareId(id) => WellFormedBare(id) && Unquoted(id)
  }

  predicate WellFormedOp(op: Op)
    decreases op
  {
    match op
    case Name(name) =>
      && name != "" && Free(name, {'.', '(', ')', ','})
      && !Numbers.IsSpace(name[0]) && !IsBlank(name[|name| - 1])
    case Dsid(id) => WellFormedBare(id)
    case DsuidFunction(id) => WellFormedBare(id)
    case ZoneNamed(name) => WellFormedQuoted(name)
    case ZoneNumbered(id) => WellFormedBare(id) && Unquoted(id)
    case GroupNamed(name) => WellFormedQuoted(name)
    case GroupNumbered(id) => WellFormedBare(id) && Unquoted(id)
    case FunctionId(id) => WellFormedBare(id)
    case Tagged(before, tag) => AllBlank(before) && WellFormedQuoted(tag)
    case Add(added) => WellFormed(added)
    case RemoveAll(removed) => WellFormed(removed)
    case Empty => true
    case AddDevices(references) =>
      && references != [] && (forall r | r in references :: WellFormedReference(r))
      && (|references| > 1 ==> PrintReference(references[0]) != "")   // a leading comma is skipped
  }

  predicate WellFormedStep(step: Step)
    decreases step
  {
    AllBlank(step.before) && AllBlank(step.after) && WellFormedOp(step.op)
  }

  predicate WellFormed(e: Expr)
    decreases e
  {
    match e
    case One(step) => WellFormedStep(step)
    case Chain(step, rest) => WellFormedStep(step) && WellFormed(rest)
    case FromRoot(before, rest) => AllBlank(before) && WellFormed(rest)
  }

  // --- Denotation -------------------------------------------------------------------------

  function IntOf(b: Bare): Result<int> {
    match Numbers.StrToInt(b.text)
    case None => Throw(InvalidArgument)
    case Some(n) => Ok(n)
  }

  function DsuidOf(apt: Apartment, b: Bare): Result<string> {
    match apt.parseDsuid(b.text)
    case None => Throw(InvalidArgument)
    case Some(dsuid) => Ok(dsuid)
  }

  function DenoteReference(apt: Apartment, r: Reference): Result<Device> {
    match r
    case ByQuotedName(name) => ByName(apt.devices, name.text)
    case ByBareId(id) =>
      var dsuid :- DsuidOf(apt, id);
      ByDsuid(apt.devices, dsuid)
  }

  function DenoteReferences(apt: Apartment, rs: seq<Reference>, devices: DeviceSet): Result<DeviceSet> {
    if rs == [] then Ok(devices)
    else
      var d :- DenoteReference(apt, rs[0]);
      DenoteReferences(apt, rs[1..], AddDevice(devices, d))
  }

  function Only(apt: Apartment, id: Bare, devices: DeviceSet): Result<DeviceSet> {
    var dsuid :- DsuidOf(apt, id);
    OnlyDevice(devices, dsuid)
  }

  function ZoneNumber(id: Bare, devices: DeviceSet): Result<DeviceSet> {
    var n :- IntOf(id); Ok(ByZone(devices, n))
  }

  function GroupNumber(id: Bare, devices: DeviceSet): Result<DeviceSet> {
    var n :- IntOf(id); Ok(ByGroup(devices, n))
  }

  function FunctionNumber(id: Bare, devices: DeviceSet): Result<DeviceSet> {
    var n :- IntOf(id); Ok(ByFunctionId(devices, n))
  }

  /** What one step makes of the devices before it; the operands of add and remove start from
      the devices of the context group, not from those before the step. */
  function DenoteOp(apt: Apartment, op: Op, devices: DeviceSet, context: Group): Result<DeviceSet>
    decreases op
  {
    match op
    case Name(name) => Ok(Restricted(apt, name, devices, context))
    case Dsid(id) => Only(apt, id, devices)
    case DsuidFunction(id) => Only(apt, id, devices)
    case ZoneNamed(name) => ByZoneName(apt, devices, name.text)
    case ZoneNumbered(id) => ZoneNumber(id, devices)
    case GroupNamed(name) => ByGroupName(apt, devices, name.text)
    case GroupNumbered(id) => GroupNumber(id, devices)
    case FunctionId(id) => FunctionNumber(id, devices)
    case Tagged(_, tag) => Ok(ByTag(devices, tag.text))
    case Add(added) => var r :- Denote(apt, added, context.GetDevices(), context); Ok(Combine(devices, r))
    case RemoveAll(removed) => var r :- Denote(apt, removed, context.GetDevices(), context); Ok(Remove(devices, r))
    case Empty => Ok([])
    case AddDevices(references) => DenoteReferences(apt, references, devices)
  }

  /** Steps restrict from left to right; a leading dot starts from all devices. */
  function Denote(apt: Apartment, e: Expr, devices: DeviceSet, context: Group): Result<DeviceSet>
    decreases e
  {
    match e
    case One(step) => DenoteOp(apt, step.op, devices, context)
    case Chain(step, rest) =>
      var r :- DenoteOp(apt, step.op, devices, context);
      Denote(apt, rest, r, context)
    case FromRoot(_, rest) => Denote(apt, rest, apt.devices, context)
  }

  // --- Text at a position -----------------------------------------------------------------

  /** The text p fills s from i to end. */
  predicate Spans(s: string, i: nat, p: string, end: nat) {
    i <= end <= |s| && s[i..end] == p
  }

  lemma Split(s: string, i: nat, p: string, q: string, end: nat) returns (mid: nat)
    requires Spans(s, i, p + q, end)
    ensures mid == i + |p| && Spans(s, i, p, mid) && Spans(s, mid, q, end)
  {
    mid := i + |p|;
    assert (p + q)[..|p|] == p && (p + q)[|p|..] == q;
  }

  lemma CharAt(s: string, i: nat, p: string, end: nat, k: nat)
    requires Spans(s, i, p, end) && i <= k < end
    ensures s[k] == p[k - i] && s[k] in p
  {
  }

  lemma AllFree(s: string, i: nat, p: string, end: nat, cs: set<char>)
    requires Spans(s, i, p, end) && Free(p, cs)
    ensures forall k | i <= k < end :: s[k] !in cs
  {
  }

  lemma SkipBlanks(s: string, i: nat, blanks: string, end: nat)
    requires Spans(s, i, blanks, end) && AllBlank(blanks)
    requires end < |s| ==> !Numbers.IsSpace(s[end])
    ensures SkipSpace(s, i) == end
  {
  }

  predicate EndsParameter(s: string, j: nat) {
    j < |s| && s[j] in {',', ')'}
  }

  // --- Parameters -------------------------------------------------------------------------

  /** What a parameter at i reads as. */
  predicate Reads(s: string, i: nat, text: string, end: nat) {
    && i <= |s|
    && var r := ParameterAt(s, i);
       r.Ok? && Trim(r.value.text) == text && r.value.index == end
  }

  lemma ParameterFound(s: string, i: nat, start: nat, end: nat)
    requires i <= start <= end && EndsParameter(s, end) && SkipSpace(s, i) == start
    requires forall k | start <= k < end :: s[k] !in {',', ')'}
    ensures ParameterAt(s, i) == Ok(Parameter(s[start..end], end))
  {
  }

  lemma BlanksRead(s: string, i: nat, blanks: string, end: nat)
    requires AllBlank(blanks) && Spans(s, i, blanks, end) && EndsParameter(s, end)
    ensures Reads(s, i, "", end)
  {
    SkipBlanks(s, i, blanks, end);
    ParameterFound(s, i, end, end);
    assert s[end..end] == "";
    assert Trim("") == "";
  }

  lemma TextReads(s: string, i: nat, start: nat, text: string, after: string, end: nat)
    requires AllBlank(after) && Free(text, {',', ')'})
    requires text != "" && !IsBlank(text[0]) && !IsBlank(text[|text| - 1])
    requires Spans(s, start, text + after, end) && EndsParameter(s, end)
    requires i <= start && SkipSpace(s, i) == start
    ensures Reads(s, i, text, end)
  {
    AllFree(s, start, text + after, end, {',', ')'});
    ParameterFound(s, i, start, end);
    TrimText(text, after);
  }

  lemma TrimText(text: string, after: string)
    requires AllBlank(after) && text != "" && !IsBlank(text[0]) && !IsBlank(text[|text| - 1])
    ensures Trim(text + after) == text
  {
    hide Trim, IsBlank;
    TrimPadded("", text, after);
    assert "" + text + after == text + after;
  }

  lemma PaddedReads(s: string, i: nat, before: string, text: string, after: string, end: nat)
    requires AllBlank(before) && AllBlank(after) && Free(text, {',', ')'})
    requires text != "" && !Numbers.IsSpace(text[0]) && !IsBlank(text[|text| - 1])
    requires Spans(s, i, before + (text + after), end) && EndsParameter(s, end)
    ensures Reads(s, i, text, end)
  {
    var start := Split(s, i, before, text + after, end);
    CharAt(s, start, text + after, end, start);
    SkipBlanks(s, i, before, start);
    TextReads(s, i, start, text, after, end);
  }

  lemma BareReads(s: string, i: nat, b: Bare, end: nat)
    requires WellFormedBare(b) && Spans(s, i, PrintBare(b), end) && EndsParameter(s, end)
    ensures Reads(s, i, b.text, end)
  {
    if b.text == "" {
      assert b.text + b.after == b.after;
      BlanksRead(s, i, b.before + b.after, end);
    } else {
      PaddedReads(s, i, b.before, b.text, b.after, end);
    }
  }

  lemma QuotedAt(s: string, i: nat, before: string, q: Quoted, end: nat)
    requires AllBlank(before) && WellFormedQuoted(q) && Spans(s, i, before + PrintQuoted(q), end)
    requires EndsParameter(s, end)
    ensures StringAt(s, i) == Ok(Parameter(q.text, end))
  {
    var t := "'" + q.text + "'";
    PaddedReads(s, i, before, t, q.after, end);
    assert t[1..|t| - 1] == q.text;
  }

  lemma QuotedAtOnce(s: string, i: nat, q: Quoted, end: nat)
    requires WellFormedQuoted(q) && Spans(s, i, PrintQuoted(q), end) && EndsParameter(s, end)
    ensures StringAt(s, i) == Ok(Parameter(q.text, end)) && s[i] == '\''
  {
    assert "" + PrintQuoted(q) == PrintQuoted(q);
    QuotedAt(s, i, "", q, end);
    CharAt(s, i, PrintQuoted(q), end, i);
  }

  /** An unquoted parameter is not taken for a quoted one, nor for a comma. */
  lemma BareFirst(s: string, i: nat, b: Bare, end: nat)
    requires WellFormedBare(b) && Unquoted(b) && Spans(s, i, PrintBare(b), end) && EndsParameter(s, end)
    ensures s[i] != '\'' && (s[i] == ',' ==> end == i)
  {
    if i < end {
      CharAt(s, i, PrintBare(b), end, i);
      var c := PrintBare(b)[0];
      if b.before != "" {
        assert c == b.before[0] && c in b.before;
      } else if b.text != "" {
        assert c == b.text[0] && c in b.text;
      } else {
        assert c == b.after[0] && c in b.after;
      }
    }
  }

  function NumberThrough(n: Result<int>, end: nat): Result<Number> {
    var v :- n; Ok(Number(v, end))
  }

  lemma IntAtReads(s: string, i: nat, b: Bare, end: nat)
    requires Reads(s, i, b.text, end)
    ensures IntAt(s, i) == NumberThrough(IntOf(b), end)
  {
  }

  function ParameterThrough(p: Result<string>, end: nat): Result<Parameter> {
    var v :- p; Ok(Parameter(v, end))
  }

  lemma DsidAtReads(apt: Apartment, s: string, i: nat, b: Bare, end: nat)
    requires Reads(s, i, b.text, end)
    ensures DsidAt(apt, s, i) == ParameterThrough(DsuidOf(apt, b), end)
  {
  }

  function NamedThrough(d: Result<Device>, end: nat): Result<Named> {
    var v :- d; Ok(Named(v, end))
  }

  lemma ReferenceAt(apt: Apartment, s: string, i: nat, r: Reference, end: nat)
    requires WellFormedReference(r) && Spans(s, i, PrintReference(r), end) && EndsParameter(s, end)
    ensures NamedOrIdentified(apt, s, i) == NamedThrough(DenoteReference(apt, r), end)
  {
    match r
    case ByQuotedName(name) =>
      QuotedAtOnce(s, i, name, end);
    case ByBareId(id) =>
      BareFirst(s, i, id, end);
      BareReads(s, i, id, end);
      DsidAtReads(apt, s, i, id, end);
  }

  lemma ReferenceFirst(s: string, i: nat, r: Reference, end: nat)
    requires WellFormedReference(r) && Spans(s, i, PrintReference(r), end) && EndsParameter(s, end)
    ensures s[i] == ',' ==> end == i
  {
    match r
    case ByQuotedName(name) =>
      QuotedAtOnce(s, i, name, end);
    case ByBareId(id) =>
      BareFirst(s, i, id, end);
  }

  function Through(d: Result<DeviceSet>, end: nat): Result<Parsed> {
    var v :- d; Ok(Parsed(v, end))
  }

  /** The code skips one comma before each reference, the first included. */
  lemma {:induction false} ReferencesAt(apt: Apartment, s: string, i: nat, j: nat, rs: seq<Reference>,
                                        devices: DeviceSet, end: nat)
    requires rs != [] && forall r | r in rs :: WellFormedReference(r)
    requires i <= |s| && j == if At(s, i) == ',' then i + 1 else i
    requires Spans(s, j, PrintReferences(rs), end) && end < |s| && s[end] == ')'
    ensures DevicesAdded(apt, s, i, devices) == Through(DenoteReferences(apt, rs, devices), end)
    decreases |rs|
  {
    if |rs| == 1 {
      ReferenceAt(apt, s, j, rs[0], end);
      assert rs[1..] == [];
    } else {
      var mid, next := SplitAtComma(s, j, rs, end);
      ReferenceAt(apt, s, j, rs[0], mid);
      match DenoteReference(apt, rs[0])
      case Throw(_) =>
      case Ok(d) => ReferencesAt(apt, s, mid, next, rs[1..], AddDevice(devices, d), end);
    }
  }

  lemma SplitAtComma(s: string, j: nat, rs: seq<Reference>, end: nat) returns (mid: nat, next: nat)
    requires |rs| > 1 && Spans(s, j, PrintReferences(rs), end)
    ensures Spans(s, j, PrintReference(rs[0]), mid) && mid < |s| && s[mid] == ',' && next == mid + 1
    ensures Spans(s, next, PrintReferences(rs[1..]), end)
  {
    mid := Split(s, j, PrintReference(rs[0]), "," + PrintReferences(rs[1..]), end);
    next := Split(s, mid, ",", PrintReferences(rs[1..]), end);
    CharAt(s, mid, ",", next, mid);
  }

  // --- Function calls ---------------------------------------------------------------------

  /** The text of an operation with parameters, from behind its opening bracket. */
  predicate Calls(s: string, i: nat, op: Op, end: nat) {
    !op.Name? && WellFormedOp(op) && Spans(s, i, PrintParameters(op), end) && end < |s| && s[end] == ')'
  }

  function FunctionOf(op: Op): Function {
    match op
    case Dsid(_) => ByDevice
    case DsuidFunction(_) => ByDevice
    case ZoneNamed(_) => ByZoneOf
    case ZoneNumbered(_) => ByZoneOf
    case GroupNamed(_) => ByGroupOf
    case GroupNumbered(_) => ByGroupOf
    case FunctionId(_) => ByFid
    case Tagged(_, _) => ByTagOf
    case Add(_) => Adding
    case RemoveAll(_) => Removing
    case AddDevices(_) => AddingDevices
    case _ => Unknown
  }

  lemma FunctionNames(op: Op)
    ensures FunctionNamed(FunctionName(op)) == FunctionOf(op)
  {
  }

  lemma DsidCall(apt: Apartment, s: string, i: nat, id: Bare, devices: DeviceSet, end: nat)
    requires WellFormedBare(id) && Spans(s, i, PrintBare(id), end) && EndsParameter(s, end)
    ensures OnlyAt(apt, s, i, devices) == Through(Only(apt, id, devices), end)
  {
    hide ByDsuid, ParameterAt, DsidAt, PrintBare, WellFormedBare;
    BareReads(s, i, id, end);
    DsidAtReads(apt, s, i, id, end);
  }

  lemma NamedCalls(apt: Apartment, s: string, i: nat, name: Quoted, devices: DeviceSet, end: nat)
    requires WellFormedQuoted(name) && Spans(s, i, PrintQuoted(name), end) && EndsParameter(s, end)
    ensures ZoneAt(apt, s, i, devices) == Through(ByZoneName(apt, devices, name.text), end)
    ensures GroupAt(apt, s, i, devices) == Through(ByGroupName(apt, devices, name.text), end)
  {
    QuotedAtOnce(s, i, name, end);
  }

  lemma NumberedCalls(apt: Apartment, s: string, i: nat, id: Bare, devices: DeviceSet, end: nat)
    requires WellFormedBare(id) && Spans(s, i, PrintBare(id), end) && EndsParameter(s, end)
    ensures Unquoted(id) ==> ZoneAt(apt, s, i, devices) == Through(ZoneNumber(id, devices), end)
    ensures Unquoted(id) ==> GroupAt(apt, s, i, devices) == Through(GroupNumber(id, devices), end)
    ensures FidAt(s, i, devices) == Through(FunctionNumber(id, devices), end)
  {
    hide IntAt, IntOf, StringAt, ByZone, ByGroup, ByFunctionId, ByZoneName, ByGroupName, ParameterAt, Trim,
         WellFormedBare, PrintBare, ZoneAt, GroupAt, FidAt, ZoneNumber, GroupNumber, FunctionNumber, NumberThrough;
    if Unquoted(id) {
      BareFirst(s, i, id, end);
    }
    BareReads(s, i, id, end);
    IntAtReads(s, i, id, end);
    NumberCalls(apt, s, i, id, devices, end);
  }

  lemma NumberCalls(apt: Apartment, s: string, i: nat, id: Bare, devices: DeviceSet, end: nat)
    requires i < |s| && IntAt(s, i) == NumberThrough(IntOf(id), end)
    ensures s[i] != '\'' ==> ZoneAt(apt, s, i, devices) == Through(ZoneNumber(id, devices), end)
    ensures s[i] != '\'' ==> GroupAt(apt, s, i, devices) == Through(GroupNumber(id, devices), end)
    ensures FidAt(s, i, devices) == Through(FunctionNumber(id, devices), end)
  {
    hide IntAt, IntOf, StringAt, ByZone, ByGroup, ByFunctionId, ByZoneName, ByGroupName;
  }

  lemma TagCall(s: string, i: nat, before: string, tag: Quoted, devices: DeviceSet, end: nat)
    requires AllBlank(before) && WellFormedQuoted(tag) && Spans(s, i, before + PrintQuoted(tag), end)
    requires EndsParameter(s, end)
    ensures TagAt(s, i, devices) == Ok(Parsed(ByTag(devices, tag.text), end))
  {
    QuotedAt(s, i, before, tag, end);
  }

  /** Every operation but add and remove, whose operands are expressions. */
  lemma SimpleCallAt(apt: Apartment, s: string, i: nat, op: Op, devices: DeviceSet, context: Group, end: nat)
    requires Calls(s, i, op, end) && !op.Add? && !op.RemoveAll?
    ensures FunctionAt(apt, s, FunctionOf(op), i, devices, context)
         == Through(DenoteOp(apt, op, devices, context), end)
  {
    hide OnlyAt, ZoneAt, GroupAt, FidAt, TagAt, DevicesAdded, SetAt, Only, ZoneNumber, GroupNumber, FunctionNumber,
         DenoteReferences, PrintReferences, PrintBare, PrintQuoted, ByZoneName, ByGroupName, WellFormedBare;
    match op
    case Empty =>
    case Dsid(id) => DsidCall(apt, s, i, id, devices, end);
    case DsuidFunction(id) => DsidCall(apt, s, i, id, devices, end);
    case ZoneNamed(name) => NamedCalls(apt, s, i, name, devices, end);
    case GroupNamed(name) => NamedCalls(apt, s, i, name, devices, end);
    case ZoneNumbered(id) => NumberedCalls(apt, s, i, id, devices, end);
    case GroupNumbered(id) => NumberedCalls(apt, s, i, id, devices, end);
    case FunctionId(id) => NumberedCalls(apt, s, i, id, devices, end);
    case Tagged(before, tag) => TagCall(s, i, before, tag, devices, end);
    case AddDevices(rs) =>
      NoLeadingComma(s, i, rs, end);
      ReferencesAt(apt, s, i, i, rs, devices, end);
  }

  lemma NoLeadingComma(s: string, i: nat, rs: seq<Reference>, end: nat)
    requires rs != [] && (forall r | r in rs :: WellFormedReference(r))
    requires |rs| > 1 ==> PrintReference(rs[0]) != ""
    requires Spans(s, i, PrintReferences(rs), end) && end < |s| && s[end] == ')'
    ensures s[i] != ','
  {
    if |rs| == 1 {
      ReferenceFirst(s, i, rs[0], end);
    } else {
      var mid, _ := SplitAtComma(s, i, rs, end);
      ReferenceFirst(s, i, rs[0], mid);
    }
  }

  // --- Expressions ------------------------------------------------------------------------

  /** An expression ends at the end of the text or of a parameter. */
  predicate EndsExpression(s: string, end: nat) {
    end == |s| || EndsParameter(s, end)
  }

  predicate EndsStep(s: string, end: nat) {
    EndsExpression(s, end) || (end + 1 < |s| && s[end] == '.')
  }

  predicate Dotted(s: string, end: nat) {
    end < |s| && s[end] == '.'
  }

  /** Evaluation goes on behind a dot. */
  function Continue(apt: Apartment, s: string, d: Result<DeviceSet>, end: nat, context: Group): Result<Parsed>
    requires EndsStep(s, end)
  {
    var v :- d;
    if Dotted(s, end) then SetAt(apt, s, end + 1, v, context) else Ok(Parsed(v, end))
  }

  lemma {:induction false} ExprAt(apt: Apartment, s: string, i: nat, e: Expr, devices: DeviceSet, context: Group,
                                  end: nat)
    requires WellFormed(e) && Spans(s, i, Print(e), end) && EndsExpression(s, end)
    ensures SetAt(apt, s, i, devices, context) == Through(Denote(apt, e, devices, context), end)
    decreases e
  {
    hide SetAt, DenoteOp, PrintStep, WellFormedStep;
    match e
    case One(step) =>
      StepAt(apt, s, i, step, devices, context, end);
    case Chain(step, rest) =>
      var dot, next := SplitAtDot(s, i, PrintStep(step), Print(rest), end);
      PrintNotEmpty(rest);
      StepAt(apt, s, i, step, devices, context, dot);
      var d := DenoteOp(apt, step.op, devices, context);
      if d.Ok? {
        ExprAt(apt, s, next, rest, d.value, context, end);
      }
    case FromRoot(before, rest) =>
      var dot, next := SplitAtDot(s, i, before, Print(rest), end);
      RootAt(s, i, before, dot);
      SetAtRoot(apt, s, i, dot + 1, devices, context);
      ExprAt(apt, s, next, rest, apt.devices, context, end);
  }

  lemma RootAt(s: string, i: nat, before: string, dot: nat)
    requires Spans(s, i, before, dot) && AllBlank(before) && dot < |s| && s[dot] == '.'
    ensures EntryAt(s, i) == Dot(dot + 1)
  {
  }

  lemma SetAtRoot(apt: Apartment, s: string, i: nat, next: nat, devices: DeviceSet, context: Group)
    requires i < next <= |s| && EntryAt(s, i) == Dot(next)
    ensures SetAt(apt, s, i, devices, context) == SetAt(apt, s, next, apt.devices, context)
  {
  }

  lemma SplitAtDot(s: string, i: nat, p: string, q: string, end: nat) returns (dot: nat, next: nat)
    requires Spans(s, i, p + ("." + q), end)
    ensures Spans(s, i, p, dot) && dot < |s| && s[dot] == '.' && next == dot + 1 && Spans(s, next, q, end)
  {
    dot := Split(s, i, p, "." + q, end);
    next := Split(s, dot, ".", q, end);
    CharAt(s, dot, ".", next, dot);
  }

  lemma PrintNotEmpty(e: Expr)
    requires WellFormed(e)
    ensures Print(e) != ""
  {
    match e
    case One(step) => OpNotEmpty(step.op);
    case Chain(step, rest) => OpNotEmpty(step.op);
    case FromRoot(_, rest) =>
  }

  lemma OpNotEmpty(op: Op)
    requires WellFormedOp(op)
    ensures PrintOp(op) != ""
  {
  }

  lemma StepAt(apt: Apartment, s: string, i: nat, step: Step, devices: DeviceSet, context: Group, end: nat)
    requires WellFormedStep(step) && Spans(s, i, PrintStep(step), end) && EndsStep(s, end)
    ensures SetAt(apt, s, i, devices, context)
         == Continue(apt, s, DenoteOp(apt, step.op, devices, context), end, context)
    decreases step
  {
    var start := Split(s, i, step.before, PrintOp(step.op) + step.after, end);
    if step.op.Name? {
      NameAt(apt, s, i, start, step.op.identifier, step, devices, context, end);
    } else {
      var stop := Split(s, start, PrintOp(step.op), step.after, end);
      CallStepAt(apt, s, i, start, stop, step, devices, context, end);
    }
  }

  lemma NameAt(apt: Apartment, s: string, i: nat, start: nat, name: string, step: Step, devices: DeviceSet,
               context: Group, end: nat)
    requires WellFormedStep(step) && step.op == Name(name)
    requires Spans(s, i, step.before, start) && Spans(s, start, name + step.after, end) && EndsStep(s, end)
    ensures SetAt(apt, s, i, devices, context)
         == Continue(apt, s, Ok(Restricted(apt, name, devices, context)), end, context)
  {
    hide Restricted, EntryAt, SetAt, Continue;
    NameEntryAt(s, i, start, name, step.before, step.after, end);
    TrimText(name, step.after);
    SetAtItem(apt, s, i, name, name + step.after, devices, context, end);
  }

  lemma NameEntryAt(s: string, i: nat, start: nat, name: string, before: string, after: string, end: nat)
    requires AllBlank(before) && AllBlank(after) && WellFormedOp(Name(name))
    requires Spans(s, i, before, start) && Spans(s, start, name + after, end) && EndsStep(s, end)
    ensures EntryAt(s, i) == Item(name + after, if Dotted(s, end) then end + 1 else end, !Dotted(s, end))
  {
    hide EntryAt;
    CharAt(s, start, name + after, end, start);
    SkipBlanks(s, i, before, start);
    AllFree(s, start, name + after, end, {'.', '(', ')', ','});
    ItemAt(s, i, start, end);
  }

  lemma SetAtItem(apt: Apartment, s: string, i: nat, name: string, text: string, devices: DeviceSet,
                  context: Group, end: nat)
    requires i <= end <= |s| && EndsStep(s, end) && Trim(text) == name
    requires EntryAt(s, i) == Item(text, if Dotted(s, end) then end + 1 else end, !Dotted(s, end))
    ensures SetAt(apt, s, i, devices, context)
         == Continue(apt, s, Ok(Restricted(apt, name, devices, context)), end, context)
  {
    hide Restricted, EntryAt, Trim;
  }

  lemma ItemAt(s: string, i: nat, start: nat, end: nat)
    requires i <= start < end <= |s| && EndsStep(s, end)
    requires SkipSpace(s, i) == start && FindFirstOf(s, {'.', '(', ')', ','}, start) == end
    ensures EntryAt(s, i) == Item(s[start..end], if Dotted(s, end) then end + 1 else end, !Dotted(s, end))
  {
  }

  lemma CallStepAt(apt: Apartment, s: string, i: nat, start: nat, stop: nat, step: Step, devices: DeviceSet,
                   context: Group, end: nat)
    requires WellFormedStep(step) && !step.op.Name?
    requires Spans(s, i, step.before, start) && Spans(s, start, PrintOp(step.op), stop)
    requires Spans(s, stop, step.after, end) && EndsStep(s, end)
    ensures SetAt(apt, s, i, devices, context)
         == Continue(apt, s, DenoteOp(apt, step.op, devices, context), end, context)
    decreases step, 0
  {
    hide SetAt, CallAt, FunctionAt, FunctionNamed, DenoteOp, PrintOp, PrintParameters, FunctionName, WellFormedOp, Continue, EntryAt, SkipSpace;
    var open, close := SplitCall(s, start, step.op, stop);
    FunctionNames(step.op);
    FunctionAtOp(apt, s, open + 1, step.op, devices, context, close);
    CallCloses(apt, s, FunctionName(step.op), open + 1, devices, context, close,
               DenoteOp(apt, step.op, devices, context));
    SkipBlanks(s, stop, step.after, end);
    CallEntryAt(s, i, step.before, start, open);
    SetAtCall(apt, s, i, open + 1, FunctionName(step.op), stop, end, devices, context,
              DenoteOp(apt, step.op, devices, context));
  }

  lemma SplitCall(s: string, start: nat, op: Op, stop: nat) returns (open: nat, close: nat)
    requires !op.Name? && WellFormedOp(op) && Spans(s, start, PrintOp(op), stop)
    ensures Spans(s, start, FunctionName(op), open) && start < open && s[open] == '(' && close + 1 == stop
    ensures !Numbers.IsSpace(s[start]) && forall k | start <= k < open :: s[k] !in {'.', '(', ')', ','}
    ensures Calls(s, open + 1, op, close)
  {
    hide FunctionName, PrintParameters, WellFormedOp;
    NamePlain(op);
    var name, params := FunctionName(op), PrintParameters(op);
    assert PrintOp(op) == name + ("(" + (params + ")"));
    open := Split(s, start, name, "(" + (params + ")"), stop);
    var first := Split(s, open, "(", params + ")", stop);
    close := Split(s, first, params, ")", stop);
    CharAt(s, open, "(", first, open);
    CharAt(s, close, ")", stop, close);
    AllFree(s, start, name, open, {'.', '(', ')', ','});
    CharAt(s, start, name, open, start);
  }

  lemma NamePlain(op: Op)
    requires !op.Name?
    ensures var name := FunctionName(op);
      name != "" && Free(name, {'.', '(', ')', ','}) && !Numbers.IsSpace(name[0])
  {
  }

  /** A call whose function stops at the bracket ends behind it. */
  lemma CallCloses(apt: Apartment, s: string, name: string, i: nat, devices: DeviceSet, context: Group, end: nat,
                   d: Result<DeviceSet>)
    requires i <= end < |s| && s[end] == ')'
    requires FunctionAt(apt, s, FunctionNamed(name), i, devices, context) == Through(d, end)
    ensures CallAt(apt, s, name, i, devices, context) == Through(d, end + 1)
  {
    hide FunctionAt, FunctionNamed;
  }

  /** A printed function call is evaluated to what the operation denotes. */
  lemma FunctionAtOp(apt: Apartment, s: string, i: nat, op: Op, devices: DeviceSet, context: Group, end: nat)
    requires Calls(s, i, op, end)
    ensures FunctionAt(apt, s, FunctionOf(op), i, devices, context)
         == Through(DenoteOp(apt, op, devices, context), end)
    decreases op, 0
  {
    hide SetAt, FunctionAt, FunctionOf, DenoteOp, Denote, Through, Calls, WellFormed, EndsExpression;
    match op
    case Add(added) =>
      OperandSpans(s, i, op, added, end);
      ExprAt(apt, s, i, added, context.GetDevices(), context, end);
      OperandUsed(apt, s, i, added, devices, context, end);
    case RemoveAll(removed) =>
      OperandSpans(s, i, op, removed, end);
      ExprAt(apt, s, i, removed, context.GetDevices(), context, end);
      OperandUsed(apt, s, i, removed, devices, context, end);
    case _ => SimpleCallAt(apt, s, i, op, devices, context, end);
  }

  /** The parameter of add and remove is an expression. */
  lemma OperandSpans(s: string, i: nat, op: Op, e: Expr, end: nat)
    requires Calls(s, i, op, end) && (op == Add(e) || op == RemoveAll(e))
    ensures i < |s| && WellFormed(e) && Spans(s, i, Print(e), end) && EndsExpression(s, end)
  {
    hide WellFormed, Print;
  }

  lemma OperandUsed(apt: Apartment, s: string, i: nat, e: Expr, devices: DeviceSet, context: Group, end: nat)
    requires i < |s|
    requires SetAt(apt, s, i, context.GetDevices(), context) == Through(Denote(apt, e, context.GetDevices(), context), end)
    ensures FunctionAt(apt, s, FunctionOf(Add(e)), i, devices, context)
         == Through(DenoteOp(apt, Add(e), devices, context), end)
    ensures FunctionAt(apt, s, FunctionOf(RemoveAll(e)), i, devices, context)
         == Through(DenoteOp(apt, RemoveAll(e), devices, context), end)
  {
    hide SetAt, Denote, Combine, Remove, OnlyAt, ZoneAt, GroupAt, FidAt, TagAt, DevicesAdded, Only, ByZoneName,
         ByGroupName, ByTag, ZoneNumber, GroupNumber, FunctionNumber, DenoteReferences, Restricted;
  }

  lemma CallEntryAt(s: string, i: nat, before: string, start: nat, open: nat)
    requires Spans(s, i, before, start) && AllBlank(before)
    requires start < open < |s| && s[open] == '(' && !Numbers.IsSpace(s[start])
    requires forall k | start <= k < open :: s[k] !in {'.', '(', ')', ','}
    ensures EntryAt(s, i) == Call(s[start..open], open + 1)
  {
  }

  lemma SetAtCall(apt: Apartment, s: string, i: nat, next: nat, name: string, stop: nat, end: nat,
                  devices: DeviceSet, context: Group, d: Result<DeviceSet>)
    requires i <= next <= |s| && stop <= end <= |s| && EndsStep(s, end)
    requires EntryAt(s, i) == Call(name, next) && SkipSpace(s, stop) == end
    requires CallAt(apt, s, name, next, devices, context) == Through(d, stop)
    ensures SetAt(apt, s, i, devices, context) == Continue(apt, s, d, end, context)
  {
    hide CallAt, EntryAt;
  }

  // --- buildSet ---------------------------------------------------------------------------

  /** Only a dot at the very start of the text selects the broadcast group of zone 0. */
  function DenoteText(apt: Apartment, e: Expr, context: Option<Group>): Result<DeviceSet> {
    var all := BroadcastGroup(apt);
    if e.FromRoot? && e.before == "" then Denote(apt, e.rest, all.GetDevices(), all)
    else match context
         case Some(group) => Denote(apt, e, group.GetDevices(), group)
         case None => Denote(apt, e, [], all)
  }

  /** buildSet evaluates the text of a set expression to what the expression denotes. */
  lemma BuildSetDenotes(apt: Apartment, e: Expr, context: Option<Group>)
    requires WellFormed(e)
    ensures Built(apt, Print(e), context) == DenoteText(apt, e, context)
  {
    hide SetAt, Denote, PrintStep, WellFormedStep;
    var s, all := Print(e), BroadcastGroup(apt);
    assert s[0..|s|] == s;
    DotFirst(e);
    if e.FromRoot? && e.before == "" {
      var dot, next := SplitAtDot(s, 0, "", Print(e.rest), |s|);
      ExprAt(apt, s, 1, e.rest, all.GetDevices(), all, |s|);
    } else {
      match context
      case Some(group) => ExprAt(apt, s, 0, e, group.GetDevices(), group, |s|);
      case None => ExprAt(apt, s, 0, e, [], all, |s|);
    }
  }

  lemma DotFirst(e: Expr)
    requires WellFormed(e)
    ensures Print(e) != "" && (Print(e)[0] == '.' <==> e.FromRoot? && e.before == "")
  {
    match e
    case One(step) => StepFirst(step);
    case Chain(step, _) => StepFirst(step);
    case FromRoot(before, rest) =>
      if before != "" {
        assert before[0] in before;
      }
  }

  lemma StepFirst(step: Step)
    requires WellFormedStep(step)
    ensures PrintStep(step) != "" && PrintStep(step)[0] != '.'
  {
    if step.before != "" {
      assert step.before[0] in step.before;
    } else if step.op.Name? {
      assert step.op.identifier[0] in step.op.identifier;
    } else {
      NamePlain(step.op);
      assert FunctionName(step.op)[0] in FunctionName(step.op);
    }
  }

  // --- Evaluation keeps sets free of duplicates -------------------------------------------

  predicate DistinctResult(r: Result<DeviceSet>) {
    r.Ok? ==> Distinct(r.value)
  }

  lemma GroupDistinct(group: Group)
    requires Distinct(group.zoneDevices)
    ensures Distinct(group.GetDevices())
  {
    FilterDistinct(group.zoneDevices, (d: Device) => group.id in d.groupIds);
  }

  lemma LookupsDistinct(apt: Apartment, s: DeviceSet, id: int, name: string)
    requires Distinct(s)
    ensures Distinct(ByGroup(s, id)) && Distinct(ByZone(s, id)) && Distinct(ByFunctionId(s, id))
    ensures Distinct(ByTag(s, name))
  {
    FilterDistinct(s, (d: Device) => id in d.groupIds);
    FilterDistinct(s, (d: Device) => d.zoneId == id);
    FilterDistinct(s, (d: Device) => d.functionId == id);
    FilterDistinct(s, (d: Device) => name in d.tags);
  }

  lemma NamesDistinct(apt: Apartment, s: DeviceSet, name: string)
    requires Distinct(s)
    ensures DistinctResult(ByGroupName(apt, s, name)) && DistinctResult(ByZoneName(apt, s, name))
  {
    if name in apt.groupIds {
      LookupsDistinct(apt, s, apt.groupIds[name], name);
    }
    if name in apt.zoneIds {
      LookupsDistinct(apt, s, apt.zoneIds[name], name);
    }
  }

  lemma {:induction false} ReferencesDistinct(apt: Apartment, rs: seq<Reference>, devices: DeviceSet)
    requires Distinct(devices)
    ensures DistinctResult(DenoteReferences(apt, rs, devices))
  {
    if rs != [] {
      var d := DenoteReference(apt, rs[0]);
      if d.Ok? {
        AddDeviceKeys(devices, d.value);
        ReferencesDistinct(apt, rs[1..], AddDevice(devices, d.value));
      }
    }
  }

  lemma SimpleOpDistinct(apt: Apartment, op: Op, devices: DeviceSet, context: Group)
    requires Distinct(devices) && !op.Add? && !op.RemoveAll?
    ensures DistinctResult(DenoteOp(apt, op, devices, context))
  {
    hide Denote, Distinct, ByGroup, ByZone, ByFunctionId, ByTag, ByGroupName, ByZoneName, ByName, ByDsuid;
    match op
    case Name(name) => NamesDistinct(apt, devices, name); SingletonDistinct();
    case Dsid(id) => SingletonDistinct();
    case DsuidFunction(id) => SingletonDistinct();
    case ZoneNamed(name) => NamesDistinct(apt, devices, name.text);
    case GroupNamed(name) => NamesDistinct(apt, devices, name.text);
    case ZoneNumbered(id) => NumbersDistinct(apt, id, devices);
    case GroupNumbered(id) => NumbersDistinct(apt, id, devices);
    case FunctionId(id) => NumbersDistinct(apt, id, devices);
    case Tagged(_, tag) => LookupsDistinct(apt, devices, 0, tag.text);
    case AddDevices(rs) => ReferencesDistinct(apt, rs, devices);
    case Empty => SingletonDistinct();
  }

  lemma SingletonDistinct()
    ensures Distinct([]) && forall d: Device :: Distinct([d])
  {
  }

  lemma NumbersDistinct(apt: Apartment, id: Bare, devices: DeviceSet)
    requires Distinct(devices)
    ensures DistinctResult(ZoneNumber(id, devices)) && DistinctResult(GroupNumber(id, devices))
    ensures DistinctResult(FunctionNumber(id, devices))
  {
    var n := IntOf(id);
    if n.Ok? {
      LookupsDistinct(apt, devices, n.value, "");
    }
  }

  lemma {:induction false} OpDistinct(apt: Apartment, op: Op, devices: DeviceSet, context: Group)
    requires Distinct(apt.devices) && Distinct(context.zoneDevices) && Distinct(devices)
    ensures DistinctResult(DenoteOp(apt, op, devices, context))
    decreases op
  {
    if op.Add? || op.RemoveAll? {
      var inner := if op.Add? then op.added else op.removed;
      GroupDistinct(context);
      DenoteDistinct(apt, inner, context.GetDevices(), context);
      var r := Denote(apt, inner, context.GetDevices(), context);
      if r.Ok? {
        CombineIsUnion(devices, r.value);
        RemoveIsDifference(devices, r.value);
      }
    } else {
      SimpleOpDistinct(apt, op, devices, context);
    }
  }

  /** No evaluation yields a device twice. */
  lemma {:induction false} DenoteDistinct(apt: Apartment, e: Expr, devices: DeviceSet, context: Group)
    requires Distinct(apt.devices) && Distinct(context.zoneDevices) && Distinct(devices)
    ensures DistinctResult(Denote(apt, e, devices, context))
    decreases e
  {
    hide DenoteOp, Distinct;
    match e
    case One(step) => OpDistinct(apt, step.op, devices, context);
    case Chain(step, rest) =>
      OpDistinct(apt, step.op, devices, context);
      var r := DenoteOp(apt, step.op, devices, context);
      if r.Ok? {
        DenoteDistinct(apt, rest, r.value, context);
      }
    case FromRoot(_, rest) => DenoteDistinct(apt, rest, apt.devices, context);
  }

  /** Between function calls, text is evaluated as the algebra of device sets: the operand of add
      is united with the set before it, that of remove taken away from it. */
  lemma AddRemoveAlgebra(apt: Apartment, e: Expr, devices: DeviceSet, context: Group)
    requires Distinct(apt.devices) && Distinct(context.zoneDevices) && Distinct(devices)
    ensures var r := Denote(apt, e, context.GetDevices(), context);
      && (r.Throw? ==> DenoteOp(apt, Add(e), devices, context) == r && DenoteOp(apt, RemoveAll(e), devices, context) == r)
      && (r.Ok? ==>
            && var union := DenoteOp(apt, Add(e), devices, context);
            && var rest := DenoteOp(apt, RemoveAll(e), devices, context);
            && union.Ok? && Keys(union.value) == Keys(devices) + Keys(r.value)
            && rest.Ok? && Keys(rest.value) == Keys(devices) - Keys(r.value))
  {
    GroupDistinct(context);
    DenoteDistinct(apt, e, context.GetDevices(), context);
    var r := Denote(apt, e, context.GetDevices(), context);
    if r.Ok? {
      CombineIsUnion(devices, r.value);
      RemoveIsDifference(devices, r.value);
    }
  }
}
