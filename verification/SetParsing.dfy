/** What the set-expression parser of `src/setbuilder.cpp` computes, as functions.

    The class that computes it is in SetBuilder, and what the functions mean for expressions
    is in SetExpression. */
module SetParsing {
  import opened DeviceSet
  import opened Exceptions
  import opened Strings
  import Numbers

  // s is the description being parsed and i the index, which the source passes by reference.

  datatype Parsed = Parsed(devices: DeviceSet, index: nat)

  datatype Parameter = Parameter(text: string, index: nat)

  /** operator[] of a std::string, which yields NUL one past the end. */
  function At(s: string, i: nat): char
    requires i <= |s|
  {
    if i < |s| then s[i] else '\0'
  }

  function SkipSpace(s: string, i: nat): (r: nat)
    requires i <= |s|
    ensures i <= r <= |s|
    ensures forall k | i <= k < r :: Numbers.IsSpace(s[k])
    ensures r < |s| ==> !Numbers.IsSpace(s[r])
    decreases |s| - i
  {
    if i < |s| && Numbers.IsSpace(s[i]) then SkipSpace(s, i + 1) else i
  }

  function ParameterAt(s: string, i: nat): (r: Result<Parameter>)
    requires i <= |s|
    ensures r.Ok? ==> i <= r.value.index < |s| && s[r.value.index] in {',', ')'}
  {
    var start := SkipSpace(s, i);
    var pos := FindFirstOf(s, {',', ')'}, start);
    if pos == |s| then Throw(RuntimeError) else Ok(Parameter(s[start..pos], SkipSpace(s, pos)))
  }

  datatype Number = Number(value: int, index: nat)

  function IntAt(s: string, i: nat): (r: Result<Number>)
    requires i <= |s|
    ensures r.Ok? ==> i <= r.value.index < |s| && s[r.value.index] in {',', ')'}
  {
    var p :- ParameterAt(s, i);
    match Numbers.StrToInt(Trim(p.text))
    case None => Throw(InvalidArgument)
    case Some(n) => Ok(Number(n, p.index))
  }

  function DsidAt(apt: Apartment, s: string, i: nat): (r: Result<Parameter>)
    requires i <= |s|
    ensures r.Ok? ==> i <= r.value.index < |s| && s[r.value.index] in {',', ')'}
  {
    var p :- ParameterAt(s, i);
    match apt.parseDsuid(Trim(p.text))
    case None => Throw(InvalidArgument)
    case Some(dsuid) => Ok(Parameter(dsuid, p.index))
  }

  function StringAt(s: string, i: nat): (r: Result<Parameter>)
    requires i <= |s|
    ensures r.Ok? ==> i <= r.value.index < |s| && s[r.value.index] in {',', ')'}
  {
    var p :- ParameterAt(s, i);
    var t := Trim(p.text);
    if |t| >= 2 && t[0] == '\'' && t[|t| - 1] == '\'' then Ok(Parameter(t[1..|t| - 1], p.index))
    else Throw(RuntimeError)
  }

  function Restricted(apt: Apartment, identifier: string, devices: DeviceSet, group: Group): DeviceSet {
    match ByName(group.GetDevices(), identifier)
    case Ok(d) => [d]
    case Throw(_) =>
      match ByGroupName(apt, devices, identifier)
      case Ok(r) => r
      case Throw(_) =>
        match ByZoneName(apt, devices, identifier)
        case Ok(r) => r
        case Throw(_) => []
  }

  /** The parameters of addDevices, up to the first one no comma follows. */
  function DevicesAdded(apt: Apartment, s: string, i: nat, devices: DeviceSet): (r: Result<Parsed>)
    requires i <= |s|
    ensures r.Ok? ==> i <= r.value.index < |s|
    decreases |s| - i, if i < |s| && s[i] == ',' then 1 else 0
  {
    var j := if At(s, i) == ',' then i + 1 else i;
    match NamedOrIdentified(apt, s, j)
    case Throw(e) => Throw(e)
    case Ok(p) =>
      var more := AddDevice(devices, p.device);
      if s[p.index] == ',' then DevicesAdded(apt, s, p.index, more) else Ok(Parsed(more, p.index))
  }

  datatype Named = Named(device: Device, index: nat)

  function NamedOrIdentified(apt: Apartment, s: string, j: nat): (r: Result<Named>)
    requires j <= |s|
    ensures r.Ok? ==> j <= r.value.index < |s| && s[r.value.index] in {',', ')'}
  {
    if At(s, j) == '\'' then
      var p :- StringAt(s, j);
      var d :- ByName(apt.devices, p.text);
      Ok(Named(d, p.index))
    else
      var p :- DsidAt(apt, s, j);
      var d :- ByDsuid(apt.devices, p.text);
      Ok(Named(d, p.index))
  }

  datatype Function = ByDevice | ByZoneOf | ByGroupOf | ByFid | ByTagOf | Adding | Removing | AddingDevices | Unknown

  /** An unknown function, like "empty", yields no devices and reads no parameter. */
  function FunctionNamed(name: string): Function {
    if name == "dsid" || name == "dsuid" then ByDevice
    else if name == "zone" then ByZoneOf
    else if name == "group" then ByGroupOf
    else if name == "fid" then ByFid
    else if name == "tag" then ByTagOf
    else if name == "add" then Adding
    else if name == "remove" then Removing
    else if name == "addDevices" then AddingDevices
    else Unknown
  }

  function OnlyDevice(devices: DeviceSet, dsuid: string): Result<DeviceSet> {
    var d :- ByDsuid(devices, dsuid);
    Ok([d])
  }

  function OnlyAt(apt: Apartment, s: string, i: nat, devices: DeviceSet): (r: Result<Parsed>)
    requires i <= |s|
    ensures r.Ok? ==> i <= r.value.index <= |s|
  {
    var p :- DsidAt(apt, s, i);
    var r :- OnlyDevice(devices, p.text);
    Ok(Parsed(r, p.index))
  }

  function ZoneAt(apt: Apartment, s: string, i: nat, devices: DeviceSet): (r: Result<Parsed>)
    requires i < |s|
    ensures r.Ok? ==> i <= r.value.index <= |s|
  {
    if s[i] == '\'' then
      var p :- StringAt(s, i);
      var r :- ByZoneName(apt, devices, p.text);
      Ok(Parsed(r, p.index))
    else
      var n :- IntAt(s, i);
      Ok(Parsed(ByZone(devices, n.value), n.index))
  }

  function GroupAt(apt: Apartment, s: string, i: nat, devices: DeviceSet): (r: Result<Parsed>)
    requires i < |s|
    ensures r.Ok? ==> i <= r.value.index <= |s|
  {
    if s[i] == '\'' then
      var p :- StringAt(s, i);
      var r :- ByGroupName(apt, devices, p.text);
      Ok(Parsed(r, p.index))
    else
      var n :- IntAt(s, i);
      Ok(Parsed(ByGroup(devices, n.value), n.index))
  }

  function FidAt(s: string, i: nat, devices: DeviceSet): (r: Result<Parsed>)
    requires i <= |s|
    ensures r.Ok? ==> i <= r.value.index <= |s|
  {
    var n :- IntAt(s, i);
    Ok(Parsed(ByFunctionId(devices, n.value), n.index))
  }

  function TagAt(s: string, i: nat, devices: DeviceSet): (r: Result<Parsed>)
    requires i <= |s|
    ensures r.Ok? ==> i <= r.value.index <= |s|
  {
    var p :- StringAt(s, i);
    Ok(Parsed(ByTag(devices, p.text), p.index))
  }

  /** The body of restrictByFunction without its closing bracket. */
  function FunctionAt(apt: Apartment, s: string, f: Function, i: nat, devices: DeviceSet, group: Group)
    : (r: Result<Parsed>)
    requires i < |s|
    ensures r.Ok? ==> i <= r.value.index <= |s|
    decreases |s| - i, 2
  {
    match f
    case ByDevice => OnlyAt(apt, s, i, devices)
    case ByZoneOf => ZoneAt(apt, s, i, devices)
    case ByGroupOf => GroupAt(apt, s, i, devices)
    case ByFid => FidAt(s, i, devices)
    case ByTagOf => TagAt(s, i, devices)
    case Adding =>
      var inner :- SetAt(apt, s, i, group.GetDevices(), group);
      Ok(Parsed(Combine(devices, inner.devices), inner.index))
    case Removing =>
      var inner :- SetAt(apt, s, i, group.GetDevices(), group);
      Ok(Parsed(Remove(devices, inner.devices), inner.index))
    case AddingDevices => DevicesAdded(apt, s, i, devices)
    case Unknown => Ok(Parsed([], i))
  }

  function CallAt(apt: Apartment, s: string, name: string, i: nat, devices: DeviceSet, group: Group)
    : (r: Result<Parsed>)
    requires i <= |s|
    ensures r.Ok? ==> i < r.value.index <= |s|
    decreases |s| - i, 3
  {
    if i >= |s| then Throw(RangeError)
    else
      var r :- FunctionAt(apt, s, FunctionNamed(name), i, devices, group);
      if At(s, r.index) == ')' then Ok(Parsed(r.devices, r.index + 1))
      else if At(s, r.index) == ',' then Throw(RuntimeError)
      else Throw(AssertionFailed)
  }

  /** Where the entry at i ends: at its delimiter, or at the last character. */
  function EntryEnd(s: string, i: nat): (pos: nat)
    requires i < |s|
    ensures i <= pos < |s|
  {
    var found := FindFirstOf(s, {'.', '(', ')', ','}, i);
    if found == |s| then |s| - 1 else found
  }

  /** What parseSet finds at an index; next is where it goes on. */
  datatype Entry =
    | NoEntry(next: nat)
    | Dot(next: nat)
    | Call(name: string, next: nat)
    | Item(name: string, next: nat, last: bool)

  function EntryAt(s: string, index: nat): (e: Entry)
    requires index <= |s|
    ensures index <= e.next <= |s|
    ensures e.Dot? || e.Call? || (e.Item? && !e.last) ==> index < e.next
  {
    var i := SkipSpace(s, index);
    if i >= |s| then NoEntry(i)
    else
      var pos := EntryEnd(s, i);
      if s[i..pos + 1] == "." then Dot(pos + 1)
      else if s[pos] == '(' then Call(s[i..pos], pos + 1)
      else
        var parsingParam := s[pos] == ',' || s[pos] == ')';
        var end := pos == |s| - 1;
        Item(
          if !end || parsingParam then s[i..pos] else s[i..pos + 1],
          if parsingParam then pos else pos + 1,
          end || parsingParam)
  }

  function SetAt(apt: Apartment, s: string, index: nat, devices: DeviceSet, context: Group): (r: Result<Parsed>)
    requires index <= |s|
    ensures r.Ok? ==> index <= r.value.index <= |s|
    decreases |s| - index, 1
  {
    match EntryAt(s, index)
    case NoEntry(next) => Ok(Parsed(devices, next))
    case Dot(next) => SetAt(apt, s, next, apt.devices, context)
    case Call(name, next) =>
      var r :- CallAt(apt, s, name, next, devices, context);
      AfterCall(apt, s, SkipSpace(s, r.index), r.devices, context)
    case Item(name, next, last) =>
      var r := Restricted(apt, Trim(name), devices, context);
      if last then Ok(Parsed(r, next)) else SetAt(apt, s, next, r, context)
  }

  /** Goes on after a function call, skipping the dot, unless a parameter or the text ends. */
  function AfterCall(apt: Apartment, s: string, j: nat, devices: DeviceSet, context: Group): (r: Result<Parsed>)
    requires j <= |s|
    ensures r.Ok? ==> j <= r.value.index <= |s|
    decreases |s| - j, 2
  {
    if j < |s| && s[j] != ',' && s[j] != ')' then SetAt(apt, s, j + 1, devices, context)
    else Ok(Parsed(devices, j))
  }

  function BroadcastGroup(apt: Apartment): Group {
    Group(apt.broadcastZoneDevices, GROUP_ID_BROADCAST)
  }

  /** buildSet; no context stands for a null group. */
  function Built(apt: Apartment, s: string, context: Option<Group>): Result<DeviceSet> {
    var all := BroadcastGroup(apt);
    var r :-
      if s != "" && s[0] == '.' then SetAt(apt, s, 1, all.GetDevices(), all)
      else match context
           case Some(group) => SetAt(apt, s, 0, group.GetDevices(), group)
           case None => SetAt(apt, s, 0, [], all);
    Ok(r.devices)
  }
}
