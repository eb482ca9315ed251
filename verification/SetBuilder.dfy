/** The set-expression parser of `src/setbuilder.cpp`. An index that the source passes by reference
    comes back with the result; of a throwing call only the error is known. */
module SetBuilder {
  import opened DeviceSet
  import opened Exceptions
  import opened SetParsing
  import opened Strings
  import Numbers

  class Builder {
    const apartment: Apartment
    var setDescription: string

    constructor (apartment: Apartment)
      ensures this.apartment == apartment
    {
      this.apartment := apartment;
      setDescription := "";
    }

    method SkipWhitespace(index: nat) returns (i: nat)
      requires index <= |setDescription|
      ensures i == SkipSpace(setDescription, index)
    {
      i := index;
      while i < |setDescription| && Numbers.IsSpace(setDescription[i])
        invariant index <= i <= |setDescription|
        invariant SkipSpace(setDescription, i) == SkipSpace(setDescription, index)
      {
        i := i + 1;
      }
    }

    method ReadParameter(index: nat) returns (r: Result<Parameter>)
      requires index <= |setDescription|
      ensures r == ParameterAt(setDescription, index)
    {
      var start := SkipWhitespace(index);
      var pos := FindFirstOf(setDescription, {',', ')'}, start);
      if pos == |setDescription| {
        return Throw(RuntimeError);
      }
      var i := SkipWhitespace(pos);
      return Ok(Parameter(setDescription[start..pos], i));
    }

    method ReadInt(index: nat) returns (r: Result<Number>)
      requires index <= |setDescription|
      ensures r == IntAt(setDescription, index)
    {
      var p :- ReadParameter(index);
      match Numbers.StrToInt(Trim(p.text))
      case None => return Throw(InvalidArgument);
      case Some(n) => return Ok(Number(n, p.index));
    }

    method ReadDsid(index: nat) returns (r: Result<Parameter>)
      requires index <= |setDescription|
      ensures r == DsidAt(apartment, setDescription, index)
    {
      var p :- ReadParameter(index);
      match apartment.parseDsuid(Trim(p.text))
      case None => return Throw(InvalidArgument);
      case Some(dsuid) => return Ok(Parameter(dsuid, p.index));
    }

    method ReadString(index: nat) returns (r: Result<Parameter>)
      requires index <= |setDescription|
      ensures r == StringAt(setDescription, index)
    {
      hide Trim, ParameterAt;
      var p :- ReadParameter(index);
      var result := Trim(p.text);
      if |result| >= 2 {
        var first, last := result[0], result[|result| - 1];
        if first == '\'' && last == '\'' {
          return Ok(Parameter(result[1..|result| - 1], p.index));
        }
      }
      return Throw(RuntimeError);
    }

    method RestrictBy(identifier: string, devices: DeviceSet, group: Group) returns (r: DeviceSet)
      ensures r == Restricted(apartment, identifier, devices, group)
    {
      var device := ByName(group.GetDevices(), identifier);
      if device.Ok? {
        return [device.value];
      }
      var inGroup := ByGroupName(apartment, devices, identifier);
      if inGroup.Ok? {
        return inGroup.value;
      }
      var inZone := ByZoneName(apartment, devices, identifier);
      if inZone.Ok? {
        return inZone.value;
      }
      return [];
    }

    /** The loop of addDevices. */
    method ReadDevices(index: nat, devices: DeviceSet) returns (r: Result<Parsed>)
      requires index <= |setDescription|
      ensures r == DevicesAdded(apartment, setDescription, index, devices)
    {
      hide NamedOrIdentified, AddDevice;
      var i, result := index, devices;
      while true
        invariant index <= i <= |setDescription|
        invariant DevicesAdded(apartment, setDescription, i, result)
               == DevicesAdded(apartment, setDescription, index, devices)
        decreases |setDescription| - i, if i < |setDescription| && setDescription[i] == ',' then 1 else 0
      {
        var j := i;
        if At(setDescription, j) == ',' {
          j := j + 1;
        }
        var p :- ReadReference(j);
        result := AddDevice(result, p.device);
        i := p.index;
        if At(setDescription, i) != ',' {
          return Ok(Parsed(result, i));
        }
      }
    }

    method ReadReference(j: nat) returns (r: Result<Named>)
      requires j <= |setDescription|
      ensures r == NamedOrIdentified(apartment, setDescription, j)
    {
      if At(setDescription, j) == '\'' {
        var p :- ReadString(j);
        var d :- ByName(apartment.devices, p.text);
        return Ok(Named(d, p.index));
      } else {
        var p :- ReadDsid(j);
        var d :- ByDsuid(apartment.devices, p.text);
        return Ok(Named(d, p.index));
      }
    }

    method RestrictByFunction(name: string, index: nat, devices: DeviceSet, group: Group)
      returns (r: Result<Parsed>)
      requires index <= |setDescription|
      ensures r == CallAt(apartment, setDescription, name, index, devices, group)
      decreases |setDescription| - index, 3
    {
      hide FunctionAt, FunctionNamed, SetAt, Filter;
      if index >= |setDescription| {
        return Throw(RangeError);
      }
      var p :- Apply(FunctionNamed(name), index, devices, group);
      if At(setDescription, p.index) == ')' {
        return Ok(Parsed(p.devices, p.index + 1));   // behind the bracket
      } else if At(setDescription, p.index) == ',' {
        return Throw(RuntimeError);
      }
      return Throw(AssertionFailed);
    }

    method Apply(f: Function, index: nat, devices: DeviceSet, group: Group) returns (r: Result<Parsed>)
      requires index < |setDescription|
      ensures r == FunctionAt(apartment, setDescription, f, index, devices, group)
      decreases |setDescription| - index, 2
    {
      hide OnlyAt, ZoneAt, GroupAt, IntAt, StringAt, SetAt, DevicesAdded, ByFunctionId, ByTag, Combine, Remove;
      match f
      case ByDevice => r := RestrictToDevice(index, devices);
      case ByZoneOf => r := RestrictToZone(index, devices);
      case ByGroupOf => r := RestrictToGroup(index, devices);
      case ByFid =>
        var n :- ReadInt(index);
        r := Ok(Parsed(ByFunctionId(devices, n.value), n.index));
      case ByTagOf =>
        var p :- ReadString(index);
        r := Ok(Parsed(ByTag(devices, p.text), p.index));
      case Adding =>
        var inner :- ParseSet(index, group.GetDevices(), group);
        r := Ok(Parsed(Combine(devices, inner.devices), inner.index));
      case Removing =>
        var inner :- ParseSet(index, group.GetDevices(), group);
        r := Ok(Parsed(Remove(devices, inner.devices), inner.index));
      case AddingDevices => r := ReadDevices(index, devices);
      case Unknown => r := Ok(Parsed([], index));
    }

    method RestrictToDevice(index: nat, devices: DeviceSet) returns (r: Result<Parsed>)
      requires index <= |setDescription|
      ensures r == OnlyAt(apartment, setDescription, index, devices)
    {
      var p :- ReadDsid(index);
      var only :- OnlyDevice(devices, p.text);
      return Ok(Parsed(only, p.index));
    }

    method RestrictToZone(index: nat, devices: DeviceSet) returns (r: Result<Parsed>)
      requires index < |setDescription|
      ensures r == ZoneAt(apartment, setDescription, index, devices)
    {
      if setDescription[index] == '\'' {
        var p :- ReadString(index);
        var zone :- ByZoneName(apartment, devices, p.text);
        return Ok(Parsed(zone, p.index));
      }
      var n :- ReadInt(index);
      return Ok(Parsed(ByZone(devices, n.value), n.index));
    }

    method RestrictToGroup(index: nat, devices: DeviceSet) returns (r: Result<Parsed>)
      requires index < |setDescription|
      ensures r == GroupAt(apartment, setDescription, index, devices)
    {
      if setDescription[index] == '\'' {
        var p :- ReadString(index);
        var group :- ByGroupName(apartment, devices, p.text);
        return Ok(Parsed(group, p.index));
      }
      var n :- ReadInt(index);
      return Ok(Parsed(ByGroup(devices, n.value), n.index));
    }

    /** parseSet up to the branch it takes. */
    method ScanEntry(index: nat) returns (e: Entry)
      requires index <= |setDescription|
      ensures e == EntryAt(setDescription, index)
    {
      var i := SkipWhitespace(index);
      if i >= |setDescription| {
        return NoEntry(i);
      }
      // the delimiter that ends the entry
      var pos := FindFirstOf(setDescription, {'.', '(', ')', ','}, i);
      var end := false;
      if pos == |setDescription| {
        pos := |setDescription| - 1;
        end := true;
      } else if pos == |setDescription| - 1 {
        end := true;
      }
      var entry := setDescription[i..pos + 1];
      var item := entry[..|entry| - 1];
      assert item == setDescription[i..pos];
      if entry == "." {
        return Dot(pos + 1);
      } else if setDescription[pos] == '(' {
        return Call(item, pos + 1);
      } else {
        var parsingParam := setDescription[pos] == ',' || setDescription[pos] == ')';
        if end && !parsingParam {
          item := entry;
        }
        return Item(item, if parsingParam then pos else pos + 1, end || parsingParam);
      }
    }

    method ParseSet(index: nat, devices: DeviceSet, context: Group) returns (r: Result<Parsed>)
      requires index <= |setDescription|
      ensures r == SetAt(apartment, setDescription, index, devices, context)
      decreases |setDescription| - index, 1
    {
      hide EntryAt, CallAt, Restricted;
      var entry := ScanEntry(index);
      match entry
      case NoEntry(next) =>
        r := Ok(Parsed(devices, next));
      case Dot(next) =>
        r := ParseSet(next, apartment.devices, context);
      case Call(name, next) =>
        var call :- RestrictByFunction(name, next, devices, context);
        var j := SkipWhitespace(call.index);
        // no recursion at the end or behind a parameter
        if j < |setDescription| && setDescription[j] != ',' && setDescription[j] != ')' {
          r := ParseSet(j + 1, call.devices, context);
        } else {
          r := Ok(Parsed(call.devices, j));
        }
      case Item(name, next, last) =>
        var tmp := RestrictBy(Trim(name), devices, context);
        if last {
          r := Ok(Parsed(tmp, next));
        } else {
          r := ParseSet(next, tmp, context);
        }
    }

    method BuildSet(description: string, context: Option<Group>) returns (r: Result<DeviceSet>)
      modifies this
      ensures setDescription == description
      ensures r == Built(apartment, description, context)
    {
      setDescription := description;
      var all := BroadcastGroup(apartment);
      var group, result, index := all, [], 0;
      if description != "" && description[0] == '.' {
        result := all.GetDevices();
        index := 1;
      } else if context.Some? {
        group := context.value;
        result := group.GetDevices();
      }
      var parsed :- ParseSet(index, result, group);
      return Ok(parsed.devices);
    }
  }
}
