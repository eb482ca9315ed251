/** The sets of `src/model/set.cpp` and the lookups of an apartment that set expressions use.

    A set is a sequence of devices in the order of insertion. No operation here yields two
    devices of one dSUID from operands without such pairs. */
module DeviceSet {
  import opened Exceptions
  import opened Strings

  datatype Device = Device(
    dsuid: string, name: string, zoneId: int, groupIds: set<int>, functionId: int, tags: set<string>)

  /** Devices in insertion order; a device reference compares by its dSUID. */
  type DeviceSet = seq<Device>

  /** A group is known by the devices of its zone and its number. */
  datatype Group = Group(zoneDevices: DeviceSet, id: int) {
    function GetDevices(): DeviceSet {
      ByGroup(zoneDevices, id)
    }
  }

  datatype Apartment = Apartment(
    devices: DeviceSet,
    broadcastZoneDevices: DeviceSet,    // the devices of zone 0
    zoneIds: map<string, int>,          // zones by name
    groupIds: map<string, int>,         // the groups of zone 0 by name
    parseDsuid: string -> Option<string>)

  const GROUP_ID_BROADCAST: int := 0

  predicate Contains(s: DeviceSet, d: Device) {
    exists i :: 0 <= i < |s| && s[i].dsuid == d.dsuid
  }

  function AddDevice(s: DeviceSet, d: Device): DeviceSet {
    if Contains(s, d) then s else s + [d]
  }

  function Filter(s: DeviceSet, keep: Device -> bool): (r: DeviceSet)
    ensures forall d :: d in r <==> d in s && keep(d)
  {
    if s == [] then [] else (if keep(s[0]) then [s[0]] else []) + Filter(s[1..], keep)
  }

  function ByGroup(s: DeviceSet, id: int): DeviceSet {
    if id != GROUP_ID_BROADCAST then Filter(s, (d: Device) => id in d.groupIds) else s
  }

  function ByZone(s: DeviceSet, id: int): DeviceSet {
    if id != 0 then Filter(s, (d: Device) => d.zoneId == id) else s
  }

  function ByFunctionId(s: DeviceSet, id: int): DeviceSet {
    Filter(s, (d: Device) => d.functionId == id)
  }

  function ByTag(s: DeviceSet, tag: string): DeviceSet {
    Filter(s, (d: Device) => tag in d.tags)
  }

  /** The name is looked up only if the set holds a device. */
  function ByGroupName(apt: Apartment, s: DeviceSet, name: string): Result<DeviceSet> {
    if s == [] then Ok([])
    else if name in apt.groupIds then Ok(ByGroup(s, apt.groupIds[name]))
    else Throw(ItemNotFound)
  }

  function ByZoneName(apt: Apartment, s: DeviceSet, name: string): Result<DeviceSet> {
    if s == [] then Ok([])
    else if name in apt.zoneIds then Ok(ByZone(s, apt.zoneIds[name]))
    else Throw(ItemNotFound)
  }

  function First(s: DeviceSet, keep: Device -> bool): Result<Device> {
    var r := Filter(s, keep);
    if r == [] then Throw(ItemNotFound) else Ok(r[0])
  }

  function ByName(s: DeviceSet, name: string): Result<Device> {
    First(s, (d: Device) => d.name == name)
  }

  function ByDsuid(s: DeviceSet, dsuid: string): Result<Device> {
    First(s, (d: Device) => d.dsuid == dsuid)
  }

  /** All of `other`, then what it lacks of s. */
  function Combine(s: DeviceSet, other: DeviceSet): DeviceSet
    decreases |s|
  {
    if s == [] then other else AddDevice(Combine(s[..|s| - 1], other), s[|s| - 1])
  }

  function RemoveDevice(s: DeviceSet, d: Device): DeviceSet {
    if s == [] then [] else if s[0].dsuid == d.dsuid then s[1..] else [s[0]] + RemoveDevice(s[1..], d)
  }

  function Remove(s: DeviceSet, other: DeviceSet): DeviceSet
    decreases |other|
  {
    if other == [] then s else Remove(RemoveDevice(s, other[0]), other[1..])
  }

  // --- Sets as sets of dSUIDs -------------------------------------------------------------

  function Keys(s: DeviceSet): set<string> {
    set d | d in s :: d.dsuid
  }

  predicate Distinct(s: DeviceSet) {
    forall i, j | 0 <= i < j < |s| :: s[i].dsuid != s[j].dsuid
  }

  lemma AddDeviceKeys(s: DeviceSet, d: Device)
    requires Distinct(s)
    ensures Keys(AddDevice(s, d)) == Keys(s) + {d.dsuid} && Distinct(AddDevice(s, d))
  {
  }

  /** combine yields the union, the devices of the other set first. */
  lemma {:induction false} CombineIsUnion(s: DeviceSet, other: DeviceSet)
    requires Distinct(other)
    ensures Keys(Combine(s, other)) == Keys(s) + Keys(other) && Distinct(Combine(s, other))
    ensures other <= Combine(s, other)
    decreases |s|
  {
    if s != [] {
      var init, last := s[..|s| - 1], s[|s| - 1];
      assert s == init + [last];
      CombineIsUnion(init, other);
      AddDeviceKeys(Combine(init, other), last);
      assert Keys([last]) == {last.dsuid};
    }
  }

  lemma ConsDistinct(d: Device, s: DeviceSet)
    requires Distinct(s) && d.dsuid !in Keys(s)
    ensures Distinct([d] + s) && Keys([d] + s) == {d.dsuid} + Keys(s)
  {
  }

  lemma {:induction false} RemoveDeviceKeys(s: DeviceSet, d: Device)
    requires Distinct(s)
    ensures Keys(RemoveDevice(s, d)) == Keys(s) - {d.dsuid} && Distinct(RemoveDevice(s, d))
  {
    if s != [] {
      if s[0].dsuid != d.dsuid {
        RemoveDeviceKeys(s[1..], d);
        ConsDistinct(s[0], RemoveDevice(s[1..], d));
      }
    }
  }

  /** remove yields the difference. */
  lemma {:induction false} RemoveIsDifference(s: DeviceSet, other: DeviceSet)
    requires Distinct(s)
    ensures Keys(Remove(s, other)) == Keys(s) - Keys(other) && Distinct(Remove(s, other))
    decreases |other|
  {
    if other != [] {
      RemoveDeviceKeys(s, other[0]);
      RemoveIsDifference(RemoveDevice(s, other[0]), other[1..]);
      assert other == [other[0]] + other[1..];
      assert Keys([other[0]]) == {other[0].dsuid};
    }
  }

  lemma {:induction false} FilterDistinct(s: DeviceSet, keep: Device -> bool)
    requires Distinct(s)
    ensures Distinct(Filter(s, keep)) && Keys(Filter(s, keep)) <= Keys(s)
  {
    if s != [] {
      FilterDistinct(s[1..], keep);
      if keep(s[0]) {
        ConsDistinct(s[0], Filter(s[1..], keep));
      }
    }
  }
}
