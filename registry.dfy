/**
 * The accessory registry (src/platform.ts, `fetchDevices` and
 * `addAccessory`): the list of platform accessories, each identified by the
 * UUID of `did + ' ' + mode`, reconciled against a fetched device list and
 * the selected modes.
 */
module Registry {
  import opened Wrappers

  /** A device of the vendor's binding list: `did` and `dev_alias`. */
  datatype Device = Device(did: string, alias: string)

  /** A platform accessory: its UUID, display name and `context` (device and mode). */
  datatype Accessory = Accessory(uuid: string, displayName: string, device: Device, mode: string)

  /**
   * The UUID of the accessory for `mode` on device `did`.  The host's UUID
   * generator is taken to be the identity on the unique-id `did + ' ' + mode`,
   * which is injective as the generator is assumed to be.
   */
  function AccessoryUuid(did: string, mode: string): string {
    did + " " + mode
  }

  /** On one device, the UUID determines the mode. */
  lemma UuidDeterminesMode(did: string, m1: string, m2: string)
    ensures AccessoryUuid(did, m1) == AccessoryUuid(did, m2) <==> m1 == m2
  {
    if AccessoryUuid(did, m1) == AccessoryUuid(did, m2) {
      assert m1 == AccessoryUuid(did, m1)[|did| + 1..];
      assert m2 == AccessoryUuid(did, m2)[|did| + 1..];
    }
  }

  /** The UUIDs of a list of accessories, in order. */
  function Uuids(accs: seq<Accessory>): (s: seq<string>)
    ensures |s| == |accs| && forall i :: 0 <= i < |accs| ==> s[i] == accs[i].uuid
  {
    seq(|accs|, i requires 0 <= i < |accs| => accs[i].uuid)
  }

  predicate Distinct(s: seq<string>) {
    forall i, j :: 0 <= i < j < |s| ==> s[i] != s[j]
  }

  /** `accessories.find(accessory => accessory.UUID === uuid)`, as the index of the first match. */
  function Find(accs: seq<Accessory>, uuid: string): (r: Option<nat>)
    ensures r.Some? ==> r.value < |accs| && accs[r.value].uuid == uuid
    ensures r.Some? ==> forall j :: 0 <= j < r.value ==> accs[j].uuid != uuid
    ensures r.None? <==> uuid !in Uuids(accs)
  {
    if accs == [] then None
    else if accs[0].uuid == uuid then Some(0)
    else match Find(accs[1..], uuid)
      case None =>
        assert Uuids(accs) == [accs[0].uuid] + Uuids(accs[1..]);
        None
      case Some(i) => Some(i + 1)
  }

  /**
   * `addAccessory(device, mode)` on the accessory list: an accessory with the
   * UUID gets the new context; otherwise a new accessory is pushed.
   */
  function Add(accs: seq<Accessory>, device: Device, mode: string): (r: seq<Accessory>)
    ensures var uuid := AccessoryUuid(device.did, mode);
      Uuids(r) == if uuid in Uuids(accs) then Uuids(accs) else Uuids(accs) + [uuid]
    ensures forall j :: 0 <= j < |accs| && accs[j].uuid != AccessoryUuid(device.did, mode) ==> r[j] == accs[j]
    ensures var found := Find(r, AccessoryUuid(device.did, mode));
      found.Some? && r[found.value].device == device && r[found.value].mode == mode
  {
    var uuid := AccessoryUuid(device.did, mode);
    match Find(accs, uuid)
    case Some(i) =>
      var r := accs[i := accs[i].(device := device, mode := mode)];
      assert Uuids(r) == Uuids(accs);
      r
    case None =>
      var r := accs + [Accessory(uuid, device.alias + " " + mode, device, mode)];
      assert Uuids(r) == Uuids(accs) + [uuid];
      r
  }

  /** `selectedModes.forEach(mode => addAccessory(device, mode))`. */
  function AddModes(accs: seq<Accessory>, device: Device, modes: seq<string>): seq<Accessory>
    decreases |modes|
  {
    if modes == [] then accs
    else Add(AddModes(accs, device, modes[..|modes| - 1]), device, modes[|modes| - 1])
  }

  /** `devices.forEach(device => selectedModes.forEach(mode => addAccessory(device, mode)))`. */
  function AddDevices(accs: seq<Accessory>, devices: seq<Device>, modes: seq<string>): seq<Accessory>
    decreases |devices|
  {
    if devices == [] then accs
    else AddModes(AddDevices(accs, devices[..|devices| - 1], modes), devices[|devices| - 1], modes)
  }

  /** One more mode of the mode loop. */
  lemma AddModesStep(accs: seq<Accessory>, device: Device, modes: seq<string>, k: nat)
    requires k < |modes|
    ensures AddModes(accs, device, modes[..k + 1]) == Add(AddModes(accs, device, modes[..k]), device, modes[k])
  {
    assert modes[..k + 1][..k] == modes[..k];
  }

  /** One more device of the device loop. */
  lemma AddDevicesStep(accs: seq<Accessory>, devices: seq<Device>, modes: seq<string>, j: nat)
    requires j < |devices|
    ensures AddDevices(accs, devices[..j + 1], modes) == AddModes(AddDevices(accs, devices[..j], modes), devices[j], modes)
  {
    assert devices[..j + 1][..j] == devices[..j];
  }

  /**
   * The UUIDs the mode loop of one device sets instances under: one per
   * selected mode, whether the accessory was restored or created.
   */
  function ModeUuids(did: string, modes: seq<string>): (s: set<string>)
    ensures forall m :: m in modes ==> AccessoryUuid(did, m) in s
    decreases |modes|
  {
    if modes == [] then {}
    else
      var last := modes[|modes| - 1];
      assert modes == modes[..|modes| - 1] + [last];
      ModeUuids(did, modes[..|modes| - 1]) + {AccessoryUuid(did, last)}
  }

  /** The UUIDs a reconciliation pass sets instances under: one per fetched device and selected mode. */
  function DeviceUuids(devices: seq<Device>, modes: seq<string>): (s: set<string>)
    ensures forall d :: d in devices ==> ModeUuids(d.did, modes) <= s
    decreases |devices|
  {
    if devices == [] then {}
    else
      var last := devices[|devices| - 1];
      assert devices == devices[..|devices| - 1] + [last];
      DeviceUuids(devices[..|devices| - 1], modes) + ModeUuids(last.did, modes)
  }

  /** The mode loop sets instances under no UUID but those of the selected modes. */
  lemma {:induction false} ModeUuidsOnly(did: string, modes: seq<string>, u: string)
    requires u in ModeUuids(did, modes)
    ensures exists m :: m in modes && u == AccessoryUuid(did, m)
    decreases |modes|
  {
    var last := modes[|modes| - 1];
    assert modes == modes[..|modes| - 1] + [last];
    if u != AccessoryUuid(did, last) {
      ModeUuidsOnly(did, modes[..|modes| - 1], u);
    }
  }

  /** A pass sets instances under no UUID but those of the fetched devices' selected modes. */
  lemma {:induction false} DeviceUuidsOnly(devices: seq<Device>, modes: seq<string>, u: string)
    requires u in DeviceUuids(devices, modes)
    ensures exists d :: d in devices && u in ModeUuids(d.did, modes)
    decreases |devices|
  {
    var last := devices[|devices| - 1];
    assert devices == devices[..|devices| - 1] + [last];
    if u !in ModeUuids(last.did, modes) {
      DeviceUuidsOnly(devices[..|devices| - 1], modes, u);
    }
  }

  /** One more mode of the mode loop, on the UUIDs it sets. */
  lemma ModeUuidsStep(did: string, modes: seq<string>, k: nat)
    requires k < |modes|
    ensures ModeUuids(did, modes[..k + 1]) == ModeUuids(did, modes[..k]) + {AccessoryUuid(did, modes[k])}
  {
    assert modes[..k + 1][..k] == modes[..k];
  }

  /** One more device of the device loop, on the UUIDs it sets. */
  lemma DeviceUuidsStep(devices: seq<Device>, modes: seq<string>, j: nat)
    requires j < |devices|
    ensures DeviceUuids(devices[..j + 1], modes) == DeviceUuids(devices[..j], modes) + ModeUuids(devices[j].did, modes)
  {
    assert devices[..j + 1][..j] == devices[..j];
  }

  /** The unregister test of the first `fetchDevices` loop. */
  predicate IsUnused(a: Accessory, devices: seq<Device>, modes: seq<string>) {
    !(exists d :: d in devices && d.did == a.device.did) || a.mode !in modes
  }

  /** The accessories the first `fetchDevices` loop unregisters, in list order. */
  function Unused(accs: seq<Accessory>, devices: seq<Device>, modes: seq<string>): (r: seq<Accessory>)
    ensures forall a :: a in r <==> a in accs && IsUnused(a, devices, modes)
    ensures |r| <= |accs|
    decreases |accs|
  {
    if accs == [] then []
    else
      var last := accs[|accs| - 1];
      var init := Unused(accs[..|accs| - 1], devices, modes);
      assert accs == accs[..|accs| - 1] + [last];
      if IsUnused(last, devices, modes) then init + [last] else init
  }

  // ---- Reconciliation lemmas ------------------------------------------------

  lemma {:induction false} AddModesKeepsPrefix(accs: seq<Accessory>, device: Device, modes: seq<string>)
    ensures Uuids(accs) <= Uuids(AddModes(accs, device, modes))
    decreases |modes|
  {
    if modes != [] {
      AddModesKeepsPrefix(accs, device, modes[..|modes| - 1]);
    }
  }

  /** A reconciliation pass never removes an accessory from the list, nor reorders it. */
  lemma {:induction false} AddDevicesKeepsPrefix(accs: seq<Accessory>, devices: seq<Device>, modes: seq<string>)
    ensures Uuids(accs) <= Uuids(AddDevices(accs, devices, modes))
    decreases |devices|
  {
    if devices != [] {
      var init := AddDevices(accs, devices[..|devices| - 1], modes);
      AddDevicesKeepsPrefix(accs, devices[..|devices| - 1], modes);
      AddModesKeepsPrefix(init, devices[|devices| - 1], modes);
    }
  }

  lemma {:induction false} AddModesCovers(accs: seq<Accessory>, device: Device, modes: seq<string>)
    ensures forall m :: m in modes ==> AccessoryUuid(device.did, m) in Uuids(AddModes(accs, device, modes))
    decreases |modes|
  {
    if modes != [] {
      var init := modes[..|modes| - 1];
      AddModesCovers(accs, device, init);
      assert modes == init + [modes[|modes| - 1]];
    }
  }

  /** After a pass, every fetched device has an accessory for every selected mode. */
  lemma {:induction false} AddDevicesCovers(accs: seq<Accessory>, devices: seq<Device>, modes: seq<string>)
    ensures forall d, m :: d in devices && m in modes ==>
      AccessoryUuid(d.did, m) in Uuids(AddDevices(accs, devices, modes))
    decreases |devices|
  {
    if devices != [] {
      var init := devices[..|devices| - 1];
      var last := devices[|devices| - 1];
      AddDevicesCovers(accs, init, modes);
      AddModesKeepsPrefix(AddDevices(accs, init, modes), last, modes);
      AddModesCovers(AddDevices(accs, init, modes), last, modes);
      assert devices == init + [last];
    }
  }

  lemma {:induction false} AddModesWhenCovered(accs: seq<Accessory>, device: Device, modes: seq<string>)
    requires forall m :: m in modes ==> AccessoryUuid(device.did, m) in Uuids(accs)
    ensures Uuids(AddModes(accs, device, modes)) == Uuids(accs)
    decreases |modes|
  {
    if modes != [] {
      AddModesWhenCovered(accs, device, modes[..|modes| - 1]);
    }
  }

  /** A pass over pairs that all have an accessory already adds none. */
  lemma {:induction false} AddDevicesWhenCovered(accs: seq<Accessory>, devices: seq<Device>, modes: seq<string>)
    requires forall d, m :: d in devices && m in modes ==> AccessoryUuid(d.did, m) in Uuids(accs)
    ensures Uuids(AddDevices(accs, devices, modes)) == Uuids(accs)
    decreases |devices|
  {
    if devices != [] {
      var init := devices[..|devices| - 1];
      AddDevicesWhenCovered(accs, init, modes);
      AddModesWhenCovered(AddDevices(accs, init, modes), devices[|devices| - 1], modes);
    }
  }

  /** A second pass with the same devices and modes adds no accessory. */
  lemma SecondPassAddsNothing(accs: seq<Accessory>, devices: seq<Device>, modes: seq<string>)
    ensures Uuids(AddDevices(AddDevices(accs, devices, modes), devices, modes)) == Uuids(AddDevices(accs, devices, modes))
  {
    AddDevicesCovers(accs, devices, modes);
    AddDevicesWhenCovered(AddDevices(accs, devices, modes), devices, modes);
  }

  lemma {:induction false} AddModesKeepsDistinct(accs: seq<Accessory>, device: Device, modes: seq<string>)
    requires Distinct(Uuids(accs))
    ensures Distinct(Uuids(AddModes(accs, device, modes)))
    decreases |modes|
  {
    if modes != [] {
      AddModesKeepsDistinct(accs, device, modes[..|modes| - 1]);
    }
  }

  /** A pass never creates two accessories with one UUID. */
  lemma {:induction false} AddDevicesKeepsDistinct(accs: seq<Accessory>, devices: seq<Device>, modes: seq<string>)
    requires Distinct(Uuids(accs))
    ensures Distinct(Uuids(AddDevices(accs, devices, modes)))
    decreases |devices|
  {
    if devices != [] {
      var init := devices[..|devices| - 1];
      AddDevicesKeepsDistinct(accs, init, modes);
      AddModesKeepsDistinct(AddDevices(accs, init, modes), devices[|devices| - 1], modes);
    }
  }

  /** Unregistered accessories are not spliced out: each is still in the list after the pass. */
  lemma UnregisteredStayListed(accs: seq<Accessory>, devices: seq<Device>, modes: seq<string>, a: Accessory)
    requires a in Unused(accs, devices, modes)
    ensures a.uuid in Uuids(AddDevices(accs, devices, modes))
  {
    AddDevicesKeepsPrefix(accs, devices, modes);
    var i :| 0 <= i < |accs| && accs[i] == a;
    assert Uuids(accs)[i] == a.uuid;
  }
}
