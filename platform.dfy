/**
 * The platform and its accessories (src/platform.ts, src/platformAccessory.ts):
 * the session fields, the shared state cache, the accessory list and instance
 * map, the reconcilers that push on/off views to every switch of a device, and
 * the accessory handlers that read and write a heater's mode.  Remote calls,
 * the clock and the random draw are parameters.
 */
module Platform {
  import opened Wrappers
  import opened ModeCodes
  import opened Polling
  import opened Session
  import opened StateCache
  import opened Registry

  /** Outcome of `GET /app/bindings`: the `devices` list, or a request that threw. */
  datatype FetchResult = Devices(devices: seq<Device>) | FetchFailed

  /** Outcome of `POST /app/control/{did}`: accepted, or thrown with an error. */
  datatype WriteResult = WriteOk | WriteFailed(error: string)

  /** One round of an accessory's poll loop: its remote outcomes and its random draw (the round's time is computed by `StartPolling`). */
  datatype PollRound = PollRound(login: LoginResult, read: ReadResponse, jitter: real)

  /** The session after the polls at `times` with the rounds' login outcomes: each poll's read logs in first when due. */
  function SessionAfterRounds(s: Credentials, times: seq<int>, rounds: seq<PollRound>): (r: Credentials)
    requires |times| == |rounds|
    ensures (forall k :: 0 <= k < |rounds| ==> rounds[k].login.LoginFailed?) ==> r == s
    decreases |rounds|
  {
    if rounds == [] then s
    else
      var k := |rounds| - 1;
      CheckedLogin(SessionAfterRounds(s, times[..k], rounds[..k]), times[k], rounds[k].login)
  }

  /**
   * The times of the polls `startPolling` runs from `start`: the first at
   * `start`, each later one `NextPollDelay` of the previous round's draw after
   * the one before.
   */
  function PollTimes(start: int, rounds: seq<PollRound>): (times: seq<int>)
    requires forall k :: 0 <= k < |rounds| ==> 0.0 <= rounds[k].jitter < 1.0
    ensures |times| == |rounds|
    decreases |rounds|
  {
    if |rounds| <= 1 then seq(|rounds|, _ => start)
    else
      var prev := PollTimes(start, rounds[..|rounds| - 1]);
      prev + [prev[|prev| - 1] + NextPollDelay(rounds[|rounds| - 2].jitter)]
  }

  /** The first poll is at the start, and each gap is the previous round's delay, 65000 to 74999 ms. */
  lemma {:induction false} PollTimesGaps(start: int, rounds: seq<PollRound>)
    requires forall k :: 0 <= k < |rounds| ==> 0.0 <= rounds[k].jitter < 1.0
    ensures var times := PollTimes(start, rounds);
      (|times| > 0 ==> times[0] == start) &&
      (forall k :: 0 <= k < |times| - 1 ==> times[k + 1] - times[k] == NextPollDelay(rounds[k].jitter)) &&
      (forall k :: 0 <= k < |times| - 1 ==> 65000 <= times[k + 1] - times[k] <= 74999)
    decreases |rounds|
  {
    if |rounds| > 1 {
      var n := |rounds| - 1;
      PollTimesGaps(start, rounds[..n]);
      var prev := PollTimes(start, rounds[..n]);
      assert PollTimes(start, rounds) == prev + [prev[n - 1] + NextPollDelay(rounds[n - 1].jitter)];
      forall k | 0 <= k < n - 1
        ensures rounds[..n][k] == rounds[k]
      {
      }
    }
  }

  /** One more poll of the poll loop, on its times. */
  lemma PollTimesStep(start: int, rounds: seq<PollRound>, k: nat)
    requires forall i :: 0 <= i < |rounds| ==> 0.0 <= rounds[i].jitter < 1.0
    requires 0 < k < |rounds|
    ensures var prev := PollTimes(start, rounds[..k]);
      PollTimes(start, rounds[..k + 1]) == prev + [prev[k - 1] + NextPollDelay(rounds[k - 1].jitter)]
  {
    assert rounds[..k + 1][..k] == rounds[..k];
  }

  /** A second view pushed to one switch replaces the first. */
  lemma ViewOverwritten(views: map<string, bool>, uuid: string, first: bool, second: bool)
    ensures views[uuid := first][uuid := second] == views[uuid := second]
  {
  }

  /** One more poll of the poll loop, on the session. */
  lemma SessionAfterRoundsStep(s: Credentials, times: seq<int>, rounds: seq<PollRound>, now: int, k: nat)
    requires |times| == k < |rounds|
    ensures SessionAfterRounds(s, times + [now], rounds[..k + 1]) ==
      CheckedLogin(SessionAfterRounds(s, times, rounds[..k]), now, rounds[k].login)
  {
    assert (times + [now])[..k] == times && rounds[..k + 1][..k] == rounds[..k];
  }

  /**
   * With a login due at the first poll, logins that succeed and a clock that
   * does not run backwards, every poll logs in again: the session after the
   * rounds is the last login's token with its forced expiry.
   */
  lemma {:induction false} EveryPollLogsIn(s: Credentials, times: seq<int>, rounds: seq<PollRound>)
    requires |times| == |rounds| > 0
    requires NeedsAuthentication(s.token, s.expireAt, times[0])
    requires forall k :: 0 <= k < |rounds| ==> rounds[k].login.LoginOk?
    requires forall k :: 0 <= k < |times| - 1 ==> times[k] <= times[k + 1]
    ensures var n := |rounds| - 1;
      SessionAfterRounds(s, times, rounds) == Credentials(rounds[n].login.token, Some(ForcedExpiry(times[n])))
    decreases |rounds|
  {
    var n := |rounds| - 1;
    if n > 0 {
      EveryPollLogsIn(s, times[..n], rounds[..n]);
      var before := SessionAfterRounds(s, times[..n], rounds[..n]);
      assert before.expireAt == Some(ForcedExpiry(times[n - 1]));
      assert NeedsAuthentication(before.token, before.expireAt, times[n]);
    }
  }

  /** The argument `updateState` receives from `notifyModeChange` for the other modes. */
  const OffState: string := "off"

  // ---- The on/off reconcilers, on values -----------------------------------

  /**
   * UUIDs the reconciler loops reach for device `did`: accessories whose
   * context names the device and that have an instance.
   */
  function Siblings(accs: seq<Accessory>, insts: map<string, HeatzyAccessory>, did: string): (s: set<string>)
    ensures s <= insts.Keys
  {
    set i | 0 <= i < |accs| && accs[i].device.did == did && accs[i].uuid in insts :: accs[i].uuid
  }

  /** The views after `updateDeviceState` stored `activeMode`: each sibling shows whether it is that mode. */
  function Reconciled(views: map<string, bool>, sibs: set<string>, insts: map<string, HeatzyAccessory>, activeMode: string): map<string, bool>
    requires sibs <= insts.Keys
  {
    map u | u in views.Keys + sibs :: if u in sibs then activeMode == insts[u].mode else views[u]
  }

  /** Siblings `notifyModeChange` calls `updateState('off')` on: those of another mode. */
  function OtherModes(sibs: set<string>, insts: map<string, HeatzyAccessory>, activeMode: string): (s: set<string>)
    requires sibs <= insts.Keys
    ensures s <= sibs
  {
    set u | u in sibs && insts[u].mode != activeMode
  }

  /** The views after `notifyModeChange(activeMode)`: the other modes' siblings are told `'off'`. */
  function Silenced(views: map<string, bool>, sibs: set<string>, insts: map<string, HeatzyAccessory>, activeMode: string): map<string, bool>
    requires sibs <= insts.Keys
  {
    var others := OtherModes(sibs, insts, activeMode);
    map u | u in views.Keys + others :: if u in others then OffState == insts[u].mode else views[u]
  }

  /**
   * What `addAccessory` keeps true of the accessory list and the instance map:
   * an instance has its accessory's context, and is keyed by that context's UUID.
   */
  predicate Consistent(accs: seq<Accessory>, insts: map<string, HeatzyAccessory>) {
    (forall i :: 0 <= i < |accs| && accs[i].uuid in insts ==>
       insts[accs[i].uuid].device == accs[i].device && insts[accs[i].uuid].mode == accs[i].mode) &&
    (forall u :: u in insts ==> u == AccessoryUuid(insts[u].device.did, insts[u].mode))
  }

  /** Every instance stands for a heating mode (the selectable modes). */
  predicate HeatingInstances(insts: map<string, HeatzyAccessory>) {
    forall u :: u in insts ==> IsHeatingMode(insts[u].mode)
  }

  lemma SiblingOfDevice(accs: seq<Accessory>, insts: map<string, HeatzyAccessory>, did: string, u: string)
    requires Consistent(accs, insts) && u in Siblings(accs, insts, did)
    ensures insts[u].device.did == did && u == AccessoryUuid(did, insts[u].mode)
  {
    var i :| 0 <= i < |accs| && accs[i].device.did == did && accs[i].uuid in insts && accs[i].uuid == u;
  }

  /**
   * After an observation of `activeMode` has been stored, a switch of the
   * device is on exactly when it is the switch of `activeMode`: at most one is.
   */
  lemma ObservationLightsItsOwnSwitch(accs: seq<Accessory>, insts: map<string, HeatzyAccessory>, views: map<string, bool>, did: string, activeMode: string)
    requires Consistent(accs, insts)
    ensures var sibs := Siblings(accs, insts, did);
      forall u :: u in sibs ==> (Reconciled(views, sibs, insts, activeMode)[u] <==> u == AccessoryUuid(did, activeMode))
  {
    var sibs := Siblings(accs, insts, did);
    forall u | u in sibs
      ensures Reconciled(views, sibs, insts, activeMode)[u] <==> u == AccessoryUuid(did, activeMode)
    {
      SiblingOfDevice(accs, insts, did, u);
      UuidDeterminesMode(did, insts[u].mode, activeMode);
    }
  }

  /** A stored `'Off'` or `'Unknown'` turns every heating-mode switch of the device off. */
  lemma NonHeatingObservationTurnsAllOff(accs: seq<Accessory>, insts: map<string, HeatzyAccessory>, views: map<string, bool>, did: string, activeMode: string)
    requires HeatingInstances(insts) && !IsHeatingMode(activeMode)
    ensures var sibs := Siblings(accs, insts, did);
      forall u :: u in sibs ==> !Reconciled(views, sibs, insts, activeMode)[u]
  {
  }

  /**
   * After `notifyModeChange(did, activeMode)`, a heating-mode switch of the
   * device that is on is the switch of `activeMode`, whatever the views were;
   * views of other devices and of that switch are left as they were.
   */
  lemma NotifyLeavesAtMostOneOn(accs: seq<Accessory>, insts: map<string, HeatzyAccessory>, views: map<string, bool>, did: string, activeMode: string)
    requires Consistent(accs, insts) && HeatingInstances(insts)
    ensures var sibs := Siblings(accs, insts, did);
      var r := Silenced(views, sibs, insts, activeMode);
      (forall u :: u in sibs && u in r && r[u] ==> u == AccessoryUuid(did, activeMode)) &&
      (forall u :: u in views && (u !in sibs || insts[u].mode == activeMode) ==> u in r && r[u] == views[u])
  {
    var sibs := Siblings(accs, insts, did);
    var r := Silenced(views, sibs, insts, activeMode);
    forall u | u in sibs && u in r && r[u]
      ensures u == AccessoryUuid(did, activeMode)
    {
      SiblingOfDevice(accs, insts, did, u);
      assert insts[u].mode == activeMode;
    }
  }

  lemma ReconciledStep(views: map<string, bool>, sibs: set<string>, insts: map<string, HeatzyAccessory>, activeMode: string, u: string)
    requires sibs <= insts.Keys && u in insts
    ensures Reconciled(views, sibs + {u}, insts, activeMode) ==
      Reconciled(views, sibs, insts, activeMode)[u := activeMode == insts[u].mode]
  {
  }

  lemma SilencedStep(views: map<string, bool>, sibs: set<string>, insts: map<string, HeatzyAccessory>, activeMode: string, u: string)
    requires sibs <= insts.Keys && u in insts
    ensures insts[u].mode != activeMode ==>
      Silenced(views, sibs + {u}, insts, activeMode) == Silenced(views, sibs, insts, activeMode)[u := OffState == insts[u].mode]
    ensures insts[u].mode == activeMode ==>
      Silenced(views, sibs + {u}, insts, activeMode) == Silenced(views, sibs, insts, activeMode)
  {
    assert OtherModes(sibs + {u}, insts, activeMode) ==
      OtherModes(sibs, insts, activeMode) + (if insts[u].mode != activeMode then {u} else {});
  }

  lemma SiblingsStep(accs: seq<Accessory>, insts: map<string, HeatzyAccessory>, did: string, i: nat)
    requires i < |accs|
    ensures Siblings(accs[..i + 1], insts, did) ==
      Siblings(accs[..i], insts, did) + (if accs[i].device.did == did && accs[i].uuid in insts then {accs[i].uuid} else {})
  {
    var a, b := accs[..i + 1], accs[..i];
    forall u | u in Siblings(a, insts, did)
      ensures u in Siblings(b, insts, did) || (u == accs[i].uuid && accs[i].device.did == did && accs[i].uuid in insts)
    {
      var j :| 0 <= j < |a| && a[j].device.did == did && a[j].uuid in insts && a[j].uuid == u;
      if j < i { assert b[j] == a[j]; }
    }
    forall u | u in Siblings(b, insts, did) ensures u in Siblings(a, insts, did) {
      var j :| 0 <= j < |b| && b[j].device.did == did && b[j].uuid in insts && b[j].uuid == u;
      assert a[j] == b[j];
    }
    if accs[i].device.did == did && accs[i].uuid in insts {
      assert a[i] == accs[i];
    }
  }

  /** One iteration of the `notifyModeChange` loop, on values. */
  lemma SilencedPrefixStep(accs: seq<Accessory>, insts: map<string, HeatzyAccessory>, views: map<string, bool>, did: string, activeMode: string, i: nat)
    requires i < |accs|
    ensures var before := Silenced(views, Siblings(accs[..i], insts, did), insts, activeMode);
      var after := Silenced(views, Siblings(accs[..i + 1], insts, did), insts, activeMode);
      after == if accs[i].device.did == did && accs[i].uuid in insts && insts[accs[i].uuid].mode != activeMode
               then before[accs[i].uuid := OffState == insts[accs[i].uuid].mode]
               else before
  {
    SiblingsStep(accs, insts, did, i);
    if accs[i].device.did == did && accs[i].uuid in insts {
      SilencedStep(views, Siblings(accs[..i], insts, did), insts, activeMode, accs[i].uuid);
    }
  }

  /** Before the `notifyModeChange` loop has looked at any accessory, nothing is silenced. */
  lemma SilencedNothing(accs: seq<Accessory>, insts: map<string, HeatzyAccessory>, views: map<string, bool>, did: string, activeMode: string)
    ensures Silenced(views, Siblings(accs[..0], insts, did), insts, activeMode) == views
  {
    assert Siblings(accs[..0], insts, did) == {};
    assert OtherModes({}, insts, activeMode) == {};
  }

  /** One iteration of the `updateDeviceState` loop, on values. */
  lemma ReconciledPrefixStep(accs: seq<Accessory>, insts: map<string, HeatzyAccessory>, views: map<string, bool>, did: string, activeMode: string, i: nat)
    requires i < |accs|
    ensures var before := Reconciled(views, Siblings(accs[..i], insts, did), insts, activeMode);
      var after := Reconciled(views, Siblings(accs[..i + 1], insts, did), insts, activeMode);
      after == if accs[i].device.did == did && accs[i].uuid in insts
               then before[accs[i].uuid := activeMode == insts[accs[i].uuid].mode]
               else before
  {
    SiblingsStep(accs, insts, did, i);
    if accs[i].device.did == did && accs[i].uuid in insts {
      ReconciledStep(views, Siblings(accs[..i], insts, did), insts, activeMode, accs[i].uuid);
    }
  }

  /** What the accessory list and instance map keep true: unique UUIDs, each the UUID of its context. */
  predicate Registered(accs: seq<Accessory>, insts: map<string, HeatzyAccessory>) {
    Distinct(Uuids(accs)) &&
    (forall i :: 0 <= i < |accs| ==> accs[i].uuid == AccessoryUuid(accs[i].device.did, accs[i].mode)) &&
    Consistent(accs, insts)
  }

  /** Giving an accessory with the UUID the new context keeps the list and the map registered. */
  lemma UpdateKeepsRegistered(accs: seq<Accessory>, insts: map<string, HeatzyAccessory>, i: nat, device: Device, mode: string, inst: HeatzyAccessory)
    requires Registered(accs, insts) && inst.device == device && inst.mode == mode
    requires i < |accs| && accs[i].uuid == AccessoryUuid(device.did, mode)
    ensures Registered(accs[i := accs[i].(device := device, mode := mode)], insts[accs[i].uuid := inst])
  {
    var r := accs[i := accs[i].(device := device, mode := mode)];
    assert Uuids(r) == Uuids(accs);
    forall j | 0 <= j < |r| && r[j].uuid in insts[accs[i].uuid := inst]
      ensures insts[accs[i].uuid := inst][r[j].uuid].device == r[j].device
      ensures insts[accs[i].uuid := inst][r[j].uuid].mode == r[j].mode
    {
      assert Uuids(accs)[j] == accs[j].uuid;
    }
  }

  /** Pushing an accessory with a new UUID keeps the list and the map registered. */
  lemma PushKeepsRegistered(accs: seq<Accessory>, insts: map<string, HeatzyAccessory>, device: Device, mode: string, inst: HeatzyAccessory)
    requires Registered(accs, insts) && inst.device == device && inst.mode == mode
    requires AccessoryUuid(device.did, mode) !in Uuids(accs)
    ensures var uuid := AccessoryUuid(device.did, mode);
      Registered(accs + [Accessory(uuid, device.alias + " " + mode, device, mode)], insts[uuid := inst])
  {
    var uuid := AccessoryUuid(device.did, mode);
    var r := accs + [Accessory(uuid, device.alias + " " + mode, device, mode)];
    assert Uuids(r) == Uuids(accs) + [uuid];
    forall j | 0 <= j < |accs|
      ensures r[j] == accs[j] && r[j].uuid != uuid
    {
      assert Uuids(accs)[j] == accs[j].uuid;
    }
  }

  /** `addAccessory` keeps the list and the map registered. */
  lemma AddKeepsRegistered(accs: seq<Accessory>, insts: map<string, HeatzyAccessory>, device: Device, mode: string, inst: HeatzyAccessory)
    requires Registered(accs, insts) && inst.device == device && inst.mode == mode
    ensures Registered(Add(accs, device, mode), insts[AccessoryUuid(device.did, mode) := inst])
  {
    var uuid := AccessoryUuid(device.did, mode);
    match Find(accs, uuid)
    case Some(i) =>
      assert Add(accs, device, mode) == accs[i := accs[i].(device := device, mode := mode)];
      UpdateKeepsRegistered(accs, insts, i, device, mode, inst);
    case None =>
      assert Add(accs, device, mode) == accs + [Accessory(uuid, device.alias + " " + mode, device, mode)];
      PushKeepsRegistered(accs, insts, device, mode, inst);
  }

  /**
   * The instance map `after` holds an instance under exactly the UUIDs of
   * `before` and `added`, and every instance of `before` outside `added` is kept.
   */
  predicate InstancesAdded(before: map<string, HeatzyAccessory>, after: map<string, HeatzyAccessory>, added: set<string>) {
    after.Keys == before.Keys + added &&
    forall u :: u in before && u !in added ==> after[u] == before[u]
  }

  /** Two rounds of `addAccessory` add the union of what each added. */
  lemma InstancesAddedChain(a: map<string, HeatzyAccessory>, b: map<string, HeatzyAccessory>, c: map<string, HeatzyAccessory>,
                            s: set<string>, t: set<string>)
    requires InstancesAdded(a, b, s) && InstancesAdded(b, c, t)
    ensures InstancesAdded(a, c, s + t)
  {
  }

  // ---- The platform ---------------------------------------------------------

  class Heatzy {
    var accessories: seq<Accessory>
    var deviceStateCache: map<string, CacheEntry>
    var accessoryInstances: map<string, HeatzyAccessory>
    var token: Option<string>
    var tokenExpireAt: Option<int>
    /** The On characteristic of each platform accessory's Switch service, by UUID (host state). */
    var views: map<string, bool>

    ghost predicate Valid()
      reads this`accessories, this`accessoryInstances
    {
      Registered(accessories, accessoryInstances) &&
      (forall u :: u in accessoryInstances ==>
         accessoryInstances[u].platform == this && accessoryInstances[u].uuid == u)
    }

    /** The platform before launch, holding the accessories the host restored from its cache. */
    constructor(restored: seq<Accessory>)
      requires Distinct(Uuids(restored))
      requires forall i :: 0 <= i < |restored| ==> restored[i].uuid == AccessoryUuid(restored[i].device.did, restored[i].mode)
      ensures Valid()
      ensures accessories == restored && accessoryInstances == map[] && deviceStateCache == map[] && views == map[]
      ensures token == None && tokenExpireAt == None
    {
      accessories := restored;
      deviceStateCache := map[];
      accessoryInstances := map[];
      token := None;
      tokenExpireAt := None;
      views := map[];
    }

    /** `needsAuthentication()` at time `now`. */
    predicate NeedsLogin(now: int)
      reads this`token, this`tokenExpireAt
    {
      NeedsAuthentication(token, tokenExpireAt, now)
    }

    /** `getDeviceState(did)`: the cached mode or null; a pure read. */
    function GetDeviceState(did: string): (r: Option<string>)
      reads this`deviceStateCache
      ensures r.Some? <==> did in deviceStateCache
      ensures r.Some? ==> r.value == deviceStateCache[did].state
    {
      Lookup(deviceStateCache, did)
    }

    /**
     * The session update of `authenticate()`: store the token and force an
     * expiry 10 s in the past; a failed login changes nothing.
     */
    method Authenticate(now: int, login: LoginResult)
      requires Valid()
      modifies this`token, this`tokenExpireAt
      ensures Valid()
      ensures login.LoginOk? ==> token == login.token && tokenExpireAt == Some(ForcedExpiry(now))
      ensures login.LoginOk? ==> NeedsLogin(now)
      ensures login.LoginFailed? ==> token == old(token) && tokenExpireAt == old(tokenExpireAt)
    {
      match login
      case LoginOk(t) =>
        token := t;
        tokenExpireAt := Some(now - ForcedExpiryOffset);
      case LoginFailed =>
    }

    /** `addAccessory(device, mode)`: restore the accessory with that UUID, or create and push one. */
    method AddAccessory(device: Device, mode: string)
      requires Valid()
      modifies this`accessories, this`accessoryInstances
      ensures Valid()
      ensures accessories == Add(old(accessories), device, mode)
      ensures var uuid := AccessoryUuid(device.did, mode);
        InstancesAdded(old(accessoryInstances), accessoryInstances, {uuid}) &&
        fresh(accessoryInstances[uuid]) &&
        accessoryInstances[uuid].device == device && accessoryInstances[uuid].mode == mode
    {
      var uuid := AccessoryUuid(device.did, mode);
      var existing := Find(accessories, uuid);
      var instance := new HeatzyAccessory(this, uuid, device, mode);
      AddKeepsRegistered(accessories, accessoryInstances, device, mode, instance);
      match existing
      case Some(i) =>
        accessories := accessories[i := accessories[i].(device := device, mode := mode)];
        accessoryInstances := accessoryInstances[uuid := instance];
      case None =>
        accessoryInstances := accessoryInstances[uuid := instance];
        accessories := accessories + [Accessory(uuid, device.alias + " " + mode, device, mode)];
    }

    /**
     * `fetchDevices()`: log in when due, give up without a token, then
     * unregister the accessories of vanished devices or deselected modes (they
     * stay in the list) and add every fetched (device, mode) pair.
     */
    method FetchDevices(now: int, login: LoginResult, fetched: FetchResult, selectedModes: seq<string>)
      returns (unregistered: seq<Accessory>)
      requires Valid()
      modifies this`token, this`tokenExpireAt, this`accessories, this`accessoryInstances
      ensures Valid()
      ensures old(NeedsLogin(now)) && login.LoginOk? ==> token == login.token && tokenExpireAt == Some(ForcedExpiry(now))
      ensures !old(NeedsLogin(now)) || login.LoginFailed? ==> token == old(token) && tokenExpireAt == old(tokenExpireAt)
      ensures token.None? || token == Some("") || fetched.FetchFailed? ==>
        unregistered == [] && accessories == old(accessories) && accessoryInstances == old(accessoryInstances)
      ensures token.Some? && token != Some("") && fetched.Devices? ==>
        unregistered == Unused(old(accessories), fetched.devices, selectedModes) &&
        accessories == AddDevices(old(accessories), fetched.devices, selectedModes) &&
        InstancesAdded(old(accessoryInstances), accessoryInstances, DeviceUuids(fetched.devices, selectedModes)) &&
        (forall u :: u in DeviceUuids(fetched.devices, selectedModes) ==> fresh(accessoryInstances[u])) &&
        forall d, m :: d in fetched.devices && m in selectedModes ==> AccessoryUuid(d.did, m) in accessoryInstances
    {
      if NeedsLogin(now) {
        Authenticate(now, login);
      }
      unregistered := [];
      if token.None? || token.value == "" {
        return;
      }
      match fetched
      case FetchFailed =>
        return;
      case Devices(devices) =>
        unregistered := UnusedAccessories(devices, selectedModes);
        AddFetchedDevices(devices, selectedModes);
    }

    /** The first loop of `fetchDevices`: the accessories it unregisters, in list order. */
    method UnusedAccessories(devices: seq<Device>, selectedModes: seq<string>) returns (unregistered: seq<Accessory>)
      ensures unregistered == Unused(accessories, devices, selectedModes)
    {
      unregistered := [];
      var i := 0;
      while i < |accessories|
        invariant 0 <= i <= |accessories|
        invariant unregistered == Unused(accessories[..i], devices, selectedModes)
      {
        assert accessories[..i + 1][..i] == accessories[..i];
        if IsUnused(accessories[i], devices, selectedModes) {
          unregistered := unregistered + [accessories[i]];
        }
        i := i + 1;
      }
      assert accessories[..i] == accessories;
    }

    /** The second loop of `fetchDevices`: `addAccessory` for every fetched device and selected mode. */
    method AddFetchedDevices(devices: seq<Device>, selectedModes: seq<string>)
      requires Valid()
      modifies this`accessories, this`accessoryInstances
      ensures Valid()
      ensures accessories == AddDevices(old(accessories), devices, selectedModes)
      ensures InstancesAdded(old(accessoryInstances), accessoryInstances, DeviceUuids(devices, selectedModes))
      ensures forall u :: u in DeviceUuids(devices, selectedModes) ==> fresh(accessoryInstances[u])
      ensures forall d, m :: d in devices && m in selectedModes ==> AccessoryUuid(d.did, m) in accessoryInstances
    {
      var j := 0;
      while j < |devices|
        invariant 0 <= j <= |devices|
        invariant Valid()
        invariant accessories == AddDevices(old(accessories), devices[..j], selectedModes)
        invariant InstancesAdded(old(accessoryInstances), accessoryInstances, DeviceUuids(devices[..j], selectedModes))
        invariant forall u :: u in DeviceUuids(devices[..j], selectedModes) ==> fresh(accessoryInstances[u])
      {
        AddDevicesStep(old(accessories), devices, selectedModes, j);
        DeviceUuidsStep(devices, selectedModes, j);
        ghost var before := accessoryInstances;
        AddSelectedModes(devices[j], selectedModes);
        InstancesAddedChain(old(accessoryInstances), before, accessoryInstances,
                            DeviceUuids(devices[..j], selectedModes), ModeUuids(devices[j].did, selectedModes));
        forall u | u in ModeUuids(devices[j].did, selectedModes)
          ensures fresh(accessoryInstances[u])
        {
          ModeUuidsOnly(devices[j].did, selectedModes, u);
        }
        j := j + 1;
      }
      assert devices[..j] == devices;
    }

    /** `selectedModes.forEach(mode => this.addAccessory(device, mode))`. */
    method AddSelectedModes(device: Device, selectedModes: seq<string>)
      requires Valid()
      modifies this`accessories, this`accessoryInstances
      ensures Valid()
      ensures accessories == AddModes(old(accessories), device, selectedModes)
      ensures InstancesAdded(old(accessoryInstances), accessoryInstances, ModeUuids(device.did, selectedModes))
      ensures forall m :: m in selectedModes ==>
        var instance := accessoryInstances[AccessoryUuid(device.did, m)];
        fresh(instance) && instance.device == device && instance.mode == m
    {
      var k := 0;
      while k < |selectedModes|
        invariant 0 <= k <= |selectedModes|
        invariant Valid()
        invariant accessories == AddModes(old(accessories), device, selectedModes[..k])
        invariant InstancesAdded(old(accessoryInstances), accessoryInstances, ModeUuids(device.did, selectedModes[..k]))
        invariant forall m :: m in selectedModes[..k] ==>
          var instance := accessoryInstances[AccessoryUuid(device.did, m)];
          fresh(instance) && instance.device == device && instance.mode == m
      {
        AddModesStep(old(accessories), device, selectedModes, k);
        ModeUuidsStep(device.did, selectedModes, k);
        ghost var before := accessoryInstances;
        AddAccessory(device, selectedModes[k]);
        InstancesAddedChain(old(accessoryInstances), before, accessoryInstances,
                            ModeUuids(device.did, selectedModes[..k]), {AccessoryUuid(device.did, selectedModes[k])});
        forall m | m in selectedModes[..k + 1]
          ensures var instance := accessoryInstances[AccessoryUuid(device.did, m)];
            fresh(instance) && instance.device == device && instance.mode == m
        {
          UuidDeterminesMode(device.did, m, selectedModes[k]);
          if m != selectedModes[k] {
            assert m in selectedModes[..k];
          }
        }
        k := k + 1;
      }
      assert selectedModes[..k] == selectedModes;
    }

    /**
     * `updateDeviceState(did, activeMode, forceUpdate)`: when there is no
     * entry, the update is forced or the entry is stale, store the mode and
     * have every instance of the device show whether it is that mode.
     */
    method UpdateDeviceState(did: string, activeMode: string, force: bool, now: int)
      requires Valid()
      modifies this`deviceStateCache, this`views
      ensures Valid()
      ensures ShouldWrite(old(deviceStateCache), did, force, now) ==>
        deviceStateCache == old(deviceStateCache)[did := CacheEntry(activeMode, now)] &&
        views == Reconciled(old(views), Siblings(accessories, accessoryInstances, did), accessoryInstances, activeMode)
      ensures !ShouldWrite(old(deviceStateCache), did, force, now) ==>
        deviceStateCache == old(deviceStateCache) && views == old(views)
    {
      if ShouldWrite(deviceStateCache, did, force, now) {
        deviceStateCache := deviceStateCache[did := CacheEntry(activeMode, now)];
        var accs, insts := accessories, accessoryInstances;
        ghost var views0 := views;
        var i := 0;
        while i < |accs|
          invariant 0 <= i <= |accs|
          invariant accessories == accs && accessoryInstances == insts
          invariant deviceStateCache == old(deviceStateCache)[did := CacheEntry(activeMode, now)]
          invariant views == Reconciled(views0, Siblings(accs[..i], insts, did), insts, activeMode)
        {
          ReconciledPrefixStep(accs, insts, views0, did, activeMode, i);
          ReconcileSibling(accs[i], did, activeMode);
          i := i + 1;
        }
        assert accs[..i] == accs;
      }
    }

    /** One accessory of the `updateDeviceState` loop: an instance of device `did` is told `activeMode`. */
    method ReconcileSibling(accessory: Accessory, did: string, activeMode: string)
      requires Valid()
      modifies this`views
      ensures views ==
        if accessory.device.did == did && accessory.uuid in accessoryInstances
        then old(views)[accessory.uuid := activeMode == accessoryInstances[accessory.uuid].mode]
        else old(views)
    {
      if accessory.device.did == did && accessory.uuid in accessoryInstances {
        var instance := accessoryInstances[accessory.uuid];
        assert instance.platform == this && instance.uuid == accessory.uuid;
        instance.UpdateState(activeMode);
      }
    }

    /** One accessory of the `notifyModeChange` loop: an instance of device `did` with another mode is told `'off'`. */
    method SilenceSibling(accessory: Accessory, did: string, activeMode: string)
      requires Valid()
      modifies this`views
      ensures views ==
        if accessory.device.did == did && accessory.uuid in accessoryInstances &&
           accessoryInstances[accessory.uuid].mode != activeMode
        then old(views)[accessory.uuid := OffState == accessoryInstances[accessory.uuid].mode]
        else old(views)
    {
      if accessory.device.did == did && accessory.uuid in accessoryInstances {
        var instance := accessoryInstances[accessory.uuid];
        if instance.mode != activeMode {
          assert instance.platform == this && instance.uuid == accessory.uuid;
          instance.UpdateState(OffState);
        }
      }
    }

    /**
     * `notifyModeChange(did, activeMode)`: store the mode unconditionally and
     * tell every instance of the device with another mode `'off'`.
     */
    method NotifyModeChange(did: string, activeMode: string, now: int)
      requires Valid()
      modifies this`deviceStateCache, this`views
      ensures Valid()
      ensures deviceStateCache == old(deviceStateCache)[did := CacheEntry(activeMode, now)]
      ensures views == Silenced(old(views), Siblings(accessories, accessoryInstances, did), accessoryInstances, activeMode)
    {
      deviceStateCache := deviceStateCache[did := CacheEntry(activeMode, now)];
      var accs, insts := accessories, accessoryInstances;
      ghost var views0 := views;
      var i := 0;
      SilencedNothing(accs, insts, views0, did, activeMode);
      while i < |accs|
        invariant 0 <= i <= |accs|
        invariant accessories == accs && accessoryInstances == insts
        invariant deviceStateCache == old(deviceStateCache)[did := CacheEntry(activeMode, now)]
        invariant views == Silenced(views0, Siblings(accs[..i], insts, did), insts, activeMode)
      {
        SilencedPrefixStep(accs, insts, views0, did, activeMode, i);
        SilenceSibling(accs[i], did, activeMode);
        i := i + 1;
      }
      assert accs[..i] == accs;
    }
  }

  // ---- The accessory --------------------------------------------------------

  /**
   * `HeatzyAccessory`: one switch for one mode of one device.  Its fields are
   * fixed at construction; what it changes is its platform's session, cache and
   * views.
   */
  class HeatzyAccessory {
    const platform: Heatzy
    /** The UUID of the platform accessory whose Switch service this instance drives. */
    const uuid: string
    const device: Device
    const mode: string

    constructor(platform: Heatzy, uuid: string, device: Device, mode: string)
      ensures this.platform == platform && this.uuid == uuid && this.device == device && this.mode == mode
    {
      this.platform := platform;
      this.uuid := uuid;
      this.device := device;
      this.mode := mode;
    }

    /** `updateState(activeMode)`: the switch shows whether `activeMode` is its own mode. */
    method UpdateState(activeMode: string)
      modifies platform`views
      ensures platform.views == old(platform.views)[uuid := activeMode == mode]
    {
      platform.views := platform.views[uuid := activeMode == mode];
    }

    /** The login every handler performs first when `needsAuthentication()` holds. */
    method EnsureSession(now: int, login: LoginResult)
      requires platform.Valid()
      modifies platform`token, platform`tokenExpireAt
      ensures platform.Valid()
      ensures old(platform.NeedsLogin(now)) && login.LoginOk? ==>
        platform.token == login.token && platform.tokenExpireAt == Some(ForcedExpiry(now))
      ensures !old(platform.NeedsLogin(now)) || login.LoginFailed? ==>
        platform.token == old(platform.token) && platform.tokenExpireAt == old(platform.tokenExpireAt)
    {
      if platform.NeedsLogin(now) {
        platform.Authenticate(now, login);
      }
    }

    /**
     * `setOnCharacteristicHandler(value, callback)`: send the mode's write code
     * (or the off code); on success after an on-request, store the mode and
     * notify the siblings; report the error of a failed write to the callback.
     */
    method SetOnCharacteristicHandler(value: bool, now: int, login: LoginResult, write: WriteResult)
      returns (sent: Option<int>, callbackError: Option<string>)
      requires platform.Valid()
      modifies platform`token, platform`tokenExpireAt, platform`deviceStateCache, platform`views
      ensures platform.Valid()
      ensures sent == WriteCode(value, mode)
      ensures callbackError == (if write.WriteFailed? then Some(write.error) else None)
      ensures old(platform.NeedsLogin(now)) && login.LoginOk? ==>
        platform.token == login.token && platform.tokenExpireAt == Some(ForcedExpiry(now))
      ensures !old(platform.NeedsLogin(now)) || login.LoginFailed? ==>
        platform.token == old(platform.token) && platform.tokenExpireAt == old(platform.tokenExpireAt)
      ensures write.WriteFailed? || !value ==>
        platform.deviceStateCache == old(platform.deviceStateCache) && platform.views == old(platform.views)
      ensures write.WriteOk? && value ==>
        platform.deviceStateCache == old(platform.deviceStateCache)[device.did := CacheEntry(mode, now)] &&
        var sibs := Siblings(platform.accessories, platform.accessoryInstances, device.did);
        var stored := if ShouldWrite(old(platform.deviceStateCache), device.did, false, now)
                      then Reconciled(old(platform.views), sibs, platform.accessoryInstances, mode)
                      else old(platform.views);
        platform.views == Silenced(stored, sibs, platform.accessoryInstances, mode)
    {
      EnsureSession(now, login);
      sent := WriteCode(value, mode);
      match write
      case WriteOk =>
        if value {
          platform.UpdateDeviceState(device.did, mode, false, now);
          platform.NotifyModeChange(device.did, mode, now);
        }
        callbackError := None;
      case WriteFailed(e) =>
        callbackError := Some(e);
    }

    /**
     * A successful on-write, with every instance standing for a heating mode:
     * the cache holds this mode, and a switch of the device that is on is
     * this mode's switch.
     */
    method OnWriteLeavesAtMostOneOn(now: int, login: LoginResult) returns (sent: Option<int>)
      requires platform.Valid() && HeatingInstances(platform.accessoryInstances)
      modifies platform`token, platform`tokenExpireAt, platform`deviceStateCache, platform`views
      ensures platform.Valid()
      ensures sent == WriteCode(true, mode)
      ensures device.did in platform.deviceStateCache && platform.deviceStateCache[device.did] == CacheEntry(mode, now)
      ensures var sibs := Siblings(platform.accessories, platform.accessoryInstances, device.did);
        forall u :: u in sibs && u in platform.views && platform.views[u] ==> u == AccessoryUuid(device.did, mode)
    {
      ghost var cache0, views0 := platform.deviceStateCache, platform.views;
      var callbackError;
      sent, callbackError := SetOnCharacteristicHandler(true, now, login, WriteOk);
      ghost var sibs := Siblings(platform.accessories, platform.accessoryInstances, device.did);
      ghost var stored := if ShouldWrite(cache0, device.did, false, now)
                          then Reconciled(views0, sibs, platform.accessoryInstances, mode)
                          else views0;
      NotifyLeavesAtMostOneOn(platform.accessories, platform.accessoryInstances, stored, device.did, mode);
    }

    /** `getOnCharacteristicHandler(callback)`: on exactly when the device's cached mode is this mode. */
    method GetOnCharacteristicHandler(now: int, login: LoginResult) returns (isOn: bool)
      requires platform.Valid()
      modifies platform`token, platform`tokenExpireAt
      ensures platform.Valid()
      ensures old(platform.NeedsLogin(now)) && login.LoginOk? ==>
        platform.token == login.token && platform.tokenExpireAt == Some(ForcedExpiry(now))
      ensures !old(platform.NeedsLogin(now)) || login.LoginFailed? ==>
        platform.token == old(platform.token) && platform.tokenExpireAt == old(platform.tokenExpireAt)
      ensures platform.deviceStateCache == old(platform.deviceStateCache)
      ensures isOn <==> device.did in platform.deviceStateCache && platform.deviceStateCache[device.did].state == mode
    {
      EnsureSession(now, login);
      var currentState := platform.GetDeviceState(device.did);
      isOn := currentState == Some(mode);
    }

    /**
     * `fetchInitialState()`: read the device; on an accepted response show
     * whether it is this mode and force the decoded mode into the cache.
     */
    method FetchInitialState(now: int, login: LoginResult, read: ReadResponse)
      requires platform.Valid()
      modifies platform`token, platform`tokenExpireAt, platform`deviceStateCache, platform`views
      ensures platform.Valid()
      ensures old(platform.NeedsLogin(now)) && login.LoginOk? ==>
        platform.token == login.token && platform.tokenExpireAt == Some(ForcedExpiry(now))
      ensures !old(platform.NeedsLogin(now)) || login.LoginFailed? ==>
        platform.token == old(platform.token) && platform.tokenExpireAt == old(platform.tokenExpireAt)
      ensures ObservedMode(read).None? ==>
        platform.deviceStateCache == old(platform.deviceStateCache) && platform.views == old(platform.views)
      ensures ObservedMode(read).Some? ==>
        var current := ObservedMode(read).value;
        platform.deviceStateCache == old(platform.deviceStateCache)[device.did := CacheEntry(current, now)] &&
        platform.views == Reconciled(old(platform.views)[uuid := current == mode],
                                     Siblings(platform.accessories, platform.accessoryInstances, device.did),
                                     platform.accessoryInstances, current)
    {
      EnsureSession(now, login);
      var observed := ObservedMode(read);
      match observed
      case Some(currentMode) =>
        var isOn := currentMode == mode;
        platform.views := platform.views[uuid := isOn];
        platform.UpdateDeviceState(device.did, currentMode, true, now);
      case None =>
    }

    /** The accessory's `getDeviceState()`: the read's answer for this mode; never raises, never caches. */
    method GetDeviceState(now: int, login: LoginResult, read: ReadResponse) returns (isOn: bool)
      requires platform.Valid()
      modifies platform`token, platform`tokenExpireAt
      ensures platform.Valid()
      ensures old(platform.NeedsLogin(now)) && login.LoginOk? ==>
        platform.token == login.token && platform.tokenExpireAt == Some(ForcedExpiry(now))
      ensures !old(platform.NeedsLogin(now)) || login.LoginFailed? ==>
        platform.token == old(platform.token) && platform.tokenExpireAt == old(platform.tokenExpireAt)
      ensures isOn == ReportsOn(read, mode)
    {
      EnsureSession(now, login);
      isOn := ReportsOn(read, mode);
    }

    /** One run of `poll`: show the read's answer on this switch only, and return the delay to the next run. */
    method Poll(now: int, round: PollRound) returns (isOn: bool, delay: int)
      requires platform.Valid()
      requires 0.0 <= round.jitter < 1.0
      modifies platform`token, platform`tokenExpireAt, platform`views
      ensures platform.Valid()
      ensures Credentials(platform.token, platform.tokenExpireAt) ==
        CheckedLogin(Credentials(old(platform.token), old(platform.tokenExpireAt)), now, round.login)
      ensures isOn == ReportsOn(round.read, mode)
      ensures platform.views == old(platform.views)[uuid := isOn]
      ensures delay == NextPollDelay(round.jitter)
    {
      isOn := GetDeviceState(now, round.login, round.read);
      platform.views := platform.views[uuid := isOn];
      delay := BasePollingInterval + RandomInterval(round.jitter);
    }

    /** The loop's state after `k` rounds of `startPolling()`, started at `start` from `session0` and `views0`. */
    ghost predicate PolledRounds(start: int, rounds: seq<PollRound>, k: nat, times: seq<int>, now: int,
                                 session0: Credentials, views0: map<string, bool>)
      requires k <= |rounds|
      requires forall i :: 0 <= i < |rounds| ==> 0.0 <= rounds[i].jitter < 1.0
      reads this, platform
    {
      && times == PollTimes(start, rounds[..k])
      && now == (if k == 0 then start else times[k - 1] + NextPollDelay(rounds[k - 1].jitter))
      && Credentials(platform.token, platform.tokenExpireAt) == SessionAfterRounds(session0, times, rounds[..k])
      && platform.views == if k == 0 then views0 else views0[uuid := ReportsOn(rounds[k - 1].read, mode)]
    }

    /** Round `k` of `startPolling()`: poll at `now` and schedule the next round. */
    method PollNext(start: int, rounds: seq<PollRound>, k: nat, times: seq<int>, now: int,
                    ghost session0: Credentials, ghost views0: map<string, bool>)
      returns (times': seq<int>, now': int)
      requires k < |rounds|
      requires forall i :: 0 <= i < |rounds| ==> 0.0 <= rounds[i].jitter < 1.0
      requires platform.Valid()
      requires PolledRounds(start, rounds, k, times, now, session0, views0)
      modifies platform`token, platform`tokenExpireAt, platform`views
      ensures platform.Valid()
      ensures PolledRounds(start, rounds, k + 1, times', now', session0, views0)
    {
      SessionAfterRoundsStep(session0, times, rounds, now, k);
      if k > 0 {
        PollTimesStep(start, rounds, k);
        ViewOverwritten(views0, uuid, ReportsOn(rounds[k - 1].read, mode), ReportsOn(rounds[k].read, mode));
      }
      var isOn, delay := Poll(now, rounds[k]);
      times' := times + [now];
      now' := now + delay;
    }

    /**
     * The rounds of `startPolling()` one after the other: the state after the
     * last one, and `next`, the time the following round is scheduled for.
     */
    method PollEveryRound(start: int, rounds: seq<PollRound>) returns (times: seq<int>, next: int)
      requires platform.Valid()
      requires forall k :: 0 <= k < |rounds| ==> 0.0 <= rounds[k].jitter < 1.0
      modifies platform`token, platform`tokenExpireAt, platform`views
      ensures platform.Valid()
      ensures PolledRounds(start, rounds, |rounds|, times, next,
                           Credentials(old(platform.token), old(platform.tokenExpireAt)), old(platform.views))
    {
      ghost var session0 := Credentials(platform.token, platform.tokenExpireAt);
      ghost var views0 := platform.views;
      times, next := [], start;
      var k := 0;
      while k < |rounds|
        invariant 0 <= k <= |rounds|
        invariant platform.Valid()
        invariant PolledRounds(start, rounds, k, times, next, session0, views0)
      {
        times, next := PollNext(start, rounds, k, times, next, session0, views0);
        k := k + 1;
      }
    }

    /**
     * `startPolling()` over a finite prefix of the loop: poll immediately at
     * `start`, then each round after the scheduled delay.  Returns the times
     * of the polls.
     */
    method StartPolling(start: int, rounds: seq<PollRound>) returns (times: seq<int>)
      requires platform.Valid()
      requires forall k :: 0 <= k < |rounds| ==> 0.0 <= rounds[k].jitter < 1.0
      modifies platform`token, platform`tokenExpireAt, platform`views
      ensures platform.Valid()
      ensures times == PollTimes(start, rounds)
      ensures Credentials(platform.token, platform.tokenExpireAt) ==
        SessionAfterRounds(Credentials(old(platform.token), old(platform.tokenExpireAt)), times, rounds)
      ensures |times| > 0 ==> times[0] == start
      ensures forall k :: 0 <= k < |times| - 1 ==> times[k + 1] - times[k] == NextPollDelay(rounds[k].jitter)
      ensures forall k :: 0 <= k < |times| - 1 ==> 65000 <= times[k + 1] - times[k] <= 74999
      ensures |rounds| > 0 ==> platform.views == old(platform.views)[uuid := ReportsOn(rounds[|rounds| - 1].read, mode)]
      ensures |rounds| == 0 ==> platform.views == old(platform.views)
    {
      var next;
      times, next := PollEveryRound(start, rounds);
      assert rounds[..|rounds|] == rounds;
      PollTimesGaps(start, rounds);
    }
  }
}
