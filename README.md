# Heatzy pilot-wire platform: state synchronisation

A Dafny model of the synchronisation core of the Homebridge plugin for Heatzy
heaters. Each heater (a vendor "device", identified by its `did`) appears as
one on/off switch per selected mode. The model covers:

- the two vendor code tables: an integer write table and a separate short-code
  read table, plus the off code 3;
- the session: the token, the expiry that every login forces 10 s into the
  past, and `needsAuthentication`;
- the per-device state cache and its 60 s freshness rule;
- the reconcilers that push on/off views to every switch of a device;
- the accessory list reconciliation in `fetchDevices`/`addAccessory`, keyed by
  the UUID of `did + ' ' + mode`;
- the accessory handlers: the write path, the get handler, the initial fetch,
  the state read and the poll loop with its jittered delay.

Layout, one module per file:

- `wrappers.dfy`: `Option`.
- `mode_codes.dfy`: the tables and the decoding of a read.
- `polling.dfy`: the poll delay.
- `session.dfy`: `needsAuthentication` and the forced expiry.
- `state_cache.dfy`: the freshness rule and the cache lookup.
- `registry.dfy`: the accessory list and its reconciliation, as functions on values.
- `platform.dfy`: the classes `Heatzy` (the platform) and `HeatzyAccessory`.
  Their methods are proved against the functions of the other modules and the
  reconciler functions `Reconciled` and `Silenced`.
- `login_chain.dfy`: the login/fetch chain described under Findings.

The outside world enters as parameters:

- the clock: `now: int`, in milliseconds;
- each remote call: its outcome (`LoginResult`, `FetchResult`, `ReadResponse`, `WriteResult`);
- `Math.random()`: a real `u` in [0, 1).

The On characteristic of each platform accessory is host state. It is the map
`Heatzy.views`, keyed by accessory UUID.

Some behaviours of the code are easy to misread; the model keeps them as written:

- The poll jitter is `Math.floor(Math.random() * 10000) + 5000`, a whole number from 5000 to 14999 ms. The comment beside it (src/platformAccessory.ts:194) says "5 to 10 seconds". A poll delay is therefore 65000 to 74999 ms.
- A poll only sets the polling switch's own view (src/platformAccessory.ts:199-200). It neither writes the cache nor notifies the other switches of the device.
- After a successful on-write the cache is updated by a non-forced `updateDeviceState`, then by an unconditional `notifyModeChange` (src/platformAccessory.ts:108-111).
- `needsAuthentication` uses JavaScript truthiness (src/platform.ts:162). A session needs no login only when the token is non-empty, the expiry is non-zero and the expiry is not earlier than now.
- Unregistered accessories are not spliced out of `accessories` (src/platform.ts:67-75), so they stay in the list and keep their instances.
- The selected modes are taken from `this.config.modes` unchecked (src/platform.ts:62). So "at most one switch of a device is on after `notifyModeChange`" (`NotifyLeavesAtMostOneOn`, `OnWriteLeavesAtMostOneOn`) holds only when every instance stands for a mode of the write table. Strictly, it is enough that none stands for the mode `'off'`: `updateState('off')` (src/platform.ts:141, src/platformAccessory.ts:145) turns such a switch on.

## Model

| member | source | states |
|---|---|---|
| `ModeCodes.ModeMapping` | src/platformAccessory.ts:7-13 | the write table: its codes are pairwise distinct and none is the off code (`WriteCodesDistinct`); `Eco` is written 4 (`CodeTablesAsymmetric`) |
| `ModeCodes.ReverseModeMapping` | src/platformAccessory.ts:15-22 | the read table: each heating mode has exactly one read code (`ReadCode`, `ReadCodeUnique`); `stop` is the only code for `'Off'` (`Decode`) |
| `ModeCodes.OffMode` | src/platformAccessory.ts:24 | the off code 3 is sent exactly for an off-request and is no mode's on-code (`WriteCode`, `WriteCodesDistinct`) |
| `ModeCodes.Decode` | src/platformAccessory.ts:70 | decodes to `'Unknown'` exactly for codes missing from the read table, to `'Off'` exactly for `stop`, and to a heating mode exactly for the other five table codes |
| `ModeCodes.ReadCode` | src/platformAccessory.ts:15-22 | each heating mode has a read code in the table that decodes back to it |
| `ModeCodes.ReadCodeUnique` | src/platformAccessory.ts:7-22 | a heating mode is decoded from exactly one read code |
| `ModeCodes.CodeTablesAsymmetric` | src/platformAccessory.ts:7-22 | `Eco` is written 4 but read as `cft1`; `Sleep` is written 1 but read as `eco`; `eco` does not decode to `Eco`; `"4"` decodes to `'Unknown'` |
| `ModeCodes.WriteCode` | src/platformAccessory.ts:96 | the off code 3 is sent exactly when the switch is turned off; an on-request sends a code exactly for a mode of the write table (otherwise `undefined`), and that code is the mode's entry in the table |
| `ModeCodes.WriteCodesDistinct` | src/platformAccessory.ts:7-24 | distinct heating modes have distinct write codes, and no on-code equals the off code |
| `ModeCodes.Accepted` | src/platformAccessory.ts:68 | a read is used exactly when it is a status-200 response with an `attr`; `ObservedMode` and `ReportsOn` carry what follows from it |
| `ModeCodes.ObservedMode` | src/platformAccessory.ts:68-70 | a read yields a mode exactly when it is a status-200 response with an `attr`; that mode is `'Off'`, `'Unknown'` or a heating mode |
| `ModeCodes.ReportsOn` | src/platformAccessory.ts:167-189 | a failed or rejected read reports off; for a heating mode, on exactly when the response carries that mode's read code |
| `ModeCodes.TwoSwitchScenario` | src/platformAccessory.ts:167-171 | with switches for `Confort` and `Eco`, a read of `cft1` turns on `Eco` only and a read of `stop` turns both off |
| `ModeCodes.StoppedOrUnknownIsOff` | src/platformAccessory.ts:70-71 | a `stop` code or an unknown code never decodes to a heating mode, so every switch reports off |
| `Polling.RandomInterval` | src/platformAccessory.ts:194 | the jitter is a whole number of ms from 5000 to 14999 |
| `Polling.NextPollDelay` | src/platformAccessory.ts:193-207 | the delay to the next poll is 60000 plus the jitter, from 65000 to 74999 ms |
| `Polling.EveryJitterIsDrawn` | src/platformAccessory.ts:194 | every jitter from 5000 to 14999 is drawn by some random value in [0, 1) |
| `Polling.JitterExceedsTenSeconds` | src/platformAccessory.ts:194 | a draw can give 14999 ms of jitter, more than the ten seconds the comment says |
| `Session.NeedsAuthentication` | src/platform.ts:160-163 | a login is due without a token (`NeedsAuthenticationBeforeLogin`), is not due for a non-empty token whose non-zero expiry has not passed (`FutureExpiryNeedsNoLogin`), stays due as time advances (`NeedsAuthenticationPersists`) |
| `Session.ForcedExpiry` | src/platform.ts:36 | the expiry a login stores is earlier than the login time |
| `Session.CheckedLogin` | src/platform.ts:160-163 | the session after a handler's check-then-login: a due login that succeeds stores the response's token with an expiry earlier than the login time; a login not due, or one that fails, leaves token and expiry as they were |
| `Session.NeedsAuthenticationBeforeLogin` | src/platform.ts:160-163 | without a token a login is due |
| `Session.ForcedExpiryKeepsLoginDue` | src/platform.ts:35-36 | after a login at time t, a login is due at every time after t − 10000 |
| `Session.FutureExpiryNeedsNoLogin` | src/platform.ts:160-163 | a non-empty token with a non-zero expiry not yet passed needs no login |
| `Session.NeedsAuthenticationPersists` | src/platform.ts:160-163 | once a login is due it stays due as time advances |
| `StateCache.ShouldWrite` | src/platform.ts:121-122 | an update lands when forced or first (`ForcedOrFirstWriteLands`), and otherwise exactly when the entry is more than 60000 ms old (`FreshEntryIsProtected`, `StoredEntryBlocksForOneMinute`) |
| `StateCache.Lookup` | src/platform.ts:147-154 | the cached state of a device when it has an entry, else null |
| `StateCache.FreshEntryIsProtected` | src/platform.ts:120-123 | a non-forced update of an existing entry lands exactly when the entry is more than 60000 ms old |
| `StateCache.ForcedOrFirstWriteLands` | src/platform.ts:122 | a forced update, or the first one for a device, always lands |
| `StateCache.StoredEntryBlocksForOneMinute` | src/platform.ts:122-123 | an entry stored at time t blocks non-forced updates until t + 60000, and reads back as the stored mode |
| `Registry.AccessoryUuid` | src/platform.ts:91-92 | the UUID of `did + ' ' + mode`; on one device it determines the mode (`UuidDeterminesMode`) |
| `Registry.UuidDeterminesMode` | src/platform.ts:91-92 | on one device, two modes get the same UUID exactly when they are equal |
| `Registry.Find` | src/platform.ts:93 | the index of the first accessory with the UUID, or none exactly when no accessory has it |
| `Registry.Add` | src/platform.ts:90-113 | pushes an accessory only when no accessory has the UUID; other accessories are untouched; the first accessory with the UUID then has the new device and mode as context |
| `Registry.IsUnused` | src/platform.ts:68-71 | an accessory's device is not among the fetched ones or its mode is not selected; `Unused` keeps exactly those accessories |
| `Registry.Unused` | src/platform.ts:67-75 | an accessory is unregistered exactly when its device is missing from the fetched devices or its mode is not selected |
| `Registry.AddModes` | src/platform.ts:78-80 | the mode loop of one device: it only appends (`AddModesKeepsPrefix`), covers every selected mode (`AddModesCovers`), keeps UUIDs distinct (`AddModesKeepsDistinct`) and adds nothing when all are covered (`AddModesWhenCovered`) |
| `Registry.AddDevices` | src/platform.ts:77-81 | a whole pass: it only appends (`AddDevicesKeepsPrefix`), covers every fetched pair (`AddDevicesCovers`), keeps UUIDs distinct (`AddDevicesKeepsDistinct`) and is idempotent (`SecondPassAddsNothing`) |
| `Registry.ModeUuids` | src/platform.ts:78-80 | the mode loop of one device sets an instance under the UUID of every selected mode; `ModeUuidsOnly` gives the converse |
| `Registry.ModeUuidsOnly` | src/platform.ts:78-80 | every UUID the mode loop sets an instance under is that of a selected mode |
| `Registry.DeviceUuids` | src/platform.ts:77-81 | a pass sets an instance under the UUID of every selected mode of every fetched device; `DeviceUuidsOnly` gives the converse |
| `Registry.DeviceUuidsOnly` | src/platform.ts:77-81 | every UUID a pass sets an instance under is that of a selected mode of a fetched device |
| `Registry.AddModesKeepsPrefix` | src/platform.ts:78-80 | adding the selected modes of a device removes and reorders no accessory |
| `Registry.AddDevicesKeepsPrefix` | src/platform.ts:77-81 | a reconciliation pass removes no accessory from the list and reorders none |
| `Registry.AddModesCovers` | src/platform.ts:78-80 | after the mode loop a device has an accessory for every selected mode |
| `Registry.AddDevicesCovers` | src/platform.ts:77-81 | after a pass every fetched device has an accessory for every selected mode |
| `Registry.AddModesWhenCovered` | src/platform.ts:93-112 | the mode loop adds nothing when every pair already has an accessory |
| `Registry.AddDevicesWhenCovered` | src/platform.ts:93-112 | a pass adds nothing when every fetched pair already has an accessory |
| `Registry.SecondPassAddsNothing` | src/platform.ts:77-112 | a second pass with the same devices and modes adds no accessory |
| `Registry.AddModesKeepsDistinct` | src/platform.ts:93-111 | the mode loop never creates two accessories with one UUID |
| `Registry.AddDevicesKeepsDistinct` | src/platform.ts:93-111 | a pass never creates two accessories with one UUID |
| `Registry.UnregisteredStayListed` | src/platform.ts:73 | an unregistered accessory is still in the list after the pass |
| `Platform.Reconciled` | src/platform.ts:124-130 | the views after `updateDeviceState`: a sibling is on exactly when it is the stored mode's switch (`ObservationLightsItsOwnSwitch`), and all are off for `'Off'` or `'Unknown'` (`NonHeatingObservationTurnsAllOff`) |
| `Platform.Silenced` | src/platform.ts:137-144 | the views after `notifyModeChange`: only the active mode's switch can stay on, and other views are kept (`NotifyLeavesAtMostOneOn`) |
| `Platform.Siblings` | src/platform.ts:124-128 | the accessories the reconciler loops reach all have an instance |
| `Platform.OtherModes` | src/platform.ts:137-141 | the switches `notifyModeChange` turns off are siblings |
| `Platform.ObservationLightsItsOwnSwitch` | src/platform.ts:124-130 | once a mode is stored, a sibling is on exactly when it is that mode's switch, so at most one is on |
| `Platform.NonHeatingObservationTurnsAllOff` | src/platform.ts:124-130 | a stored `'Off'` or `'Unknown'` turns every heating-mode sibling off |
| `Platform.NotifyLeavesAtMostOneOn` | src/platform.ts:133-145 | after `notifyModeChange` the only sibling that can be on is the switch of the active mode; it and other devices' switches keep their views |
| `Platform.InstancesAddedChain` | src/platform.ts:99-109 | two rounds of `addAccessory` add instances under the union of their UUIDs and keep every other instance |
| `Platform.AddKeepsRegistered` | src/platform.ts:90-113 | `addAccessory` keeps UUIDs unique, each the UUID of its context, and each instance equal to its accessory's context |
| `Platform.Heatzy.constructor` | src/platform.ts:5-19 | the platform starts with the restored accessories, an empty cache, no instances and no session |
| `Platform.Heatzy.NeedsLogin` | src/platform.ts:160-163 | `NeedsAuthentication` of the platform's token and expiry |
| `Platform.Heatzy.GetDeviceState` | src/platform.ts:147-154 | the cached state of the device when it has an entry, else null |
| `Platform.Heatzy.Authenticate` | src/platform.ts:21-41 | a login stores the token with an expiry 10 s in the past, so a login is still due; a failed login changes nothing |
| `Platform.Heatzy.AddAccessory` | src/platform.ts:90-113 | the list becomes `Add` of the old list; a fresh instance for the device and mode is set under the UUID; every other instance is kept |
| `Platform.Heatzy.FetchDevices` | src/platform.ts:43-87 | logs in when due; without a token or when the fetch fails nothing changes; otherwise unregisters `Unused`, leaves it in the list, adds every (device, mode) pair to the list, sets a fresh instance under every such pair's UUID and keeps every other instance |
| `Platform.Heatzy.UnusedAccessories` | src/platform.ts:67-75 | returns exactly the accessories to unregister, in list order, without changing anything |
| `Platform.Heatzy.AddFetchedDevices` | src/platform.ts:77-81 | the list becomes `AddDevices` of the old list; every fetched (device, mode) pair gets a fresh instance under its UUID; every other instance is kept |
| `Platform.Heatzy.AddSelectedModes` | src/platform.ts:78-80 | the list becomes `AddModes` of the old list; every selected mode gets a fresh instance for the device and that mode under its UUID; every other instance is kept |
| `Platform.Heatzy.UpdateDeviceState` | src/platform.ts:120-131 | writes and reconciles the views exactly when there is no entry, the update is forced or the entry is stale; otherwise cache and views are unchanged |
| `Platform.Heatzy.ReconcileSibling` | src/platform.ts:125-127 | one accessory of the `updateDeviceState` loop: an instance of the device is told the active mode, every other view is kept |
| `Platform.Heatzy.NotifyModeChange` | src/platform.ts:133-145 | stores the mode and time whatever the entry's age, and tells every sibling of another mode `'off'` |
| `Platform.Heatzy.SilenceSibling` | src/platform.ts:138-142 | one accessory of the `notifyModeChange` loop: an instance of the device of another mode is told `'off'`, every other view is kept |
| `Platform.HeatzyAccessory.constructor` | src/platformAccessory.ts:27-33 | an instance for one platform, accessory UUID, device and mode; the initial read and the poll loop the code's constructor starts are the separate methods `FetchInitialState` and `StartPolling` |
| `Platform.HeatzyAccessory.UpdateState` | src/platformAccessory.ts:144-147 | the switch shows whether the given mode is its own; other views are unchanged |
| `Platform.HeatzyAccessory.EnsureSession` | src/platformAccessory.ts:92-94 | logs in exactly when a login is due |
| `Platform.HeatzyAccessory.SetOnCharacteristicHandler` | src/platformAccessory.ts:91-123 | sends the write code; after a successful on-write the cache holds (mode, now) and the siblings are reconciled then silenced; a failed write or an off-write leaves cache and views alone; a failed write hands its error to the callback |
| `Platform.HeatzyAccessory.OnWriteLeavesAtMostOneOn` | src/platformAccessory.ts:101-111 | a successful on-write, with every instance for a heating mode: the mode's write code is sent, the cache holds (mode, now), and a switch of the device that is on is this mode's switch |
| `Platform.HeatzyAccessory.GetOnCharacteristicHandler` | src/platformAccessory.ts:125-142 | on exactly when the device has a cached entry whose state is this mode; a missing entry gives off; a due login that succeeds stores its token with the forced expiry, otherwise the session is unchanged |
| `Platform.HeatzyAccessory.FetchInitialState` | src/platformAccessory.ts:52-88 | an accepted read sets this switch, forces the decoded mode into the cache and reconciles the siblings; a failed read changes nothing; a due login that succeeds stores its token with the forced expiry, otherwise the session is unchanged |
| `Platform.HeatzyAccessory.GetDeviceState` | src/platformAccessory.ts:150-190 | the answer is `ReportsOn` of the read; it never fails and never touches the cache; a due login that succeeds stores its token with the forced expiry, otherwise the session is unchanged |
| `Platform.HeatzyAccessory.Poll` | src/platformAccessory.ts:196-208 | sets only this switch's view to the read's answer and schedules the next poll after `NextPollDelay`; the session afterwards is `CheckedLogin` of the session before, at the poll's time, with the round's login |
| `Platform.HeatzyAccessory.PollNext` | src/platformAccessory.ts:196-208 | one run of `poll` and its `setTimeout`: the poll at the scheduled time extends the loop's state by one round, that is, its time is appended to `PollTimes`, the session is `SessionAfterRounds` one round further, this switch shows the round's answer, and the next time is `NextPollDelay` later |
| `Platform.HeatzyAccessory.PollEveryRound` | src/platformAccessory.ts:192-211 | after all rounds the poll times are `PollTimes`, the session is `SessionAfterRounds` of the original one, and only this switch's view holds the last read's answer |
| `Platform.HeatzyAccessory.StartPolling` | src/platformAccessory.ts:192-211 | the poll times are `PollTimes`: first at the start time, then each gap is `NextPollDelay` of that round's draw, 65000 to 74999 ms; the session afterwards is `SessionAfterRounds`, each poll's check-then-login applied in turn; after the last round this switch shows the last read's answer and no other view changed |
| `Platform.PollTimes` | src/platformAccessory.ts:207-210 | the times the loop polls at, one per round: the first at once, each later one after the timer delay. The values are characterised by `PollTimesGaps`, and one round further by `PollTimesStep` |
| `Platform.PollTimesStep` | src/platformAccessory.ts:207 | one more round appends the previous time plus `NextPollDelay` of the previous round's draw |
| `Platform.SessionAfterRounds` | src/platformAccessory.ts:151-153 | the session after each poll's check-then-login, applied in turn. When every login fails, the session is unchanged. One round further is `SessionAfterRoundsStep`; with successful logins, `EveryPollLogsIn` |
| `Platform.SessionAfterRoundsStep` | src/platformAccessory.ts:151-153 | one more poll applies `CheckedLogin` at its time to the session after the earlier polls |
| `Platform.PollTimesGaps` | src/platformAccessory.ts:192-211 | the times `PollTimes` schedules start at the start time and are `NextPollDelay` of the previous round's draw apart, 65000 to 74999 ms |
| `Platform.EveryPollLogsIn` | src/platformAccessory.ts:150-153 | with a login due at the first poll, logins that succeed and a clock that does not run backwards, every poll logs in again: the session ends as the last login's token with the forced expiry of the last poll's time |
| `LoginChain.LoginsAsWritten` | src/platform.ts:21-50 | the number of logins the chain issues, at most one per check, and none exactly when the first check finds no login due |
| `LoginChain.ChainNeverStops` | src/platform.ts:21-50 | while logins succeed and the clock does not run backwards, every `needsAuthentication` check in the chain triggers another login |
| `LoginChain.ThreeChecksThreeLogins` | src/platform.ts:35-45 | three checks one second apart issue three logins |

## Left out

- HTTP: the calls, URLs, headers and the application id. Each remote call is replaced by its outcome as a parameter.
- Host plumbing: service and characteristic registration, `registerPlatformAccessories`, `configureAccessory` and the `didFinishLaunching` event. The accessories the host restores are the constructor's input. `unregisterPlatformAccessories` is modelled as the list `FetchDevices` returns.
- The host's own update of a characteristic after a successful set callback. Only the views the plugin itself pushes are modelled.
- `api.hap.uuid.generate`: taken as the identity on `did + ' ' + mode`, an injective function.
- Logging, colour codes, the device-name list built for logging, and `getToken`.
- Concurrency: `setTimeout`, async interleavings, and the un-awaited `fetchDevices()` that `authenticate` starts. Each handler runs as one sequential step. The chain that un-awaited call creates is modelled separately in `LoginChain`.
- The poll loop is unbounded; `StartPolling` models a finite prefix of it.
- Platform.HeatzyAccessory.StartPolling: a gap between polls is the timer delay only. The code starts the next timer after the awaited read returns (src/platformAccessory.ts:199, 207), so the real gap also includes the read's duration.
- Platform.HeatzyAccessory.constructor: only stores the platform, UUID, device and mode. The code's constructor also starts `fetchInitialState()` and `startPolling()` (src/platformAccessory.ts:43-44), so every `addAccessory` begins an initial read and a poll loop. In the model these are the separate methods `FetchInitialState` and `StartPolling`, which a caller runs after `AddAccessory`. The initial read logs in when a login is due (src/platformAccessory.ts:53-54); each such login also starts a `fetchDevices()` chain like the one under Findings, so the real chain fans out further than `LoginChain` counts.
- The poll loops and the characteristic handlers (src/platformAccessory.ts:39-44) of replaced instances, and of unregistered accessories' instances, keep running in the code. The model does not track them. Its `accessoryInstances` keeps the instances of unregistered accessories, and `UpdateDeviceState` and `NotifyModeChange` still reach them.
- `Date.now()`: a `now` parameter. Each handler uses that one instant for each of these:
  - its login check;
  - the expiry `authenticate` computes after its awaited POST (src/platform.ts:36);
  - on the write path, both cache stores (src/platform.ts:123, 134), including the two readings in `updateDeviceState`.
  The real readings are successive.
- `Math.random()`: a real in [0, 1). Double-precision rounding is not modelled.
- `this.config.modes || []`: the selected modes are a parameter.
- ModeCodes.Decode: treats the read table as a plain map of strings. JavaScript also finds inherited property names such as `constructor`, and `attr.mode` may be a non-string; the model decodes such values to `'Unknown'` or covers them only as a missing field.

## Findings

| source | as written | input that shows it | evidently intended | confidence | as-written member | corrected member |
|---|---|---|---|---|---|---|
| src/platform.ts:35-45 | every successful `authenticate()` starts `fetchDevices()`; the forced expiry keeps `needsAuthentication()` true; so that `fetchDevices()` logs in again and starts another one, without end | logins that succeed at times 0, 1000 and 2000 ms: each check issues a login, and the chain continues while logins succeed | one device fetch per launch, with at most one login per `fetchDevices()` call | high, not executed | `LoginChain.ChainNeverStops` | `Platform.Heatzy.FetchDevices` |
