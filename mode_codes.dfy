/**
 * The vendor's mode codes (src/platformAccessory.ts): an integer write table,
 * a separate short-code read table, the off code, and the decoding of a
 * state read.  The two tables are deliberately not inverses of each other.
 */
module ModeCodes {
  import opened Wrappers

  /** Integer sent as `attrs.mode` to put a heater into a human mode. */
  const ModeMapping: map<string, int> :=
    map["Confort" := 0, "Eco" := 4, "Eco Plus" := 5, "Sleep" := 1, "Antifreeze" := 2]

  /** Short code reported as `attr.mode`, mapped back to a human mode. */
  const ReverseModeMapping: map<string, string> :=
    map["cft" := "Confort", "eco" := "Sleep", "fro" := "Antifreeze",
        "stop" := "Off", "cft1" := "Eco", "cft2" := "Eco Plus"]

  /** Integer that switches a heater off. */
  const OffMode: int := 3

  /** Decoded mode of a read code the table does not know. */
  const Unknown: string := "Unknown"

  /** Human mode that has a write code: the modes a switch can stand for. */
  predicate IsHeatingMode(m: string) {
    m in ModeMapping
  }

  /** `reverseModeMapping[apiMode] || 'Unknown'`: every table value is a non-empty string. */
  function Decode(code: string): (m: string)
    ensures m == Unknown <==> code !in ReverseModeMapping
    ensures IsHeatingMode(m) <==> code in ReverseModeMapping && code != "stop"
    ensures m == "Off" <==> code == "stop"
  {
    if code in ReverseModeMapping then ReverseModeMapping[code] else Unknown
  }

  /** The one read code a heater reports while it is in heating mode `m`. */
  function ReadCode(m: string): (c: string)
    requires IsHeatingMode(m)
    ensures c in ReverseModeMapping && Decode(c) == m
  {
    if m == "Confort" then "cft"
    else if m == "Eco" then "cft1"
    else if m == "Eco Plus" then "cft2"
    else if m == "Sleep" then "eco"
    else "fro"
  }

  /** Each heating mode is decoded from exactly one read code. */
  lemma ReadCodeUnique(m: string, c: string)
    requires IsHeatingMode(m)
    ensures Decode(c) == m <==> c == ReadCode(m)
  {
  }

  /** The asymmetry between the tables: what is written is not what is read back. */
  lemma CodeTablesAsymmetric()
    ensures ModeMapping["Eco"] == 4 && ReadCode("Eco") == "cft1"
    ensures ModeMapping["Sleep"] == 1 && ReadCode("Sleep") == "eco"
    ensures Decode("eco") != "Eco"
    ensures Decode("4") == Unknown
  {
  }

  /** `value ? modeMapping[this.mode] : off_mode`; `None` is the `undefined` of an unmapped mode. */
  function WriteCode(value: bool, mode: string): (code: Option<int>)
    ensures code == Some(OffMode) <==> !value
    ensures value ==> (code.Some? <==> IsHeatingMode(mode))
    ensures value && IsHeatingMode(mode) ==> code == Some(ModeMapping[mode])
  {
    if !value then Some(OffMode)
    else if mode in ModeMapping then Some(ModeMapping[mode])
    else None
  }

  /** Distinct heating modes are written with distinct codes, and none of them with the off code. */
  lemma WriteCodesDistinct(m1: string, m2: string)
    requires IsHeatingMode(m1) && IsHeatingMode(m2)
    ensures WriteCode(true, m1) == WriteCode(true, m2) <==> m1 == m2
    ensures WriteCode(true, m1) != WriteCode(false, m2)
  {
  }

  /** The `attr` object of a state read; `mode: None` when the field is missing. */
  datatype Attr = Attr(mode: Option<string>)

  /** Outcome of `GET devdata/{did}/latest`: a response, or a request that threw. */
  datatype ReadResponse =
    | Response(status: int, attr: Option<Attr>)
    | RequestFailed

  /** A response the accessory accepts: status 200 with an `attr` object. */
  predicate Accepted(r: ReadResponse) {
    r.Response? && r.status == 200 && r.attr.Some?
  }

  /** The mode a state read reports, `None` when the read is rejected. */
  function ObservedMode(r: ReadResponse): (m: Option<string>)
    ensures m.Some? <==> Accepted(r)
    ensures m.Some? ==> m.value == "Off" || m.value == Unknown || IsHeatingMode(m.value)
  {
    if !Accepted(r) then None
    else match r.attr.value.mode
      case Some(code) => Some(Decode(code))
      case None => Some(Unknown)
  }

  /**
   * An accessory's answer to a state read (`getDeviceState`): on exactly when
   * the read decodes to its own mode; a failed or rejected read answers off.
   */
  function ReportsOn(r: ReadResponse, mode: string): (on: bool)
    ensures !Accepted(r) ==> !on
    ensures IsHeatingMode(mode) ==> (on <==> Accepted(r) && r.attr.value.mode == Some(ReadCode(mode)))
  {
    match ObservedMode(r)
    case Some(m) => m == mode
    case None => false
  }

  /** A stopped heater or an unknown code turns every heating-mode switch off. */
  lemma StoppedOrUnknownIsOff(code: string, mode: string)
    requires IsHeatingMode(mode)
    requires code == "stop" || code !in ReverseModeMapping
    ensures Decode(code) != mode
  {
  }

  /**
   * Two switches of one device, for `Confort` and `Eco`: a read of `cft1`
   * turns on `Eco` only, and a read of `stop` turns both off.
   */
  lemma TwoSwitchScenario()
    ensures var cft1 := Response(200, Some(Attr(Some("cft1"))));
      !ReportsOn(cft1, "Confort") && ReportsOn(cft1, "Eco")
    ensures var stop := Response(200, Some(Attr(Some("stop"))));
      !ReportsOn(stop, "Confort") && !ReportsOn(stop, "Eco")
  {
  }
}
