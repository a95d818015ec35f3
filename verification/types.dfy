/** The shapes of `src/types.ts`: a device with its capability descriptors,
    a capability-state entry of a device-state response, and the `myDevices`
    registry keyed by display name. */
module Types {
  import opened Results

  datatype DataType = Integer | Enum | Text

  datatype Range = Range(min: int, max: int, precision: int)

  datatype OptionValue = BoolOption(b: bool) | NumOption(n: int) | TextOption(s: string)

  datatype EnumOption = EnumOption(name: string, value: OptionValue)

  datatype Parameters = Parameters(
    dataType: DataType,
    range: Option<Range>,
    unit: Option<string>,
    options: Option<seq<EnumOption>>)

  /** A capability descriptor: what may be set on a device and with which values. */
  datatype Capability = Capability(capType: string, instance: string, parameters: Parameters)

  datatype Device = Device(device: string, sku: string, deviceName: string, capabilities: seq<Capability>)

  /** A `Record<string, GoveeDevice>` in the insertion order `Object.keys` reports. */
  type Registry = seq<(string, Device)>

  /** A JSON value reported as a capability's current state (JSON `null` is not modelled). */
  datatype Json = JNum(n: int) | JBool(b: bool) | JText(s: string)

  /** The `state` member of a state entry: absent, or present with an optional `value`. */
  datatype CapState = NoState | State(value: Option<Json>)

  datatype StateEntry = StateEntry(capType: string, instance: string, state: CapState)

  /** A named colour `{name, hex}` of a favourites list. */
  datatype Choice = Choice(name: string, hex: string)

  // ---------------------------------------------------------------- descriptor builders

  const OnOffOptions: seq<EnumOption> := [EnumOption("on", BoolOption(true)), EnumOption("off", BoolOption(false))]

  /** `{type, instance: "1", parameters: {dataType: "ENUM", options: on/off}}`. */
  function OnOffCapability(capType: string): Capability
  {
    Capability(capType, "1", Parameters(Enum, None, None, Some(OnOffOptions)))
  }

  /** `{type, instance: "1", parameters: {dataType: "INTEGER", range, unit?}}`. */
  function IntegerCapability(capType: string, min: int, max: int, precision: int, unit: Option<string>): Capability
  {
    Capability(capType, "1", Parameters(Integer, Some(Range(min, max, precision)), unit, None))
  }

  /** INTEGER descriptors carry a range with min <= max, ENUM descriptors carry options. */
  predicate WellFormedDescriptor(c: Capability)
  {
    && (c.parameters.dataType == Integer ==> c.parameters.range.Some? && c.parameters.range.value.min <= c.parameters.range.value.max)
    && (c.parameters.dataType == Enum ==> c.parameters.options.Some?)
  }

  predicate WellFormedDevice(d: Device)
  {
    forall i :: 0 <= i < |d.capabilities| ==> WellFormedDescriptor(d.capabilities[i])
  }

  /** The three capabilities every registered device declares, then its colour-temperature range. */
  function LampCapabilities(minK: int, maxK: int): seq<Capability>
  {
    [ OnOffCapability("powerSwitch"),
      IntegerCapability("brightness", 0, 100, 1, None),
      IntegerCapability("colorTemperature", minK, maxK, 100, Some("kelvin")) ]
  }

  /** The packed-colour descriptor `colorRgb`, range 0..0xFFFFFF. */
  function ColorRgbCapability(): Capability
  {
    IntegerCapability("colorRgb", 0, 0xFF_FFFF, 1, None)
  }

  /** A lamp's capabilities followed by `colorRgb`, as the RGB bulbs declare them. */
  function BulbCapabilities(minK: int, maxK: int): seq<Capability>
  {
    LampCapabilities(minK, maxK) + [ColorRgbCapability()]
  }

  lemma LampWellFormed(minK: int, maxK: int)
    requires minK <= maxK
    ensures forall i :: 0 <= i < |LampCapabilities(minK, maxK)| ==> WellFormedDescriptor(LampCapabilities(minK, maxK)[i])
  {
  }

  lemma BulbWellFormed(minK: int, maxK: int)
    requires minK <= maxK
    ensures forall i :: 0 <= i < |BulbCapabilities(minK, maxK)| ==> WellFormedDescriptor(BulbCapabilities(minK, maxK)[i])
  {
    var caps := BulbCapabilities(minK, maxK);
    LampWellFormed(minK, maxK);
    forall i | 0 <= i < |caps| ensures WellFormedDescriptor(caps[i]) {
      if i < 3 { assert caps[i] == LampCapabilities(minK, maxK)[i]; }
    }
  }

  // ---------------------------------------------------------------- myDevices

  const myDevices: Registry := [
    ("RGBICWW Floor Lamp", Device("47:0F:C7:33:36:31:67:51", "H6072", "RGBICWW Floor Lamp", LampCapabilities(2000, 9000))),
    ("Cylinder Floor Lamp", Device("10:32:D3:21:C5:C6:7A:63", "H6078", "Cylinder Floor Lamp", LampCapabilities(2200, 6500))),
    ("Desk Bulb", Device("DA:CA:D0:C9:07:E5:7D:1C", "H6008", "Desk Bulb", LampCapabilities(2700, 6500))),
    ("Ceiling 1", Device("5B:E7:D0:C9:07:D5:B6:D2", "H6008", "Ceiling 1", LampCapabilities(2700, 6500))),
    ("Ceiling 2", Device("F2:17:D0:C9:07:D6:00:92", "H6008", "Ceiling 2", LampCapabilities(2700, 6500)))
  ]

  /** Every `myDevices` key is its entry's display name, and every descriptor is well formed. */
  lemma MyDevicesKeyedByName()
    ensures forall i :: 0 <= i < |myDevices| ==> myDevices[i].0 == myDevices[i].1.deviceName
    ensures forall i :: 0 <= i < |myDevices| ==> WellFormedDevice(myDevices[i].1)
  {
  }
}
