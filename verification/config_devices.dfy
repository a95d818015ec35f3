/** `src/config/devices.ts`: shared capability descriptors, the five registered
    devices keyed by identifier, and the structural check `validateDevice` run
    over every entry when the module loads. */
module ConfigDevices {
  import opened Results
  import opened Types
  import opened Lookups
  import opened Constants

  function PowerSwitchCapability(): Capability
  {
    OnOffCapability("powerSwitch")
  }

  function BrightnessCapability(): Capability
  {
    IntegerCapability("brightness", MinBrightness, MaxBrightness, 1, None)
  }

  function TemperatureCapability(minK: int, maxK: int): Capability
  {
    IntegerCapability("colorTemperature", minK, maxK, 100, Some("kelvin"))
  }

  const RgbBulbCapabilities: seq<Capability> :=
    [PowerSwitchCapability(), BrightnessCapability(), TemperatureCapability(2700, 6500), ColorRgbCapability()]

  const rgbicFloorLamp: Device := Device("47:0F:C7:33:36:31:67:51", "H6072", "RGBICWW Floor Lamp",
    [PowerSwitchCapability(), BrightnessCapability(), TemperatureCapability(MinColorTemp, MaxColorTemp)])

  const cylinderFloorLamp: Device := Device("10:32:D3:21:C5:C6:7A:63", "H6078", "Cylinder Floor Lamp",
    [PowerSwitchCapability(), BrightnessCapability(), TemperatureCapability(2200, 6500)])

  const deskBulb: Device := Device("DA:CA:D0:C9:07:E5:7D:1C", "H6008", "Desk Bulb", RgbBulbCapabilities)
  const ceiling1: Device := Device("5B:E7:D0:C9:07:D5:B6:D2", "H6008", "Ceiling 1", RgbBulbCapabilities)
  const ceiling2: Device := Device("F2:17:D0:C9:07:D6:00:92", "H6008", "Ceiling 2", RgbBulbCapabilities)

  const devices: Registry := [
    ("rgbicFloorLamp", rgbicFloorLamp),
    ("cylinderFloorLamp", cylinderFloorLamp),
    ("deskBulb", deskBulb),
    ("ceiling1", ceiling1),
    ("ceiling2", ceiling2)
  ]

  // ---------------------------------------------------------------- validateDevice

  /** `sku`, `device` and `deviceName` are all non-empty (a missing field reads as ""). */
  predicate HasRequiredFields(d: Device)
  {
    d.sku != "" && d.device != "" && d.deviceName != ""
  }

  predicate ValidCapability(c: Capability)
  {
    c.capType != "" && c.instance != ""
  }

  /** The `forEach` over the capabilities, throwing at the first one with an empty type or instance. */
  function CheckCapabilities(name: string, caps: seq<Capability>): (o: Outcome)
    ensures o.Pass? <==> forall i :: 0 <= i < |caps| ==> ValidCapability(caps[i])
    ensures o.Fail? ==> o.error == InvalidCapabilityConfig(name)
  {
    if |caps| == 0 then Pass
    else if !ValidCapability(caps[0]) then Fail(InvalidCapabilityConfig(name))
    else CheckCapabilities(name, caps[1..])
  }

  /** `validateDevice`: the required fields first, then a non-empty capability list, then each capability. */
  function ValidateDevice(d: Device): (o: Outcome)
    ensures o.Pass? <==> HasRequiredFields(d) && |d.capabilities| > 0 && forall c :: c in d.capabilities ==> ValidCapability(c)
    ensures !HasRequiredFields(d) ==> o == Fail(MissingFields(if d.deviceName == "" then "unknown" else d.deviceName))
    ensures HasRequiredFields(d) && |d.capabilities| == 0 ==> o == Fail(NoCapabilities(d.deviceName))
    ensures HasRequiredFields(d) && |d.capabilities| > 0 && o.Fail? ==> o == Fail(InvalidCapabilityConfig(d.deviceName))
  {
    if !HasRequiredFields(d) then Fail(MissingFields(if d.deviceName == "" then "unknown" else d.deviceName))
    else if |d.capabilities| == 0 then Fail(NoCapabilities(d.deviceName))
    else CheckCapabilities(d.deviceName, d.capabilities)
  }

  /** `Object.values(registry).forEach(validateDevice)`: the first failing entry's error, in key order. */
  function ValidateAll(reg: Registry): (o: Outcome)
    ensures o.Pass? <==> forall i :: 0 <= i < |reg| ==> ValidateDevice(reg[i].1).Pass?
    ensures o.Fail? ==> exists i :: 0 <= i < |reg| && o == ValidateDevice(reg[i].1)
  {
    if |reg| == 0 then Pass
    else
      var first := ValidateDevice(reg[0].1);
      if first.Fail? then first else ValidateAll(reg[1..])
  }

  /** The shared descriptors are the lamp and bulb descriptor lists with the global limits. */
  lemma SharedDescriptors()
    ensures rgbicFloorLamp.capabilities == LampCapabilities(MinColorTemp, MaxColorTemp)
    ensures cylinderFloorLamp.capabilities == LampCapabilities(2200, 6500)
    ensures RgbBulbCapabilities == BulbCapabilities(2700, 6500)
  {
  }

  lemma LampValidates(d: Device, minK: int, maxK: int)
    requires d.capabilities == LampCapabilities(minK, maxK) && HasRequiredFields(d)
    ensures ValidateDevice(d).Pass?
  {
    LampDescriptors(minK, maxK);
  }

  lemma BulbValidates(d: Device)
    requires d.capabilities == RgbBulbCapabilities && HasRequiredFields(d)
    ensures ValidateDevice(d).Pass?
  {
    SharedDescriptors();
    BulbDescriptors(2700, 6500);
  }

  /** All five registered devices pass the check run at load time. */
  lemma AllDevicesValid()
    ensures ValidateAll(devices) == Pass
  {
    SharedDescriptors();
    LampValidates(rgbicFloorLamp, MinColorTemp, MaxColorTemp);
    LampValidates(cylinderFloorLamp, 2200, 6500);
    BulbValidates(deskBulb);
    BulbValidates(ceiling1);
    BulbValidates(ceiling2);
    assert ValidateAll(devices[4..]) == Pass;
    assert ValidateAll(devices[3..]) == Pass;
    assert ValidateAll(devices[2..]) == Pass;
    assert ValidateAll(devices[1..]) == Pass;
  }

  /** Colour-temperature ranges: the RGBIC lamp takes the global limits, the cylinder lamp
      2200–6500, the three bulbs 2700–6500; `colorRgb` 0–0xFFFFFF appears on the bulbs and
      not on the floor lamps. */
  lemma DescriptorRanges()
    ensures DescriptorRange(rgbicFloorLamp, "colorTemperature") == Some(Range(MinColorTemp, MaxColorTemp, 100))
    ensures DescriptorRange(cylinderFloorLamp, "colorTemperature") == Some(Range(2200, 6500, 100))
    ensures DescriptorRange(deskBulb, "colorTemperature") == Some(Range(2700, 6500, 100))
    ensures ceiling1.capabilities == deskBulb.capabilities && ceiling2.capabilities == deskBulb.capabilities
    ensures DescriptorRange(deskBulb, "colorRgb") == Some(Range(0, 0xFF_FFFF, 1))
    ensures FindCapability(rgbicFloorLamp.capabilities, "colorRgb", "1") == None
    ensures FindCapability(cylinderFloorLamp.capabilities, "colorRgb", "1") == None
  {
    SharedDescriptors();
    LampDescriptors(MinColorTemp, MaxColorTemp);
    LampDescriptors(2200, 6500);
    BulbDescriptors(2700, 6500);
  }

  /** The brightness descriptor is 0–100 on every registered device. */
  lemma BrightnessEverywhere()
    ensures forall i :: 0 <= i < |devices| ==> DescriptorRange(devices[i].1, "brightness") == Some(Range(0, 100, 1))
  {
    SharedDescriptors();
    forall i | 0 <= i < |devices| ensures DescriptorRange(devices[i].1, "brightness") == Some(Range(0, 100, 1)) {
      var caps := devices[i].1.capabilities;
      if i == 0 {
        assert caps == LampCapabilities(MinColorTemp, MaxColorTemp);
        LampDescriptors(MinColorTemp, MaxColorTemp);
      } else if i == 1 {
        assert caps == LampCapabilities(2200, 6500);
        LampDescriptors(2200, 6500);
      } else {
        assert caps == BulbCapabilities(2700, 6500);
        BulbDescriptors(2700, 6500);
      }
    }
  }
}
