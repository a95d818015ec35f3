/** `src/devices.ts`: the registry the TypeScript facade reads, five devices keyed by
    identifier with powerSwitch, brightness and colorTemperature descriptors only. */
module SrcDevices {
  import opened Results
  import opened Types
  import opened Lookups
  import ConfigDevices

  const rgbicFloorLamp: Device := Device("47:0F:C7:33:36:31:67:51", "H6072", "RGBICWW Floor Lamp", LampCapabilities(2000, 9000))
  const cylinderFloorLamp: Device := Device("10:32:D3:21:C5:C6:7A:63", "H6078", "Cylinder Floor Lamp", LampCapabilities(2200, 6500))
  const deskBulb: Device := Device("DA:CA:D0:C9:07:E5:7D:1C", "H6008", "Desk Bulb", LampCapabilities(2700, 6500))
  const ceiling1: Device := Device("5B:E7:D0:C9:07:D5:B6:D2", "H6008", "Ceiling 1", LampCapabilities(2700, 6500))
  const ceiling2: Device := Device("F2:17:D0:C9:07:D6:00:92", "H6008", "Ceiling 2", LampCapabilities(2700, 6500))

  const devices: Registry := [
    ("rgbicFloorLamp", rgbicFloorLamp),
    ("cylinderFloorLamp", cylinderFloorLamp),
    ("deskBulb", deskBulb),
    ("ceiling1", ceiling1),
    ("ceiling2", ceiling2)
  ]

  /** Exactly five identifier keys, none of them a display name. */
  lemma RegistryKeys()
    ensures Keys(devices) == ["rgbicFloorLamp", "cylinderFloorLamp", "deskBulb", "ceiling1", "ceiling2"]
    ensures DistinctKeys(devices)
    ensures !HasKey(devices, "Desk Bulb") && !HasKey(devices, "Ceiling 1") && !HasKey(devices, "Ceiling 2")
  {
  }

  /** The descriptor facts the facades and the state tools rely on. */
  predicate LampShaped(d: Device)
  {
    && WellFormedDevice(d)
    && FindCapability(d.capabilities, "powerSwitch", "1") == Some(OnOffCapability("powerSwitch"))
    && DescriptorRange(d, "brightness") == Some(Range(0, 100, 1))
    && FindCapability(d.capabilities, "colorRgb", "1").None?
    && (forall c :: c in d.capabilities ==> c.capType != "devices.capabilities.color_setting")
    && ConfigDevices.ValidateDevice(d).Pass?
  }

  lemma LampShapedEntry(d: Device, minK: int, maxK: int)
    requires d.capabilities == LampCapabilities(minK, maxK) && minK <= maxK
    requires d.sku != "" && d.device != "" && d.deviceName != ""
    ensures LampShaped(d)
    ensures DescriptorRange(d, "colorTemperature") == Some(Range(minK, maxK, 100))
  {
    LampDescriptors(minK, maxK);
  }

  /** Every device declares powerSwitch (ENUM on/off), brightness 0–100 and a colour-temperature
      range, all with instance "1"; none declares `colorRgb` or a `color_setting` type; and the
      per-device ranges are 2000–9000, 2200–6500 and 2700–6500 for the three bulbs. */
  lemma DescriptorShapes()
    ensures forall i :: 0 <= i < |devices| ==> LampShaped(devices[i].1)
  {
    forall i | 0 <= i < |devices| ensures LampShaped(devices[i].1) {
      var d := devices[i].1;
      if i == 0 {
        LampShapedEntry(d, 2000, 9000);
      } else if i == 1 {
        LampShapedEntry(d, 2200, 6500);
      } else {
        LampShapedEntry(d, 2700, 6500);
      }
    }
  }

  lemma TemperatureRanges()
    ensures DescriptorRange(rgbicFloorLamp, "colorTemperature") == Some(Range(2000, 9000, 100))
    ensures DescriptorRange(cylinderFloorLamp, "colorTemperature") == Some(Range(2200, 6500, 100))
    ensures DescriptorRange(deskBulb, "colorTemperature") == Some(Range(2700, 6500, 100))
    ensures DescriptorRange(ceiling1, "colorTemperature") == Some(Range(2700, 6500, 100))
    ensures DescriptorRange(ceiling2, "colorTemperature") == Some(Range(2700, 6500, 100))
  {
    LampShapedEntry(rgbicFloorLamp, 2000, 9000);
    LampShapedEntry(cylinderFloorLamp, 2200, 6500);
    LampShapedEntry(deskBulb, 2700, 6500);
    LampShapedEntry(ceiling1, 2700, 6500);
    LampShapedEntry(ceiling2, 2700, 6500);
  }

  /** `myDevices` holds the same five devices, in the same order, under their display names. */
  lemma MyDevicesAgree()
    ensures |myDevices| == |devices|
    ensures forall i :: 0 <= i < |devices| ==> myDevices[i].1 == devices[i].1
    ensures forall i :: 0 <= i < |devices| ==> myDevices[i].0 == devices[i].1.deviceName
  {
    MyDevicesKeyedByName();
  }
}
