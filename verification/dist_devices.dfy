/** `dist/devices.js`: the registry the compiled facade reads; the three bulbs
    additionally declare `colorRgb`. */
module DistDevices {
  import opened Results
  import opened Types
  import opened Lookups
  import ConfigDevices

  const rgbicFloorLamp: Device := Device("47:0F:C7:33:36:31:67:51", "H6072", "RGBICWW Floor Lamp", LampCapabilities(2000, 9000))
  const cylinderFloorLamp: Device := Device("10:32:D3:21:C5:C6:7A:63", "H6078", "Cylinder Floor Lamp", LampCapabilities(2200, 6500))
  const deskBulb: Device := Device("DA:CA:D0:C9:07:E5:7D:1C", "H6008", "Desk Bulb", BulbCapabilities(2700, 6500))
  const ceiling1: Device := Device("5B:E7:D0:C9:07:D5:B6:D2", "H6008", "Ceiling 1", BulbCapabilities(2700, 6500))
  const ceiling2: Device := Device("F2:17:D0:C9:07:D6:00:92", "H6008", "Ceiling 2", BulbCapabilities(2700, 6500))

  const devices: Registry := [
    ("rgbicFloorLamp", rgbicFloorLamp),
    ("cylinderFloorLamp", cylinderFloorLamp),
    ("deskBulb", deskBulb),
    ("ceiling1", ceiling1),
    ("ceiling2", ceiling2)
  ]

  lemma RegistryKeys()
    ensures Keys(devices) == ["rgbicFloorLamp", "cylinderFloorLamp", "deskBulb", "ceiling1", "ceiling2"]
    ensures DistinctKeys(devices)
  {
  }

  /** A device's descriptors are well formed, pass `validateDevice`, and declare brightness 0–100
      and the given colour-temperature range; `colorRgb` 0–0xFFFFFF is declared iff `bulb`. */
  predicate Declares(d: Device, minK: int, maxK: int, bulb: bool)
  {
    && WellFormedDevice(d)
    && ConfigDevices.ValidateDevice(d).Pass?
    && DescriptorRange(d, "brightness") == Some(Range(0, 100, 1))
    && DescriptorRange(d, "colorTemperature") == Some(Range(minK, maxK, 100))
    && (bulb ==> DescriptorRange(d, "colorRgb") == Some(Range(0, 0xFF_FFFF, 1)))
    && (!bulb ==> FindCapability(d.capabilities, "colorRgb", "1").None?)
  }

  lemma ValidatesEntry(d: Device)
    requires d.capabilities == LampCapabilities(2000, 9000) || d.capabilities == LampCapabilities(2200, 6500)
          || d.capabilities == BulbCapabilities(2700, 6500)
    requires d.sku != "" && d.device != "" && d.deviceName != ""
    ensures ConfigDevices.ValidateDevice(d).Pass?
  {
    LampDescriptors(2000, 9000);
    LampDescriptors(2200, 6500);
    BulbDescriptors(2700, 6500);
  }

  lemma LampEntry(d: Device, minK: int, maxK: int)
    requires d.capabilities == LampCapabilities(minK, maxK) && minK <= maxK
    requires ConfigDevices.ValidateDevice(d).Pass?
    ensures Declares(d, minK, maxK, false)
  {
    LampDescriptors(minK, maxK);
    LampWellFormed(minK, maxK);
  }

  lemma BulbEntry(d: Device, minK: int, maxK: int)
    requires d.capabilities == BulbCapabilities(minK, maxK) && minK <= maxK
    requires ConfigDevices.ValidateDevice(d).Pass?
    ensures Declares(d, minK, maxK, true)
  {
    BulbDescriptors(minK, maxK);
    BulbWellFormed(minK, maxK);
  }

  /** The floor lamps declare 2000–9000 and 2200–6500 and no `colorRgb`; the three bulbs
      declare 2700–6500 and `colorRgb`. */
  lemma EntriesDeclare()
    ensures Declares(rgbicFloorLamp, 2000, 9000, false)
    ensures Declares(cylinderFloorLamp, 2200, 6500, false)
    ensures Declares(deskBulb, 2700, 6500, true)
    ensures Declares(ceiling1, 2700, 6500, true)
    ensures Declares(ceiling2, 2700, 6500, true)
  {
    ValidatesEntry(rgbicFloorLamp);
    ValidatesEntry(cylinderFloorLamp);
    ValidatesEntry(deskBulb);
    ValidatesEntry(ceiling1);
    ValidatesEntry(ceiling2);
    LampEntry(rgbicFloorLamp, 2000, 9000);
    LampEntry(cylinderFloorLamp, 2200, 6500);
    BulbEntry(deskBulb, 2700, 6500);
    BulbEntry(ceiling1, 2700, 6500);
    BulbEntry(ceiling2, 2700, 6500);
  }

  lemma ValidAt(i: nat)
    requires i < |devices|
    ensures ConfigDevices.ValidateDevice(devices[i].1).Pass?
  {
    ValidatesEntry(devices[i].1);
  }

  /** Every entry passes `validateDevice`. */
  lemma AllEntriesValid()
    ensures ConfigDevices.ValidateAll(devices) == Pass
  {
    forall i | 0 <= i < |devices| ensures ConfigDevices.ValidateDevice(devices[i].1).Pass? {
      ValidAt(i);
    }
  }
}
