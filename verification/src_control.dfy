/** `src/goveeControl.ts`: the TypeScript facade over `src/client.ts` and `src/devices.ts`.
    Only `turnOn` checks the name; the other facades dereference `devices[name]` directly,
    so an unknown name fails with a TypeError before any request. The colour-temperature
    check looks for a descriptor no registered device declares, and `workMode` names its
    devices by display name, which no registry key is. */
module SrcControl {
  import opened Results
  import opened Js
  import opened ColorCodec
  import opened Types
  import opened Lookups
  import opened Control
  import Client
  import SrcDevices

  /** The device a known name resolves to. */
  function Target(name: string): Device
    requires HasKey(SrcDevices.devices, name)
  {
    Lookup(SrcDevices.devices, name).value
  }

  /** `devices[deviceName]` used without a check: reading a field of `undefined` throws. */
  function Deref(name: string): (r: Result<Device>)
    ensures r.Ok? <==> HasKey(SrcDevices.devices, name)
    ensures r.Ok? ==> r.value == Target(name)
    ensures r.Err? ==> r.error == UndefinedDevice(name)
  {
    match Lookup(SrcDevices.devices, name)
    case None => Err(UndefinedDevice(name))
    case Some(d) => Ok(d)
  }

  function TurnOff(net: Network, name: string): (t: Trace)
    ensures !HasKey(SrcDevices.devices, name) ==> t == Refuse(UndefinedDevice(name))
    ensures HasKey(SrcDevices.devices, name) ==>
      t.sent == [Payload(Target(name).sku, Target(name).device, Command(OnOffType, PowerInstance, 0))]
    ensures t.sent != [] ==> (t.outcome.Pass? <==> Accepted(net, t.sent[0]))
  {
    match Deref(name)
    case Err(e) => Refuse(e)
    case Ok(d) => Client.TurnDevice(net, d.device, d.sku, false)
  }

  /** The one facade that checks the name, throwing "Device … not found. Available devices: …". */
  function TurnOn(net: Network, name: string): (t: Trace)
    ensures !HasKey(SrcDevices.devices, name) ==> t == Refuse(DeviceNotFound(name, Some(Keys(SrcDevices.devices))))
    ensures HasKey(SrcDevices.devices, name) ==>
      t.sent == [Payload(Target(name).sku, Target(name).device, Command(OnOffType, PowerInstance, 1))]
    ensures t.sent != [] ==> (t.outcome.Pass? <==> Accepted(net, t.sent[0]))
  {
    match Resolve(SrcDevices.devices, name, true)
    case Err(e) => Refuse(e)
    case Ok(d) => Client.TurnDevice(net, d.device, d.sku, true)
  }

  /** No check of its own: the client's [1,100] check applies. */
  function SetBrightness(net: Network, name: string, brightness: int): (t: Trace)
    ensures !HasKey(SrcDevices.devices, name) ==> t == Refuse(UndefinedDevice(name))
    ensures t.sent != [] <==> HasKey(SrcDevices.devices, name) && 1 <= brightness <= 100
    ensures t.sent != [] ==>
      t.sent == [Payload(Target(name).sku, Target(name).device, Command(RangeType, BrightnessInstance, brightness))]
    ensures t.sent != [] ==> (t.outcome.Pass? <==> Accepted(net, t.sent[0]))
  {
    match Deref(name)
    case Err(e) => Refuse(e)
    case Ok(d) => Client.SetBrightness(net, d.device, d.sku, brightness)
  }

  /** The channels go to the client, which refuses one compared outside [0,255]. */
  function SetColor(net: Network, name: string, r: Number, g: Number, b: Number): (t: Trace)
    ensures !HasKey(SrcDevices.devices, name) ==> t == Refuse(UndefinedDevice(name))
    ensures t.sent != [] <==>
      HasKey(SrcDevices.devices, name) && !ComparesOutOfRange(r) && !ComparesOutOfRange(g) && !ComparesOutOfRange(b)
    ensures t.sent != [] ==>
      t.sent == [Payload(Target(name).sku, Target(name).device, Command(ColorSettingType, ColorRgbInstance, PackRgb(Channels(r, g, b))))]
  {
    match Deref(name)
    case Err(e) => Refuse(e)
    case Ok(d) =>
      var t := Client.SetColor(net, d.device, d.sku, r, g, b);
      assert t.sent != [] ==> t.sent == [Payload(d.sku, d.device, t.sent[0].capability)];
      t
  }

  /** The descriptor `setColorTemperature` consults: an INTEGER `(color_setting, colorTemperatureK)`
      descriptor with a range. */
  function TemperatureDescriptor(d: Device): Option<Range>
  {
    IntegerRange(FindCapability(d.capabilities, ColorSettingType, ColorTemperatureInstance))
  }

  /** `setColorTemperature(deviceName, temperature)` as written: the range check runs only
      when that descriptor is present. */
  function SetColorTemperature(net: Network, name: string, temperature: int): (t: Trace)
    ensures !HasKey(SrcDevices.devices, name) ==> t == Refuse(UndefinedDevice(name))
    ensures HasKey(SrcDevices.devices, name) && TemperatureDescriptor(Target(name)).Some? ==>
      var rg := TemperatureDescriptor(Target(name)).value;
      (t.sent != [] <==> rg.min <= temperature <= rg.max)
    ensures HasKey(SrcDevices.devices, name) && TemperatureDescriptor(Target(name)).None? ==>
      t.sent == [Payload(Target(name).sku, Target(name).device, Command(ColorSettingType, ColorTemperatureInstance, temperature))]
  {
    match Deref(name)
    case Err(e) => Refuse(e)
    case Ok(d) =>
      match TemperatureDescriptor(d)
      case Some(rg) =>
        if temperature < rg.min || temperature > rg.max then Refuse(TemperatureOutOfRange(rg.min, rg.max))
        else Client.SetColorTemperature(net, d.device, d.sku, temperature)
      case None => Client.SetColorTemperature(net, d.device, d.sku, temperature)
  }

  /** `getDeviceCapabilities(deviceName)`: the descriptors keyed by "type.instance"; an unknown
      name throws on `device.capabilities`. */
  function GetDeviceCapabilities(name: string): (r: Result<map<string, CapInfo>>)
    ensures r.Ok? <==> HasKey(SrcDevices.devices, name)
    ensures r.Err? ==> r.error == UndefinedDevice(name)
    ensures r.Ok? ==> IndexesCapabilities(Target(name).capabilities, r.value)
  {
    match Deref(name)
    case Err(e) => Err(e)
    case Ok(d) =>
      CapabilityIndexDescribed(d.capabilities);
      Ok(CapabilityIndex(d.capabilities))
  }

  // ---------------------------------------------------------------- facade properties

  /** A registry key resolves to its own entry. */
  lemma TargetAt(i: nat)
    requires i < |SrcDevices.devices|
    ensures HasKey(SrcDevices.devices, SrcDevices.devices[i].0)
    ensures Target(SrcDevices.devices[i].0) == SrcDevices.devices[i].1
  {
    SrcDevices.RegistryKeys();
  }

  /** An unknown name: `turnOn` throws the listing error, every other facade the TypeError of
      reading a field of `undefined`, and none sends anything. */
  lemma UnknownNameRejected(net: Network, name: string, level: int, r: Number, g: Number, b: Number)
    requires !HasKey(SrcDevices.devices, name)
    ensures TurnOn(net, name) == Refuse(DeviceNotFound(name, Some(["rgbicFloorLamp", "cylinderFloorLamp", "deskBulb", "ceiling1", "ceiling2"])))
    ensures TurnOff(net, name) == Refuse(UndefinedDevice(name))
    ensures SetBrightness(net, name, level) == Refuse(UndefinedDevice(name))
    ensures SetColor(net, name, r, g, b) == Refuse(UndefinedDevice(name))
    ensures SetColorTemperature(net, name, level) == Refuse(UndefinedDevice(name))
    ensures GetDeviceCapabilities(name) == Err(UndefinedDevice(name))
  {
    SrcDevices.RegistryKeys();
  }

  /** A known device is indexed under exactly its three descriptor keys. */
  lemma CapabilityKeys(i: nat)
    requires i < |SrcDevices.devices|
    ensures GetDeviceCapabilities(SrcDevices.devices[i].0).Ok?
    ensures GetDeviceCapabilities(SrcDevices.devices[i].0).value.Keys == {"powerSwitch.1", "brightness.1", "colorTemperature.1"}
  {
    TargetAt(i);
    var caps := SrcDevices.devices[i].1.capabilities;
    var minK, maxK := if i == 0 then 2000 else if i == 1 then 2200 else 2700, if i == 0 then 9000 else 6500;
    assert caps == LampCapabilities(minK, maxK);
    LampIndexKeys(minK, maxK);
  }

  lemma LampIndexKeys(minK: int, maxK: int)
    ensures CapabilityIndex(LampCapabilities(minK, maxK)).Keys == {"powerSwitch.1", "brightness.1", "colorTemperature.1"}
  {
    var caps := LampCapabilities(minK, maxK);
    assert caps[..1] == [caps[0]] && [caps[0]][..0] == [];
    assert CapabilityIndex([caps[0]]).Keys == {CapKey(caps[0])};
    assert caps[..2][..1] == [caps[0]];
    assert CapabilityIndex(caps[..2]).Keys == {CapKey(caps[0]), CapKey(caps[1])};
    assert caps[..3 - 1] == caps[..2];
    assert CapabilityIndex(caps).Keys == {CapKey(caps[0]), CapKey(caps[1]), CapKey(caps[2])};
    assert CapKey(caps[0]) == "powerSwitch" + "." + "1" == "powerSwitch.1";
    assert CapKey(caps[1]) == "brightness" + "." + "1" == "brightness.1";
    assert CapKey(caps[2]) == "colorTemperature" + "." + "1" == "colorTemperature.1";
  }

  // ---------------------------------------------------------------- the temperature lookup

  /** No registered device declares a `color_setting` descriptor, so the lookup never matches. */
  lemma TemperatureLookupNeverMatches(i: nat)
    requires i < |SrcDevices.devices|
    ensures TemperatureDescriptor(SrcDevices.devices[i].1).None?
  {
    SrcDevices.DescriptorShapes();
    assert SrcDevices.LampShaped(SrcDevices.devices[i].1);
  }

  /** As written, every temperature reaches the network for every known device. */
  lemma TemperatureUnchecked(net: Network, name: string, temperature: int)
    requires HasKey(SrcDevices.devices, name)
    ensures SetColorTemperature(net, name, temperature).sent ==
      [Payload(Target(name).sku, Target(name).device, Command(ColorSettingType, ColorTemperatureInstance, temperature))]
  {
    SrcDevices.RegistryKeys();
    var i :| 0 <= i < |SrcDevices.devices| && SrcDevices.devices[i].0 == name;
    TargetAt(i);
    TemperatureLookupNeverMatches(i);
  }

  /** The cylinder lamp declares 2200–6500 K, yet 7000 K is sent to it. */
  lemma CylinderTakesOutOfRangeTemperature(net: Network)
    ensures SrcDevices.cylinderFloorLamp.capabilities == LampCapabilities(2200, 6500)
    ensures SetColorTemperature(net, "cylinderFloorLamp", 7000).sent ==
      [Payload("H6078", "10:32:D3:21:C5:C6:7A:63", Command(ColorSettingType, ColorTemperatureInstance, 7000))]
  {
    TargetAt(1);
    TemperatureUnchecked(net, "cylinderFloorLamp", 7000);
  }

  /** The evidently intended check: the device's own `("colorTemperature", "1")` range. */
  function SetColorTemperatureChecked(net: Network, name: string, temperature: int): (t: Trace)
    ensures !HasKey(SrcDevices.devices, name) ==> t == Refuse(UndefinedDevice(name))
    ensures HasKey(SrcDevices.devices, name) && DescriptorRange(Target(name), "colorTemperature").Some? ==>
      var rg := DescriptorRange(Target(name), "colorTemperature").value;
      (t.sent != [] <==> rg.min <= temperature <= rg.max)
    ensures t.sent != [] ==> HasKey(SrcDevices.devices, name)
    ensures t.sent != [] ==>
      t.sent == [Payload(Target(name).sku, Target(name).device, Command(ColorSettingType, ColorTemperatureInstance, temperature))]
    ensures t.sent != [] ==> (t.outcome.Pass? <==> Accepted(net, t.sent[0]))
  {
    match Deref(name)
    case Err(e) => Refuse(e)
    case Ok(d) =>
      match DescriptorRange(d, "colorTemperature")
      case Some(rg) =>
        if temperature < rg.min || temperature > rg.max then Refuse(TemperatureOutOfRange(rg.min, rg.max))
        else Client.SetColorTemperature(net, d.device, d.sku, temperature)
      case None => Client.SetColorTemperature(net, d.device, d.sku, temperature)
  }

  /** With the intended check, 7000 K is refused for the cylinder lamp and sent to the RGBIC lamp. */
  lemma CheckedTemperaturePerDevice(net: Network)
    ensures SetColorTemperatureChecked(net, "cylinderFloorLamp", 7000) == Refuse(TemperatureOutOfRange(2200, 6500))
    ensures SetColorTemperatureChecked(net, "rgbicFloorLamp", 7000).sent != []
  {
    TargetAt(0);
    TargetAt(1);
    SrcDevices.TemperatureRanges();
  }

  // ---------------------------------------------------------------- workMode

  /** `workModeSettings` as written: display names. */
  const DisplaySettings: seq<Setting> := [
    Setting("Desk Bulb", 5000, 100),
    Setting("Ceiling 1", 4500, 80),
    Setting("Ceiling 2", 4500, 80)
  ]

  /** The loop body for one setting: `turnOn`, `setBrightness`, `setColorTemperature`. */
  function SettingSteps(net: Network, s: Setting): seq<Trace>
  {
    [TurnOn(net, s.device), SetBrightness(net, s.device, s.brightness), SetColorTemperature(net, s.device, s.colorTemp)]
  }

  function Steps(net: Network, settings: seq<Setting>): (steps: seq<Trace>)
    ensures |steps| == 3 * |settings|
  {
    if |settings| == 0 then [] else SettingSteps(net, settings[0]) + Steps(net, settings[1..])
  }

  /** `workMode()`: every step awaited in turn with no `catch`, so the first throw ends the run. */
  function WorkMode(net: Network): (t: Trace)
    ensures t.outcome.Pass? <==> AllPass(Steps(net, DisplaySettings))
  {
    Chain(Steps(net, DisplaySettings))
  }

  /** As written, the first `turnOn("Desk Bulb")` throws, so work mode sends nothing on any
      network. */
  lemma WorkModeSendsNothing(net: Network)
    ensures WorkMode(net) == Refuse(DeviceNotFound("Desk Bulb", Some(["rgbicFloorLamp", "cylinderFloorLamp", "deskBulb", "ceiling1", "ceiling2"])))
  {
    SrcDevices.RegistryKeys();
    var steps := Steps(net, DisplaySettings);
    assert steps[0] == TurnOn(net, "Desk Bulb");
  }

  /** The evidently intended settings: the same devices under their registry keys. */
  const KeySettings: seq<Setting> := [
    Setting("deskBulb", 5000, 100),
    Setting("ceiling1", 4500, 80),
    Setting("ceiling2", 4500, 80)
  ]

  /** The loop body with the intended temperature check. */
  function CheckedSettingSteps(net: Network, s: Setting): seq<Trace>
  {
    [TurnOn(net, s.device), SetBrightness(net, s.device, s.brightness), SetColorTemperatureChecked(net, s.device, s.colorTemp)]
  }

  function CheckedSteps(net: Network, settings: seq<Setting>): (steps: seq<Trace>)
    ensures |steps| == 3 * |settings|
  {
    if |settings| == 0 then [] else CheckedSettingSteps(net, settings[0]) + CheckedSteps(net, settings[1..])
  }

  function WorkModeByKey(net: Network): (t: Trace)
    ensures t.outcome.Pass? <==> AllPass(CheckedSteps(net, KeySettings))
  {
    Chain(CheckedSteps(net, KeySettings))
  }

  /** The three requests for a bulb: power on, brightness, temperature. */
  function BulbPayloads(d: Device, s: Setting): seq<Payload>
  {
    [Payload(d.sku, d.device, Command(OnOffType, PowerInstance, 1)),
     Payload(d.sku, d.device, Command(RangeType, BrightnessInstance, s.brightness)),
     Payload(d.sku, d.device, Command(ColorSettingType, ColorTemperatureInstance, s.colorTemp))]
  }

  /** The nine requests of the intended work mode, in order. */
  const KeyPayloads: seq<Payload> :=
    BulbPayloads(SrcDevices.deskBulb, KeySettings[0]) +
    BulbPayloads(SrcDevices.ceiling1, KeySettings[1]) +
    BulbPayloads(SrcDevices.ceiling2, KeySettings[2])

  /** The three bulbs declare 2700–6500 K. */
  lemma BulbRangeAt(j: nat)
    requires 2 <= j < 5
    ensures HasKey(SrcDevices.devices, SrcDevices.devices[j].0)
    ensures DescriptorRange(Target(SrcDevices.devices[j].0), "colorTemperature") == Some(Range(2700, 6500, 100))
  {
    TargetAt(j);
    assert SrcDevices.devices[j].1.capabilities == LampCapabilities(2700, 6500);
    LampDescriptors(2700, 6500);
  }

  /** A bulb setting whose brightness is in [1,100] and whose temperature lies in 2700–6500 K
      sends its three requests, each passing exactly when the network accepts it. */
  lemma BulbSettingSends(net: Network, j: nat, s: Setting)
    requires 2 <= j < 5 && s.device == SrcDevices.devices[j].0
    requires 1 <= s.brightness <= 100 && 2700 <= s.colorTemp <= 6500
    ensures AllSent(CheckedSettingSteps(net, s)) == BulbPayloads(SrcDevices.devices[j].1, s)
    ensures forall k :: 0 <= k < 3 ==>
      SendsExactly(net, CheckedSettingSteps(net, s)[k], BulbPayloads(SrcDevices.devices[j].1, s)[k])
  {
    TargetAt(j);
    BulbRangeAt(j);
    var steps := CheckedSettingSteps(net, s);
    var ps := BulbPayloads(SrcDevices.devices[j].1, s);
    StepSends(net, steps[0], ps[0]);
    StepSends(net, steps[1], ps[1]);
    StepSends(net, steps[2], ps[2]);
    ThreeSent(steps);
  }

  /** The intended steps are the three bulbs' steps back to back. */
  lemma KeyStepsSplit(net: Network)
    ensures CheckedSteps(net, KeySettings) ==
      CheckedSettingSteps(net, KeySettings[0]) + CheckedSettingSteps(net, KeySettings[1]) + CheckedSettingSteps(net, KeySettings[2])
  {
    var rest := KeySettings[1..];
    assert rest[1..][1..] == [];
  }

  /** All nine intended steps together send the nine requests in order. */
  lemma KeyStepsSend(net: Network)
    ensures AllSent(CheckedSteps(net, KeySettings)) == KeyPayloads
  {
    var a := CheckedSettingSteps(net, KeySettings[0]);
    var b := CheckedSettingSteps(net, KeySettings[1]);
    var c := CheckedSettingSteps(net, KeySettings[2]);
    BulbSettingSends(net, 2, KeySettings[0]);
    BulbSettingSends(net, 3, KeySettings[1]);
    BulbSettingSends(net, 4, KeySettings[2]);
    KeyStepsSplit(net);
    AllSentAppend(a + b, c);
    AllSentAppend(a, b);
  }

  /** Whatever the network answers, the intended work mode sends a prefix of the nine requests
      (desk bulb, ceiling 1, ceiling 2, each on, brightness, temperature) and finishes only
      after sending all of them. */
  lemma WorkModeByKeySends(net: Network)
    ensures WorkModeByKey(net).sent <= KeyPayloads
    ensures WorkModeByKey(net).outcome.Pass? ==> WorkModeByKey(net).sent == KeyPayloads
    ensures |KeyPayloads| == 9
  {
    KeyStepsSend(net);
    ChainSentIsPrefix(CheckedSteps(net, KeySettings));
  }

  /** A bulb setting passes all three steps on a network that accepts everything. */
  lemma BulbSettingPasses(j: nat, s: Setting)
    requires 2 <= j < 5 && s.device == SrcDevices.devices[j].0
    requires 1 <= s.brightness <= 100 && 2700 <= s.colorTemp <= 6500
    ensures AllPass(CheckedSettingSteps(Accepting(), s))
  {
    BulbSettingSends(Accepting(), j, s);
  }

  /** On a network that accepts everything the intended work mode finishes. */
  lemma WorkModeByKeyOnAccepting()
    ensures WorkModeByKey(Accepting()).outcome.Pass?
    ensures WorkModeByKey(Accepting()).sent == KeyPayloads
  {
    var net := Accepting();
    var a := CheckedSettingSteps(net, KeySettings[0]);
    var b := CheckedSettingSteps(net, KeySettings[1]);
    var c := CheckedSettingSteps(net, KeySettings[2]);
    BulbSettingPasses(2, KeySettings[0]);
    BulbSettingPasses(3, KeySettings[1]);
    BulbSettingPasses(4, KeySettings[2]);
    KeyStepsSplit(net);
    AllPassAppend(a, b);
    AllPassAppend(a + b, c);
    KeyStepsSend(net);
  }
}
