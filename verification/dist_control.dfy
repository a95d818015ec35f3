/** `dist/goveeControl.js`: the compiled facade over `dist/client.js` and `dist/devices.js`.
    Every facade resolves the name first and, for an unknown one, throws an error listing
    every registry key; `setColor` rejects NaN channels too and records the colour only after
    a successful send; `setColorTemperature` checks the device's own descriptor range. */
module DistControl {
  import opened Results
  import opened Js
  import opened ColorCodec
  import opened Types
  import opened Lookups
  import opened Control
  import DistClient
  import DistDevices
  import ColorManager
  import DistColorManager
  import CliIdentify

  /** `devices[deviceName]`, throwing "Device … not found. Available devices: …" when absent. */
  function Find(name: string): (r: Result<Device>)
    ensures r.Ok? <==> HasKey(DistDevices.devices, name)
    ensures r.Ok? ==> Lookup(DistDevices.devices, name) == Some(r.value)
    ensures r.Err? ==> r.error == DeviceNotFound(name, Some(Keys(DistDevices.devices)))
  {
    Resolve(DistDevices.devices, name, true)
  }

  /** The device a known name resolves to. */
  function Target(name: string): Device
    requires HasKey(DistDevices.devices, name)
  {
    Find(name).value
  }

  function TurnOff(net: Network, name: string): (t: Trace)
    ensures t.sent != [] ==> (t.outcome.Pass? <==> Accepted(net, t.sent[0]))
    ensures HasKey(DistDevices.devices, name) ==>
      t.sent == [Payload(Target(name).sku, Target(name).device, Command(OnOffType, PowerInstance, 0))]
  {
    match Find(name)
    case Err(e) => Refuse(e)
    case Ok(d) => DistClient.TurnDevice(net, d.device, d.sku, false)
  }

  function TurnOn(net: Network, name: string): (t: Trace)
    ensures t.sent != [] ==> (t.outcome.Pass? <==> Accepted(net, t.sent[0]))
    ensures HasKey(DistDevices.devices, name) ==>
      t.sent == [Payload(Target(name).sku, Target(name).device, Command(OnOffType, PowerInstance, 1))]
  {
    match Find(name)
    case Err(e) => Refuse(e)
    case Ok(d) => DistClient.TurnDevice(net, d.device, d.sku, true)
  }

  /** No check of its own: the client's [1,100] check applies. */
  function SetBrightness(net: Network, name: string, brightness: int): (t: Trace)
    ensures t.sent != [] ==> (t.outcome.Pass? <==> Accepted(net, t.sent[0]))
    ensures t.sent != [] <==> HasKey(DistDevices.devices, name) && 1 <= brightness <= 100
    ensures t.sent != [] ==>
      t.sent == [Payload(Target(name).sku, Target(name).device, Command(RangeType, BrightnessInstance, brightness))]
  {
    match Find(name)
    case Err(e) => Refuse(e)
    case Ok(d) => DistClient.SetBrightness(net, d.device, d.sku, brightness)
  }

  /** The string recorded as the current colour: "#" and the input without its first "#". */
  function StoredColour(color: string): string
  {
    "#" + RemoveFirst(color, '#')
  }

  /** `setColor(deviceName, color)`: decode, reject NaN or out-of-range channels, send, and only
      then record the colour; a refused or failed send leaves the store as it was. */
  function SetColor(net: Network, store: ColorManager.Manager, name: string, color: string): (r: (Trace, ColorManager.Manager))
    ensures r.0.sent != [] <==> HasKey(DistDevices.devices, name) && DecodesToRgb(DecodeHex(color))
    ensures r.0.sent != [] ==> (r.0.outcome.Pass? <==> Accepted(net, r.0.sent[0]))
    ensures r.0.sent != [] ==> |r.0.sent| == 1 && r.0.sent[0].capability.value == PackedValue(DecodedRgb(DecodeHex(color)))
    ensures r.0.sent != [] ==>
      r.0.sent == [Payload(Target(name).sku, Target(name).device,
                           Command(ColorSettingType, ColorRgbInstance, PackedValue(DecodedRgb(DecodeHex(color)))))]
    ensures HasKey(DistDevices.devices, name) && !DecodesToRgb(DecodeHex(color)) ==> r.0 == Refuse(InvalidColor(color))
    ensures r.0.outcome.Fail? ==> r.1 == store
    ensures r.0.outcome.Pass? ==> r.1 == DistColorManager.SetCurrentColor(store, name, StoredColour(color))
  {
    match Find(name)
    case Err(e) => (Refuse(e), store)
    case Ok(d) =>
      var c := DecodeHex(color);
      if !DecodesToRgb(c) then (Refuse(InvalidColor(color)), store)
      else
        PackRgbValue(DecodedRgb(c));
        var t := DistClient.SetColor(net, d.device, d.sku, c);
        if t.outcome.Fail? then (t, store)
        else (t, DistColorManager.SetCurrentColor(store, name, StoredColour(color)))
  }

  /** The range of the device's `("colorTemperature", "1")` INTEGER descriptor, if it has one. */
  function TemperatureRange(d: Device): Option<Range>
  {
    DescriptorRange(d, "colorTemperature")
  }

  /** `setColorTemperature(deviceName, temperature)`: the device's own range when it declares
      one, no check otherwise. */
  function SetColorTemperature(net: Network, name: string, temperature: int): (t: Trace)
    ensures t.sent != [] ==> (t.outcome.Pass? <==> Accepted(net, t.sent[0]))
    ensures HasKey(DistDevices.devices, name) && TemperatureRange(Target(name)).Some? ==>
      var rg := TemperatureRange(Target(name)).value;
      (t.sent != [] <==> rg.min <= temperature <= rg.max)
    ensures HasKey(DistDevices.devices, name) && TemperatureRange(Target(name)).None? ==> t.sent != []
    ensures t.sent != [] ==> HasKey(DistDevices.devices, name)
    ensures t.sent != [] ==>
      t.sent == [Payload(Target(name).sku, Target(name).device, Command(ColorSettingType, ColorTemperatureInstance, temperature))]
  {
    match Find(name)
    case Err(e) => Refuse(e)
    case Ok(d) =>
      match TemperatureRange(d)
      case Some(rg) =>
        if temperature < rg.min || temperature > rg.max then Refuse(TemperatureOutOfRange(rg.min, rg.max))
        else DistClient.SetColorTemperature(net, d.device, d.sku, temperature)
      case None => DistClient.SetColorTemperature(net, d.device, d.sku, temperature)
  }

  /** `getDeviceCapabilities(deviceName)`: the descriptors keyed by "type.instance". */
  function GetDeviceCapabilities(name: string): (r: Result<map<string, CapInfo>>)
    ensures r.Err? ==> r == Err(DeviceNotFound(name, Some(Keys(DistDevices.devices))))
    ensures r.Ok? <==> HasKey(DistDevices.devices, name)
    ensures r.Ok? ==> IndexesCapabilities(Target(name).capabilities, r.value)
  {
    match Find(name)
    case Err(e) => Err(e)
    case Ok(d) =>
      CapabilityIndexDescribed(d.capabilities);
      Ok(CapabilityIndex(d.capabilities))
  }

  // ---------------------------------------------------------------- facade properties

  /** Every facade rejects an unknown name, listing every registry key, before any request. */
  lemma UnknownNameRejected(net: Network, store: ColorManager.Manager, name: string, level: int, color: string)
    requires !HasKey(DistDevices.devices, name)
    ensures var e := DeviceNotFound(name, Some(["rgbicFloorLamp", "cylinderFloorLamp", "deskBulb", "ceiling1", "ceiling2"]));
      && TurnOff(net, name) == Refuse(e)
      && TurnOn(net, name) == Refuse(e)
      && SetBrightness(net, name, level) == Refuse(e)
      && SetColor(net, store, name, color) == (Refuse(e), store)
      && SetColorTemperature(net, name, level) == Refuse(e)
      && GetDeviceCapabilities(name) == Err(e)
  {
    DistDevices.RegistryKeys();
  }

  /** The registry's i-th key resolves to the i-th device. */
  lemma TargetAt(i: nat)
    requires i < |DistDevices.devices|
    ensures HasKey(DistDevices.devices, DistDevices.devices[i].0)
    ensures Target(DistDevices.devices[i].0) == DistDevices.devices[i].1
  {
    DistDevices.RegistryKeys();
  }

  /** A colour produced by the picker's `rgbToHex` is decoded to its own channels and sent
      packed; after a successful send the store reads that same string back. */
  lemma PickerColourRoundTrip(net: Network, store: ColorManager.Manager, name: string, c: Rgb)
    requires HasKey(DistDevices.devices, name) && ValidRgb(c)
    ensures var r := SetColor(net, store, name, RgbToHex(c));
      && |r.0.sent| == 1 && r.0.sent[0].capability.value == PackedValue(c)
      && (r.0.outcome.Pass? ==> DistColorManager.GetCurrentColor(r.1, name) == Some(RgbToHex(c)))
  {
    OwnHex(c);
  }

  /** `rgbToHex` output decodes to its own channels and is stored unchanged. */
  lemma OwnHex(c: Rgb)
    requires ValidRgb(c)
    ensures DecodesToRgb(DecodeHex(RgbToHex(c))) && DecodedRgb(DecodeHex(RgbToHex(c))) == c
    ensures StoredColour(RgbToHex(c)) == RgbToHex(c)
  {
    DecodeRgbToHex(c);
    DecodedFromRgb(DecodeHex(RgbToHex(c)), c);
    HashPrefixStored(c);
  }

  lemma HashPrefixStored(c: Rgb)
    requires ValidRgb(c)
    ensures StoredColour(RgbToHex(c)) == RgbToHex(c)
  {
    RgbToHexShape(c);
    HashPrefixedStored(RgbToHex(c));
  }

  /** A string that starts with "#" is stored as it is. */
  lemma HashPrefixedStored(s: string)
    requires |s| > 0 && s[0] == '#'
    ensures StoredColour(s) == s
  {
    assert RemoveFirst(s, '#') == s[1..];
    assert s == [s[0]] + s[1..];
  }

  /** The temperature check follows each device's descriptor: 7000 is refused for the cylinder
      lamp (2200–6500) and accepted for the RGBIC lamp (2000–9000). */
  lemma TemperaturePerDevice(net: Network)
    ensures SetColorTemperature(net, "cylinderFloorLamp", 7000) == Refuse(TemperatureOutOfRange(2200, 6500))
    ensures SetColorTemperature(net, "rgbicFloorLamp", 7000).sent != []
  {
    TargetAt(0);
    TargetAt(1);
    LampDescriptors(2000, 9000);
    LampDescriptors(2200, 6500);
  }

  // ---------------------------------------------------------------- workMode

  const WorkModeSettings: seq<Setting> := [
    Setting("deskBulb", 3800, 100),
    Setting("ceiling1", 3800, 80),
    Setting("ceiling2", 3800, 80),
    Setting("cylinderFloorLamp", 3800, 80)
  ]

  /** The loop body for one setting: `turnOn`, `setBrightness`, `setColorTemperature`. */
  function SettingSteps(net: Network, s: Setting): seq<Trace>
  {
    [TurnOn(net, s.device), SetBrightness(net, s.device, s.brightness), SetColorTemperature(net, s.device, s.colorTemp)]
  }

  function Steps(net: Network, settings: seq<Setting>): (steps: seq<Trace>)
    ensures |steps| == 3 * |settings|
  {
    if |settings| == 0 then [] else SettingSteps(net, settings[0]) + Steps(net, settings[1..])
  }

  /** `workMode()`: every step in one `try`, so the first throw ends the whole run. */
  function WorkMode(net: Network): (t: Trace)
    ensures t.outcome.Pass? <==> AllPass(Steps(net, WorkModeSettings))
  {
    Chain(Steps(net, WorkModeSettings))
  }

  /** A setting no facade check refuses: a known name, a brightness in [1,100], and a
      temperature inside the device's declared range. */
  predicate Ready(s: Setting)
  {
    && HasKey(DistDevices.devices, s.device)
    && 1 <= s.brightness <= 100
    && (TemperatureRange(Target(s.device)).Some? ==>
          TemperatureRange(Target(s.device)).value.min <= s.colorTemp <= TemperatureRange(Target(s.device)).value.max)
  }

  predicate AllReady(settings: seq<Setting>)
  {
    forall i :: 0 <= i < |settings| ==> Ready(settings[i])
  }

  /** The three requests a ready setting sends: power on, brightness, temperature. */
  function SettingPayloads(s: Setting): seq<Payload>
    requires HasKey(DistDevices.devices, s.device)
  {
    var d := Target(s.device);
    [Payload(d.sku, d.device, Command(OnOffType, PowerInstance, 1)),
     Payload(d.sku, d.device, Command(RangeType, BrightnessInstance, s.brightness)),
     Payload(d.sku, d.device, Command(ColorSettingType, ColorTemperatureInstance, s.colorTemp))]
  }

  function AllPayloads(settings: seq<Setting>): seq<Payload>
    requires AllReady(settings)
  {
    if |settings| == 0 then [] else SettingPayloads(settings[0]) + AllPayloads(settings[1..])
  }

  /** A ready setting reaches the network three times, whatever the network answers, and
      passes on a network that accepts everything. */
  lemma SettingSends(net: Network, s: Setting)
    requires Ready(s)
    ensures AllSent(SettingSteps(net, s)) == SettingPayloads(s)
    ensures forall k :: 0 <= k < 3 ==> SettingSteps(net, s)[k].sent == [SettingPayloads(s)[k]]
    ensures forall k :: 0 <= k < 3 ==>
      (SettingSteps(net, s)[k].outcome.Pass? <==> Accepted(net, SettingPayloads(s)[k]))
  {
    var steps := SettingSteps(net, s);
    var ps := SettingPayloads(s);
    StepSends(net, steps[0], ps[0]);
    StepSends(net, steps[1], ps[1]);
    StepSends(net, steps[2], ps[2]);
    ThreeSent(steps);
  }

  lemma {:induction false} StepsSend(net: Network, settings: seq<Setting>)
    requires AllReady(settings)
    ensures AllSent(Steps(net, settings)) == AllPayloads(settings)
  {
    if |settings| > 0 {
      assert Ready(settings[0]);
      SettingSends(net, settings[0]);
      assert AllReady(settings[1..]) by {
        forall i | 0 <= i < |settings| - 1 ensures Ready(settings[1..][i]) {
          assert settings[1..][i] == settings[i + 1];
        }
      }
      StepsSend(net, settings[1..]);
      AllSentAppend(SettingSteps(net, settings[0]), Steps(net, settings[1..]));
    }
  }

  lemma {:induction false} StepsPassOnAccepting(settings: seq<Setting>)
    requires AllReady(settings)
    ensures AllPass(Steps(Accepting(), settings))
  {
    if |settings| > 0 {
      assert Ready(settings[0]);
      SettingSends(Accepting(), settings[0]);
      assert AllReady(settings[1..]) by {
        forall i | 0 <= i < |settings| - 1 ensures Ready(settings[1..][i]) {
          assert settings[1..][i] == settings[i + 1];
        }
      }
      StepsPassOnAccepting(settings[1..]);
      var a: seq<Trace> := SettingSteps(Accepting(), settings[0]);
      var b: seq<Trace> := Steps(Accepting(), settings[1..]);
      assert |a| == 3 && Accepted(Accepting(), SettingPayloads(settings[0])[0])
        && Accepted(Accepting(), SettingPayloads(settings[0])[1]) && Accepted(Accepting(), SettingPayloads(settings[0])[2]);
      assert AllPass(a);
      AllPassAppend(a, b);
      assert Steps(Accepting(), settings) == a + b;
    }
  }

  /** Every work-mode temperature (3800 K) lies inside its device's declared range, every
      name is a registry key and every brightness is in [1,100]. */
  lemma WorkModeSettingsReady()
    ensures AllReady(WorkModeSettings)
  {
    BulbReady(2, 100);
    BulbReady(3, 80);
    BulbReady(4, 80);
    CylinderReady();
    forall i | 0 <= i < |WorkModeSettings| ensures Ready(WorkModeSettings[i]) {
      if i == 0 {
        assert WorkModeSettings[i] == Setting(DistDevices.devices[2].0, 3800, 100);
      } else if i == 1 {
        assert WorkModeSettings[i] == Setting(DistDevices.devices[3].0, 3800, 80);
      } else if i == 2 {
        assert WorkModeSettings[i] == Setting(DistDevices.devices[4].0, 3800, 80);
      } else {
        assert WorkModeSettings[i] == Setting(DistDevices.devices[1].0, 3800, 80);
      }
    }
  }

  lemma ReadyAt(j: nat, s: Setting, rg: Range)
    requires j < |DistDevices.devices| && s.device == DistDevices.devices[j].0 && 1 <= s.brightness <= 100
    requires TemperatureRange(DistDevices.devices[j].1) == Some(rg) && rg.min <= s.colorTemp <= rg.max
    ensures Ready(s)
  {
    TargetAt(j);
  }

  /** The three bulbs declare 2700–6500 K, which holds 3800 K. */
  lemma BulbReady(j: nat, brightness: int)
    requires 2 <= j < 5 && 1 <= brightness <= 100
    ensures Ready(Setting(DistDevices.devices[j].0, 3800, brightness))
  {
    var d := DistDevices.devices[j].1;
    assert d.capabilities == BulbCapabilities(2700, 6500);
    BulbRange(d);
    ReadyAt(j, Setting(DistDevices.devices[j].0, 3800, brightness), Range(2700, 6500, 100));
  }

  lemma BulbRange(d: Device)
    requires d.capabilities == BulbCapabilities(2700, 6500)
    ensures TemperatureRange(d) == Some(Range(2700, 6500, 100))
  {
    BulbDescriptors(2700, 6500);
  }

  /** The cylinder lamp declares 2200–6500 K, which holds 3800 K. */
  lemma CylinderReady()
    ensures Ready(Setting(DistDevices.devices[1].0, 3800, 80))
  {
    LampDescriptors(2200, 6500);
    ReadyAt(1, Setting(DistDevices.devices[1].0, 3800, 80), Range(2200, 6500, 100));
  }

  /** Whatever the network answers, work mode sends a prefix of the twelve requests
      (on, brightness, temperature for desk bulb, ceiling 1, ceiling 2, cylinder lamp, in
      that order) and finishes only after sending all of them. */
  lemma WorkModeSendsInOrder(net: Network)
    ensures AllReady(WorkModeSettings)
    ensures |AllPayloads(WorkModeSettings)| == 12
    ensures WorkMode(net).sent <= AllPayloads(WorkModeSettings)
    ensures WorkMode(net).outcome.Pass? ==> WorkMode(net).sent == AllPayloads(WorkModeSettings)
  {
    WorkModeSettingsReady();
    StepsSend(net, WorkModeSettings);
    ChainSentIsPrefix(Steps(net, WorkModeSettings));
    assert |AllSent(Steps(net, WorkModeSettings))| == 12 by {
      assert |Steps(net, WorkModeSettings)| == 12;
      AllSentLength(net, WorkModeSettings);
    }
  }

  lemma {:induction false} AllSentLength(net: Network, settings: seq<Setting>)
    requires AllReady(settings)
    ensures |AllSent(Steps(net, settings))| == 3 * |settings|
  {
    StepsSend(net, settings);
    AllPayloadsLength(settings);
  }

  lemma {:induction false} AllPayloadsLength(settings: seq<Setting>)
    requires AllReady(settings)
    ensures |AllPayloads(settings)| == 3 * |settings|
  {
    if |settings| > 0 {
      assert AllReady(settings[1..]) by {
        forall i | 0 <= i < |settings| - 1 ensures Ready(settings[1..][i]) {
          assert settings[1..][i] == settings[i + 1];
        }
      }
      AllPayloadsLength(settings[1..]);
    }
  }

  /** On a network that accepts everything, work mode finishes after all twelve requests. */
  lemma WorkModeOnAccepting()
    ensures AllReady(WorkModeSettings)
    ensures WorkMode(Accepting()) == Trace(AllPayloads(WorkModeSettings), Pass)
  {
    WorkModeSettingsReady();
    StepsPassOnAccepting(WorkModeSettings);
    StepsSend(Accepting(), WorkModeSettings);
  }

  /** The first request of work mode: power on for the desk bulb. */
  const DeskBulbOn: Payload := Payload(DistDevices.deskBulb.sku, DistDevices.deskBulb.device, Command(OnOffType, PowerInstance, 1))

  /** When the first request (desk bulb power on) is turned down, work mode rethrows that
      failure having sent nothing else. */
  lemma WorkModeStopsAtFirstFailure(net: Network)
    requires !Accepted(net, DeskBulbOn)
    ensures WorkMode(net).sent == [DeskBulbOn] && WorkMode(net).outcome.Fail?
  {
    TargetAt(2);
    var first := TurnOn(net, "deskBulb");
    assert first.sent == [DeskBulbOn];
    var steps := Steps(net, WorkModeSettings);
    assert steps[0] == SettingSteps(net, WorkModeSettings[0])[0];
    assert steps[0] == first;
  }
}
