/** `src/services/GoveeControlService.ts`: a validation layer over the API service
    (`GoveeControlService`), and exported wrappers that resolve a registry identifier
    from `src/config/devices.ts` first. */
module ControlService {
  import opened Results
  import opened Js
  import opened ColorCodec
  import opened Types
  import opened Lookups
  import opened Control
  import opened Constants
  import ApiService
  import ConfigDevices

  // ---------------------------------------------------------------- the class

  function TurnDevice(net: Network, d: Device, power: bool): (t: Trace)
    ensures t.sent == [Payload(d.sku, d.device, Command(OnOffType, PowerInstance, if power then 1 else 0))]
  {
    ApiService.TurnDevice(net, d.device, d.sku, power)
  }

  /** The class's [0,100] check, then the API's own [1,100] check. */
  function SetDeviceBrightness(net: Network, d: Device, brightness: int): (t: Trace)
    ensures !(MinBrightness <= brightness <= MaxBrightness) ==> t == Refuse(BrightnessOutOfRange(MinBrightness, MaxBrightness))
    ensures MinBrightness <= brightness <= MaxBrightness ==> t == ApiService.SetBrightness(net, d.device, d.sku, brightness)
  {
    if brightness < MinBrightness || brightness > MaxBrightness then Refuse(BrightnessOutOfRange(MinBrightness, MaxBrightness))
    else ApiService.SetBrightness(net, d.device, d.sku, brightness)
  }

  /** `Object.values(color).some(v => v < 0 || v > 255)`. */
  predicate SomeComparesOutOfRange(c: Channels)
  {
    ComparesOutOfRange(c.r) || ComparesOutOfRange(c.g) || ComparesOutOfRange(c.b)
  }

  function SetDeviceColor(net: Network, d: Device, color: Channels): (t: Trace)
    ensures SomeComparesOutOfRange(color) ==> t == Refuse(RgbOutOfRange)
    ensures !SomeComparesOutOfRange(color) ==> t == ApiService.SetColor(net, d.device, d.sku, color)
  {
    if SomeComparesOutOfRange(color) then Refuse(RgbOutOfRange)
    else ApiService.SetColor(net, d.device, d.sku, color)
  }

  /** The global [2000,9000] bound, whatever the device's own descriptor declares. */
  function SetDeviceColorTemperature(net: Network, d: Device, temperature: int): (t: Trace)
    ensures !(MinColorTemp <= temperature <= MaxColorTemp) ==> t == Refuse(TemperatureOutOfRange(MinColorTemp, MaxColorTemp))
    ensures MinColorTemp <= temperature <= MaxColorTemp ==> t == ApiService.SetColorTemperature(net, d.device, d.sku, temperature)
  {
    if temperature < MinColorTemp || temperature > MaxColorTemp then Refuse(TemperatureOutOfRange(MinColorTemp, MaxColorTemp))
    else ApiService.SetColorTemperature(net, d.device, d.sku, temperature)
  }

  // ---------------------------------------------------------------- the exported wrappers

  /** `devices[name]`, throwing "Device … not found" (without a key list) when absent. */
  function Find(name: string): Result<Device>
  {
    Resolve(ConfigDevices.devices, name, false)
  }

  /** The registry entry a known identifier names. */
  function Target(name: string): Device
    requires HasKey(ConfigDevices.devices, name)
  {
    Lookup(ConfigDevices.devices, name).value
  }

  function TurnOn(net: Network, name: string): (t: Trace)
    ensures t.sent != [] ==> (t.outcome.Pass? <==> Accepted(net, t.sent[0]))
    ensures !HasKey(ConfigDevices.devices, name) ==> t == Refuse(DeviceNotFound(name, None))
    ensures HasKey(ConfigDevices.devices, name) ==>
      t.sent == [Payload(Target(name).sku, Target(name).device, Command(OnOffType, PowerInstance, 1))]
  {
    match Find(name)
    case Err(e) => Refuse(e)
    case Ok(d) => TurnDevice(net, d, true)
  }

  function TurnOff(net: Network, name: string): (t: Trace)
    ensures t.sent != [] ==> (t.outcome.Pass? <==> Accepted(net, t.sent[0]))
    ensures !HasKey(ConfigDevices.devices, name) ==> t == Refuse(DeviceNotFound(name, None))
    ensures HasKey(ConfigDevices.devices, name) ==>
      t.sent == [Payload(Target(name).sku, Target(name).device, Command(OnOffType, PowerInstance, 0))]
  {
    match Find(name)
    case Err(e) => Refuse(e)
    case Ok(d) => TurnDevice(net, d, false)
  }

  function SetBrightness(net: Network, name: string, brightness: int): (t: Trace)
    ensures t.sent != [] ==> (t.outcome.Pass? <==> Accepted(net, t.sent[0]))
    ensures !HasKey(ConfigDevices.devices, name) ==> t == Refuse(DeviceNotFound(name, None))
    ensures t.sent != [] <==> HasKey(ConfigDevices.devices, name) && 1 <= brightness <= 100
    ensures t.sent != [] ==>
      t.sent == [Payload(Target(name).sku, Target(name).device, Command(RangeType, BrightnessInstance, brightness))]
  {
    match Find(name)
    case Err(e) => Refuse(e)
    case Ok(d) => SetDeviceBrightness(net, d, brightness)
  }

  /** `setColor(name, hexColor)`: decode characters 0–1, 2–3, 4–5 after the first "#" with
      `parseInt(…, 16)`, then the class's range check (through which NaN slips). */
  function SetColor(net: Network, name: string, hexColor: string): (t: Trace)
    ensures |t.sent| == (if HasKey(ConfigDevices.devices, name) && !SomeComparesOutOfRange(DecodeHex(hexColor)) then 1 else 0)
    ensures t.sent != [] ==>
      t.sent == [Payload(Target(name).sku, Target(name).device, Command(ColorSettingType, ColorRgbInstance, PackRgb(DecodeHex(hexColor))))]
    ensures t.sent != [] ==> (t.outcome.Pass? <==> Accepted(net, t.sent[0]))
  {
    match Find(name)
    case Err(e) => Refuse(e)
    case Ok(d) => SetDeviceColor(net, d, DecodeHex(hexColor))
  }

  function SetColorTemperature(net: Network, name: string, temperature: int): (t: Trace)
    ensures t.sent != [] ==> (t.outcome.Pass? <==> Accepted(net, t.sent[0]))
    ensures !HasKey(ConfigDevices.devices, name) ==> t == Refuse(DeviceNotFound(name, None))
    ensures t.sent != [] <==> HasKey(ConfigDevices.devices, name) && MinColorTemp <= temperature <= MaxColorTemp
    ensures t.sent != [] ==>
      t.sent == [Payload(Target(name).sku, Target(name).device, Command(ColorSettingType, ColorTemperatureInstance, temperature))]
  {
    match Find(name)
    case Err(e) => Refuse(e)
    case Ok(d) => SetDeviceColorTemperature(net, d, temperature)
  }

  /** `workMode` throws "Work mode not implemented". */
  function WorkMode(): (t: Trace)
    ensures t.sent == [] && t.outcome.Fail?
  {
    Refuse(NotImplemented("Work mode"))
  }

  /** `saveCurrentStates` throws "Save states not implemented". */
  function SaveCurrentStates(): (t: Trace)
    ensures t.sent == [] && t.outcome.Fail?
  {
    Refuse(NotImplemented("Save states"))
  }

  // ---------------------------------------------------------------- properties

  /** Every wrapper rejects an unknown identifier before any request. */
  lemma UnknownNameRejected(net: Network, name: string, level: int, hexColor: string)
    requires !HasKey(ConfigDevices.devices, name)
    ensures TurnOn(net, name) == Refuse(DeviceNotFound(name, None))
    ensures TurnOff(net, name) == Refuse(DeviceNotFound(name, None))
    ensures SetBrightness(net, name, level) == Refuse(DeviceNotFound(name, None))
    ensures SetColor(net, name, hexColor) == Refuse(DeviceNotFound(name, None))
    ensures SetColorTemperature(net, name, level) == Refuse(DeviceNotFound(name, None))
  {
  }

  /** The stacked checks: [0,100] here over [1,100] in the API accept exactly [1,100];
      0 passes the first check and is refused by the second. */
  lemma BrightnessStack(name: string, brightness: int)
    requires HasKey(ConfigDevices.devices, name)
    ensures SetBrightness(Accepting(), name, brightness).outcome.Pass? <==> 1 <= brightness <= 100
    ensures SetBrightness(Accepting(), name, 0) == Refuse(BrightnessOutOfRange(1, 100))
  {
  }

  /** The temperature bound is the global one: with a network that accepts everything a
      known device takes exactly [2000,9000], so 7000 is sent to the cylinder lamp even
      though its descriptor stops at 6500. */
  lemma TemperatureGlobalBound(name: string, temperature: int)
    requires HasKey(ConfigDevices.devices, name)
    ensures SetColorTemperature(Accepting(), name, temperature).outcome.Pass? <==> 2000 <= temperature <= 9000
    ensures SetColorTemperature(Accepting(), "cylinderFloorLamp", 7000).outcome.Pass?
  {
    ConfigDevices.DescriptorRanges();
    assert ConfigDevices.devices[1].0 == "cylinderFloorLamp";
  }

  /** A colour that decodes to channels in [0,255] is sent as its packed value. */
  lemma SetColorSendsDecoded(net: Network, name: string, hexColor: string, c: Rgb)
    requires HasKey(ConfigDevices.devices, name) && ValidRgb(c) && DecodeHex(hexColor) == FromRgb(c)
    ensures |SetColor(net, name, hexColor).sent| == 1
    ensures SetColor(net, name, hexColor).sent[0].capability.value == PackedValue(c)
  {
    assert !SomeComparesOutOfRange(DecodeHex(hexColor));
    PackRgbValue(c);
  }

  // ---------------------------------------------------------------- the NaN channel

  lemma ParseNonDigits()
    ensures ParseInt("zz", Hexadecimal) == NaN
  {
    assert !IsJsSpace('z');
    assert TrimStart("zz") == "zz";
    assert !IsDigit('z', 16);
    assert DigitPrefixLength("zz", 16) == 0;
  }

  lemma DecodeNonDigits()
    ensures DecodeHex("#zzzzzz") == Channels(NaN, NaN, NaN)
  {
    var hex := RemoveFirst("#zzzzzz", '#');
    assert hex == "zzzzzz";
    assert Substring(hex, 0, 2) == "zz" && Substring(hex, 2, 4) == "zz" && Substring(hex, 4, 6) == "zz";
    ParseNonDigits();
  }

  /** Three NaN channels pass the comparison check and are packed as 0. */
  lemma NaNChannelsSentAsZero(net: Network, name: string, hexColor: string)
    requires HasKey(ConfigDevices.devices, name) && DecodeHex(hexColor) == Channels(NaN, NaN, NaN)
    ensures |SetColor(net, name, hexColor).sent| == 1
    ensures SetColor(net, name, hexColor).sent[0].capability.value == 0
  {
    Pow2Values();
    OrBitsZero(0, 32);
  }

  /** As written, a colour with non-hex digits decodes to NaN channels, which no comparison
      rejects, and `NaN << 16 | NaN << 8 | NaN` sends 0 (black) to a known device. */
  lemma NaNColourSentAsBlack(net: Network)
    ensures |SetColor(net, "deskBulb", "#zzzzzz").sent| == 1
    ensures SetColor(net, "deskBulb", "#zzzzzz").sent[0].capability.value == 0
  {
    DecodeNonDigits();
    assert ConfigDevices.devices[2].0 == "deskBulb";
    NaNChannelsSentAsZero(net, "deskBulb", "#zzzzzz");
  }

  /** The range check with NaN rejected, then the API's `setColor`. */
  function SetDeviceColorChecked(net: Network, d: Device, c: Channels): (t: Trace)
    ensures t.sent != [] <==> DecodesToRgb(c)
    ensures t.sent != [] ==> t.sent == [Payload(d.sku, d.device, Command(ColorSettingType, ColorRgbInstance, PackedValue(DecodedRgb(c))))]
    ensures !DecodesToRgb(c) ==> t == Refuse(RgbOutOfRange)
  {
    if !DecodesToRgb(c) then Refuse(RgbOutOfRange)
    else
      PackRgbValue(DecodedRgb(c));
      ApiService.SetColor(net, d.device, d.sku, c)
  }

  /** The evidently intended `setColor`: a NaN channel is rejected too, as the compiled facade does. */
  function SetColorChecked(net: Network, name: string, hexColor: string): (t: Trace)
    ensures t.sent != [] <==> HasKey(ConfigDevices.devices, name) && DecodesToRgb(DecodeHex(hexColor))
    ensures t.sent != [] ==> |t.sent| == 1 && t.sent[0].capability.value == PackedValue(DecodedRgb(DecodeHex(hexColor)))
  {
    match Find(name)
    case Err(e) => Refuse(e)
    case Ok(d) => SetDeviceColorChecked(net, d, DecodeHex(hexColor))
  }

  /** With the NaN check, every string the hex-entry prompt accepts is sent. */
  lemma SetColorCheckedAcceptsPattern(net: Network, name: string, s: string)
    requires HasKey(ConfigDevices.devices, name) && MatchesHexPattern(s)
    ensures |SetColorChecked(net, name, s).sent| == 1
  {
    DecodeMatchedPattern(s);
  }
}
