/** `src/services/GoveeApiService.ts`: the helpers that turn an operation into one
    control request, with the brightness bound checked before anything is sent. */
module ApiService {
  import opened Results
  import opened Js
  import opened ColorCodec
  import opened Control

  /** `turnDevice`: power on/off becomes 1/0 on on_off/powerSwitch. */
  function TurnDevice(net: Network, device: string, sku: string, power: bool): (t: Trace)
    ensures t.sent == [Payload(sku, device, Command(OnOffType, PowerInstance, if power then 1 else 0))]
    ensures t.outcome.Pass? <==> net(t.sent[0]).code == 200 && HttpOk(net(t.sent[0]).status)
  {
    ControlDevice(net, device, sku, Command(OnOffType, PowerInstance, if power then 1 else 0))
  }

  /** `setBrightness`: a brightness outside [1,100] throws before any request. */
  function SetBrightness(net: Network, device: string, sku: string, brightness: int): (t: Trace)
    ensures |t.sent| > 0 <==> 1 <= brightness <= 100
    ensures t.sent == [] ==> t.outcome == Fail(BrightnessOutOfRange(1, 100))
    ensures t.sent != [] ==> t.sent == [Payload(sku, device, Command(RangeType, BrightnessInstance, brightness))]
  {
    if brightness < 1 || brightness > 100 then Refuse(BrightnessOutOfRange(1, 100))
    else ControlDevice(net, device, sku, Command(RangeType, BrightnessInstance, brightness))
  }

  /** `setColor`: the channels are packed with JavaScript's `(r << 16) | (g << 8) | b`, unchecked. */
  function SetColor(net: Network, device: string, sku: string, color: Channels): (t: Trace)
    ensures t.sent == [Payload(sku, device, Command(ColorSettingType, ColorRgbInstance, PackRgb(color)))]
  {
    ControlDevice(net, device, sku, Command(ColorSettingType, ColorRgbInstance, PackRgb(color)))
  }

  /** `setColorTemperature`: the temperature is forwarded as colorTemperatureK with no bound check. */
  function SetColorTemperature(net: Network, device: string, sku: string, temperature: int): (t: Trace)
    ensures t.sent == [Payload(sku, device, Command(ColorSettingType, ColorTemperatureInstance, temperature))]
  {
    ControlDevice(net, device, sku, Command(ColorSettingType, ColorTemperatureInstance, temperature))
  }

  /** On a network that accepts everything, `setBrightness` succeeds exactly on [1,100]. */
  lemma BrightnessAccepted(device: string, sku: string, brightness: int)
    ensures SetBrightness(Accepting(), device, sku, brightness).outcome.Pass? <==> 1 <= brightness <= 100
  {
  }

  /** For channels in [0,255] the packed value lies in [0,0xFFFFFF] and byte extraction
      recovers the channels. */
  lemma SetColorPacks(net: Network, device: string, sku: string, c: Rgb)
    requires ValidRgb(c)
    ensures var v := SetColor(net, device, sku, FromRgb(c)).sent[0].capability.value;
      v == PackedValue(c) && 0 <= v <= 0xFF_FFFF && Unpack(v) == c
  {
    PackRgbValue(c);
    UnpackPack(c);
  }

  /** A request fails when the HTTP status is not ok, and also when the status is ok but
      the embedded code is not 200. */
  lemma EmbeddedCodeChecked(device: string, sku: string, power: bool, message: string)
    ensures TurnDevice((p: Payload) => Reply(200, 400, message), device, sku, power).outcome == Fail(CommandFailed(400, message))
    ensures TurnDevice((p: Payload) => Reply(503, 200, message), device, sku, power).outcome == Fail(HttpError(503))
  {
  }
}
