/** `src/client.ts`: the TypeScript `GoveeClient` helpers; unlike the service, `setColor`
    takes the three channels separately and rejects any compared out of [0,255]. */
module Client {
  import opened Results
  import opened Js
  import opened ColorCodec
  import opened Control
  import ApiService

  function TurnDevice(net: Network, device: string, sku: string, power: bool): (t: Trace)
    ensures t.sent == [Payload(sku, device, Command(OnOffType, PowerInstance, if power then 1 else 0))]
  {
    ControlDevice(net, device, sku, Command(OnOffType, PowerInstance, if power then 1 else 0))
  }

  function SetBrightness(net: Network, device: string, sku: string, brightness: int): (t: Trace)
    ensures |t.sent| > 0 <==> 1 <= brightness <= 100
    ensures t.sent == [] ==> t.outcome == Fail(BrightnessOutOfRange(1, 100))
  {
    if brightness < 1 || brightness > 100 then Refuse(BrightnessOutOfRange(1, 100))
    else ControlDevice(net, device, sku, Command(RangeType, BrightnessInstance, brightness))
  }

  /** `setColor(device, sku, r, g, b)`: `[r, g, b].some(v => v < 0 || v > 255)` throws before
      any request (a NaN channel compares false and is let through). */
  function SetColor(net: Network, device: string, sku: string, r: Number, g: Number, b: Number): (t: Trace)
    ensures |t.sent| > 0 <==> !ComparesOutOfRange(r) && !ComparesOutOfRange(g) && !ComparesOutOfRange(b)
    ensures t.sent == [] ==> t.outcome == Fail(RgbOutOfRange)
    ensures t.sent != [] ==> t.sent[0].capability == Command(ColorSettingType, ColorRgbInstance, PackRgb(Channels(r, g, b)))
  {
    if ComparesOutOfRange(r) || ComparesOutOfRange(g) || ComparesOutOfRange(b) then Refuse(RgbOutOfRange)
    else ControlDevice(net, device, sku, Command(ColorSettingType, ColorRgbInstance, PackRgb(Channels(r, g, b))))
  }

  function SetColorTemperature(net: Network, device: string, sku: string, temperature: int): (t: Trace)
    ensures t.sent == [Payload(sku, device, Command(ColorSettingType, ColorTemperatureInstance, temperature))]
  {
    ControlDevice(net, device, sku, Command(ColorSettingType, ColorTemperatureInstance, temperature))
  }

  /** The TypeScript client and the service build the same requests, except that `setColor`
      here refuses channels the service would pack. */
  lemma AgreesWithService(net: Network, device: string, sku: string, power: bool, level: int, r: Number, g: Number, b: Number)
    ensures TurnDevice(net, device, sku, power) == ApiService.TurnDevice(net, device, sku, power)
    ensures SetBrightness(net, device, sku, level) == ApiService.SetBrightness(net, device, sku, level)
    ensures SetColorTemperature(net, device, sku, level) == ApiService.SetColorTemperature(net, device, sku, level)
    ensures !ComparesOutOfRange(r) && !ComparesOutOfRange(g) && !ComparesOutOfRange(b) ==>
              SetColor(net, device, sku, r, g, b) == ApiService.SetColor(net, device, sku, Channels(r, g, b))
  {
  }

  /** Every colour this client sends for numeric channels is a 24-bit value whose bytes are the channels. */
  lemma SentColorIsPacked(net: Network, device: string, sku: string, c: Rgb)
    requires |SetColor(net, device, sku, Int(c.r), Int(c.g), Int(c.b)).sent| > 0
    ensures var v := SetColor(net, device, sku, Int(c.r), Int(c.g), Int(c.b)).sent[0].capability.value;
      ValidRgb(c) && 0 <= v <= 0xFF_FFFF && Unpack(v) == c
  {
    PackRgbValue(c);
    UnpackPack(c);
  }
}
