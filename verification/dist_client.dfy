/** `dist/client.js`: the compiled `GoveeClient`; `setColor` takes an `{r, g, b}` object
    and packs it with no range check. */
module DistClient {
  import opened Results
  import opened Js
  import opened ColorCodec
  import opened Control
  import ApiService

  function TurnDevice(net: Network, device: string, sku: string, power: bool): (t: Trace)
    ensures t.sent == [Payload(sku, device, Command(OnOffType, PowerInstance, if power then 1 else 0))]
  {
    ControlDevice(net, device, sku, Command(OnOffType, PowerInstance, if power then 1 else 0))
  }

  function SetBrightness(net: Network, device: string, sku: string, brightness: int): (t: Trace)
    ensures |t.sent| > 0 <==> 1 <= brightness <= 100
    ensures t.sent == [] ==> t.outcome == Fail(BrightnessOutOfRange(1, 100))
  {
    if brightness < 1 || brightness > 100 then Refuse(BrightnessOutOfRange(1, 100))
    else ControlDevice(net, device, sku, Command(RangeType, BrightnessInstance, brightness))
  }

  function SetColor(net: Network, device: string, sku: string, color: Channels): (t: Trace)
    ensures t.sent == [Payload(sku, device, Command(ColorSettingType, ColorRgbInstance, PackRgb(color)))]
  {
    ControlDevice(net, device, sku, Command(ColorSettingType, ColorRgbInstance, PackRgb(color)))
  }

  function SetColorTemperature(net: Network, device: string, sku: string, temperature: int): (t: Trace)
    ensures t.sent == [Payload(sku, device, Command(ColorSettingType, ColorTemperatureInstance, temperature))]
  {
    ControlDevice(net, device, sku, Command(ColorSettingType, ColorTemperatureInstance, temperature))
  }

  /** The compiled client builds exactly the requests of the service, for every input. */
  lemma AgreesWithService(net: Network, device: string, sku: string, power: bool, level: int, color: Channels)
    ensures TurnDevice(net, device, sku, power) == ApiService.TurnDevice(net, device, sku, power)
    ensures SetBrightness(net, device, sku, level) == ApiService.SetBrightness(net, device, sku, level)
    ensures SetColor(net, device, sku, color) == ApiService.SetColor(net, device, sku, color)
    ensures SetColorTemperature(net, device, sku, level) == ApiService.SetColorTemperature(net, device, sku, level)
  {
  }

  /** With no range check, an out-of-range channel is sent: r = 256 wraps into the next byte. */
  lemma UncheckedChannelSent(net: Network, device: string, sku: string)
    ensures SetColor(net, device, sku, Channels(Int(256), Int(0), Int(0))).sent[0].capability.value == 0x100_0000
  {
    Pow2Values();
    OrBitsZero(0x100_0000, 32);
  }
}
