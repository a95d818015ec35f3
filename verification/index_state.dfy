/** `src/index.ts`: `formatDeviceState`, which rejects a response without a capability
    list and reports the colour as the raw packed value, and `getDeviceState`, which
    checks the name against `src/devices.ts` before requesting the state. */
module IndexState {
  import opened Results
  import opened Types
  import opened Lookups
  import opened Control
  import SrcDevices
  import CliIdentify

  const OnlineType: string := "devices.capabilities.online"
  const OnlineInstance: string := "online"

  datatype Snapshot = Snapshot(
    power: bool,
    brightness: Option<Json>,
    colorTemp: Option<Json>,
    color: Option<Json>,
    online: Json)

  /** `value ?? false` (JSON `null` is not modelled, so only an absent value falls back). */
  function OrFalse(v: Option<Json>): (r: Json)
    ensures v.Some? ==> r == v.value
    ensures v.None? ==> r == JBool(false)
  {
    if v.Some? then v.value else JBool(false)
  }

  function FormatDeviceState(capabilities: Option<seq<StateEntry>>): (r: Result<Snapshot>)
    ensures r.Err? <==> capabilities.None?
    ensures r.Err? ==> r.error == InvalidStateResponse
    ensures r.Ok? ==>
      var entries := capabilities.value;
      && (r.value.power <==> IsOne(ReadState(entries, OnOffType, PowerInstance)))
      && r.value.brightness == ReadState(entries, RangeType, BrightnessInstance)
      && r.value.colorTemp == ReadState(entries, ColorSettingType, ColorTemperatureInstance)
      && r.value.color == ReadState(entries, ColorSettingType, ColorRgbInstance)
      && r.value.online == OrFalse(ReadState(entries, OnlineType, OnlineInstance))
  {
    match capabilities
    case None => Err(InvalidStateResponse)
    case Some(entries) =>
      Ok(Snapshot(
        IsOne(ReadState(entries, OnOffType, PowerInstance)),
        ReadState(entries, RangeType, BrightnessInstance),
        ReadState(entries, ColorSettingType, ColorTemperatureInstance),
        ReadState(entries, ColorSettingType, ColorRgbInstance),
        OrFalse(ReadState(entries, OnlineType, OnlineInstance))))
  }

  /** `getDeviceState(deviceName)`: the name check (listing every key), then one state request
      for that device's id and model; a failed request throws its HTTP status. */
  function GetDeviceState(fetch: StateFetch, name: string): (r: Result<Snapshot>)
    ensures !HasKey(SrcDevices.devices, name) ==> r == Err(DeviceNotFound(name, Some(Keys(SrcDevices.devices))))
  {
    match Resolve(SrcDevices.devices, name, true)
    case Err(e) => Err(e)
    case Ok(d) =>
      match fetch(d.device, d.sku)
      case FetchFailed(status) => Err(HttpError(status))
      case Fetched(capabilities) => FormatDeviceState(capabilities)
  }

  // ---------------------------------------------------------------- properties

  /** For a known name the answer is the decoding of the state reported for that device's
      id and model, looked up by key. */
  lemma KnownNameDecodesItsState(fetch: StateFetch, i: nat)
    requires i < |SrcDevices.devices|
    ensures var d := SrcDevices.devices[i].1;
      fetch(d.device, d.sku).Fetched? ==>
      GetDeviceState(fetch, SrcDevices.devices[i].0) == FormatDeviceState(fetch(d.device, d.sku).capabilities)
  {
    SrcDevices.RegistryKeys();
    var key := SrcDevices.devices[i].0;
    assert HasKey(SrcDevices.devices, key);
    assert Lookup(SrcDevices.devices, key) == Some(SrcDevices.devices[i].1);
  }

  /** Against the command-line decoder: power, brightness and colour temperature agree on
      every capability list; the colour is the raw value rather than a hex string, so a
      reported 0 stays 0 where the other decoder says white. */
  lemma AgreesWithCliDecoder(entries: seq<StateEntry>)
    ensures var mine := FormatDeviceState(Some(entries)).value;
      var cli := CliIdentify.FormatDeviceState(entries);
      && mine.power == cli.power
      && mine.brightness == cli.brightness
      && mine.colorTemp == cli.colorTemp
      && (mine.color == Some(JNum(0)) ==> cli.color == CliIdentify.White)
  {
  }
}
