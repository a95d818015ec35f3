/** The state readers of `dist/goveeControl.js`: `getCurrentDeviceStates`, which asks every
    registered device for its state and keeps the ones that answer, and `saveCurrentStates`,
    which needs every device to answer and decodes each answer with `formatDeviceState`.
    The two decoders differ only in the colour: the first reports a packed 0 as white, the
    second drops every falsy colour. */
module DistStates {
  import opened Results
  import opened Js
  import opened ColorCodec
  import opened Types
  import opened Lookups
  import opened Control
  import DistDevices
  import CliIdentify

  datatype DeviceState = DeviceState(power: bool, brightness: Option<Json>, colorTemp: Option<Json>, color: Option<string>)

  /** `"#" + value.toString(16).padStart(6, "0")`. */
  function HexOf(v: Json): string
  {
    "#" + PadStart(CliIdentify.JsonToString16(v), 6)
  }

  /** `toString(16)` of 0xFFFFFF. */
  lemma WhiteDigits()
    ensures ToHex(0xFF_FFFF) == "ffffff"
  {
    assert ToHex(15) == "f";
    assert ToHex(0xFF) == "ff";
    assert ToHex(0xFFF) == "fff";
    assert ToHex(0xFFFF) == "ffff";
    assert ToHex(0xF_FFFF) == "fffff";
  }

  lemma WhiteHex()
    ensures HexOf(JNum(0xFF_FFFF)) == CliIdentify.White
  {
    WhiteDigits();
    assert CliIdentify.JsonToString16(JNum(0xFF_FFFF)) == "ffffff";
    assert PadStart("ffffff", 6) == "ffffff";
  }

  /** The colour of `getCurrentDeviceStates`: absent stays absent, 0 becomes 0xFFFFFF, and any
      other value is written as hex. */
  function CurrentColour(v: Option<Json>): (s: Option<string>)
    ensures s.None? <==> v.None?
    ensures v == Some(JNum(0)) ==> s == Some(CliIdentify.White)
    ensures Truthy(v) ==> s == Some(CliIdentify.ColorField(v))
  {
    match v
    case None => None
    case Some(x) =>
      if x == JNum(0) then
        WhiteHex();
        Some(HexOf(JNum(0xFF_FFFF)))
      else Some(HexOf(x))
  }

  /** The per-device record `getCurrentDeviceStates` builds from a capability list. */
  function CurrentState(entries: seq<StateEntry>): (s: DeviceState)
    ensures var cli := CliIdentify.FormatDeviceState(entries);
      && s.power == cli.power
      && s.brightness == cli.brightness
      && s.colorTemp == cli.colorTemp
    ensures var v := ReadState(entries, ColorSettingType, ColorRgbInstance);
      && (s.color.None? <==> v.None?)
      && (Truthy(v) || v == Some(JNum(0)) ==> s.color == Some(CliIdentify.FormatDeviceState(entries).color))
  {
    DeviceState(
      IsOne(ReadState(entries, OnOffType, PowerInstance)),
      ReadState(entries, RangeType, BrightnessInstance),
      ReadState(entries, ColorSettingType, ColorTemperatureInstance),
      CurrentColour(ReadState(entries, ColorSettingType, ColorRgbInstance)))
  }

  /** A device whose state request succeeded with a capability list. */
  predicate Answers(fetch: StateFetch, d: Device)
  {
    fetch(d.device, d.sku).Fetched? && fetch(d.device, d.sku).capabilities.Some?
  }

  /** The capability list of a device that answers. */
  function Entries(fetch: StateFetch, d: Device): seq<StateEntry>
    requires Answers(fetch, d)
  {
    fetch(d.device, d.sku).capabilities.value
  }

  /** The loop of `getCurrentDeviceStates` over `reg` in order: a failed request is caught and
      an answer without capabilities is skipped, so neither adds a key. */
  function CollectStates(fetch: StateFetch, reg: Registry): map<string, DeviceState>
  {
    if |reg| == 0 then map[]
    else
      var states := CollectStates(fetch, reg[..|reg| - 1]);
      var (name, d) := reg[|reg| - 1];
      if Answers(fetch, d) then states[name := CurrentState(Entries(fetch, d))] else states
  }

  function GetCurrentDeviceStates(fetch: StateFetch): map<string, DeviceState>
  {
    CollectStates(fetch, DistDevices.devices)
  }

  /** `formatDeviceState`: a missing capability list throws; the colour is kept only when truthy,
      so a packed 0 is dropped. */
  function FormatDeviceState(capabilities: Option<seq<StateEntry>>): (r: Result<DeviceState>)
    ensures r.Err? <==> capabilities.None?
    ensures r.Err? ==> r.error == InvalidStateResponse
    ensures r.Ok? ==>
      var cli := CliIdentify.FormatDeviceState(capabilities.value);
      var v := ReadState(capabilities.value, ColorSettingType, ColorRgbInstance);
      && r.value.power == cli.power
      && r.value.brightness == cli.brightness
      && r.value.colorTemp == cli.colorTemp
      && (r.value.color.Some? <==> Truthy(v))
      && (r.value.color.Some? ==> r.value.color.value == cli.color)
  {
    match capabilities
    case None => Err(InvalidStateResponse)
    case Some(entries) =>
      var v := ReadState(entries, ColorSettingType, ColorRgbInstance);
      Ok(DeviceState(
        IsOne(ReadState(entries, OnOffType, PowerInstance)),
        ReadState(entries, RangeType, BrightnessInstance),
        ReadState(entries, ColorSettingType, ColorTemperatureInstance),
        if Truthy(v) then Some(HexOf(v.value)) else None))
  }

  /** The error a device's state request turns into: its HTTP status, or the decoder's
      "Invalid device state response". */
  function FetchError(reply: StateReply): Error
  {
    match reply
    case FetchFailed(status) => HttpError(status)
    case Fetched(_) => InvalidStateResponse
  }

  /** `Promise.all` over the registry in order, then `Object.assign`: the first device that does
      not answer decides the error, and otherwise every key maps to its decoded state. */
  function SaveStates(fetch: StateFetch, reg: Registry): Result<map<string, DeviceState>>
  {
    if |reg| == 0 then Ok(map[])
    else
      var (name, d) := reg[0];
      var reply := fetch(d.device, d.sku);
      if !Answers(fetch, d) then Err(FetchError(reply))
      else
        match SaveStates(fetch, reg[1..])
        case Err(e) => Err(e)
        case Ok(rest) => Ok(rest[name := FormatDeviceState(reply.capabilities).value])
  }

  /** `saveCurrentStates`: the states it would write to `saved-states.json`. */
  function SaveCurrentStates(fetch: StateFetch): Result<map<string, DeviceState>>
  {
    SaveStates(fetch, DistDevices.devices)
  }

  // ---------------------------------------------------------------- properties

  /** The last key of a registry with distinct keys is not a key of the rest. */
  lemma NotInPrefix(reg: Registry)
    requires |reg| > 0 && DistinctKeys(reg)
    ensures !HasKey(reg[..|reg| - 1], reg[|reg| - 1].0)
    ensures DistinctKeys(reg[..|reg| - 1])
  {
    var init := reg[..|reg| - 1];
    forall j | 0 <= j < |init| ensures init[j].0 != reg[|reg| - 1].0 {
      assert init[j] == reg[j];
    }
    forall i, j | 0 <= i < j < |init| ensures init[i].0 != init[j].0 {
      assert init[i] == reg[i] && init[j] == reg[j];
    }
  }

  /** The first key of a registry with distinct keys is not a key of the rest. */
  lemma NotInTail(reg: Registry)
    requires |reg| > 0 && DistinctKeys(reg)
    ensures !HasKey(reg[1..], reg[0].0)
    ensures DistinctKeys(reg[1..])
  {
    var tail := reg[1..];
    forall j | 0 <= j < |tail| ensures tail[j].0 != reg[0].0 {
      assert tail[j] == reg[j + 1];
    }
    forall i, j | 0 <= i < j < |tail| ensures tail[i].0 != tail[j].0 {
      assert tail[i] == reg[i + 1] && tail[j] == reg[j + 1];
    }
  }

  /** Only registry keys are collected. */
  lemma {:induction false} CollectedKeys(fetch: StateFetch, reg: Registry)
    ensures forall k :: k in CollectStates(fetch, reg) ==> HasKey(reg, k)
  {
    if |reg| > 0 {
      var n := |reg| - 1;
      var init := reg[..n];
      CollectedKeys(fetch, init);
      forall k | k in CollectStates(fetch, reg) ensures HasKey(reg, k) {
        if k != reg[n].0 {
          assert k in CollectStates(fetch, init);
          var i :| 0 <= i < |init| && init[i].0 == k;
          assert reg[i].0 == k;
        }
      }
    }
  }

  /** One device of `getCurrentDeviceStates`: present exactly when it answered, with the
      decoding of its own answer. */
  lemma {:induction false} CollectedAt(fetch: StateFetch, reg: Registry, i: nat)
    requires DistinctKeys(reg) && i < |reg|
    ensures reg[i].0 in CollectStates(fetch, reg) <==> Answers(fetch, reg[i].1)
    ensures Answers(fetch, reg[i].1) ==> CollectStates(fetch, reg)[reg[i].0] == CurrentState(Entries(fetch, reg[i].1))
  {
    var n := |reg| - 1;
    var init := reg[..n];
    NotInPrefix(reg);
    if i < n {
      CollectedAt(fetch, init, i);
      assert init[i] == reg[i];
      assert reg[i].0 != reg[n].0;
    } else {
      CollectedKeys(fetch, init);
    }
  }

  /** `getCurrentDeviceStates` holds exactly the registry's devices that answered, each with the
      decoding of its own answer. */
  lemma CollectedStates(fetch: StateFetch, reg: Registry)
    requires DistinctKeys(reg)
    ensures forall k :: k in CollectStates(fetch, reg) ==> HasKey(reg, k)
    ensures forall i :: 0 <= i < |reg| ==>
      (reg[i].0 in CollectStates(fetch, reg) <==> Answers(fetch, reg[i].1))
    ensures forall i :: 0 <= i < |reg| && Answers(fetch, reg[i].1) ==>
      CollectStates(fetch, reg)[reg[i].0] == CurrentState(Entries(fetch, reg[i].1))
  {
    CollectedKeys(fetch, reg);
    forall i | 0 <= i < |reg|
      ensures reg[i].0 in CollectStates(fetch, reg) <==> Answers(fetch, reg[i].1)
      ensures Answers(fetch, reg[i].1) ==> CollectStates(fetch, reg)[reg[i].0] == CurrentState(Entries(fetch, reg[i].1))
    {
      CollectedAt(fetch, reg, i);
    }
  }

  /** The saved states exist exactly when every device answers. */
  predicate AllAnswer(fetch: StateFetch, reg: Registry)
  {
    forall i :: 0 <= i < |reg| ==> Answers(fetch, reg[i].1)
  }

  lemma AllAnswerCons(fetch: StateFetch, reg: Registry)
    requires |reg| > 0
    ensures AllAnswer(fetch, reg) <==> Answers(fetch, reg[0].1) && AllAnswer(fetch, reg[1..])
  {
    var tail := reg[1..];
    if Answers(fetch, reg[0].1) && AllAnswer(fetch, tail) {
      forall i | 0 <= i < |reg| ensures Answers(fetch, reg[i].1) {
        if i > 0 { assert reg[i] == tail[i - 1]; }
      }
    }
    if AllAnswer(fetch, reg) {
      forall i | 0 <= i < |tail| ensures Answers(fetch, tail[i].1) {
        assert tail[i] == reg[i + 1];
      }
    }
  }

  /** `saveCurrentStates` succeeds exactly when every device answers. */
  lemma {:induction false} SavedExactlyWhenAllAnswer(fetch: StateFetch, reg: Registry)
    ensures SaveStates(fetch, reg).Ok? <==> AllAnswer(fetch, reg)
  {
    if |reg| > 0 {
      SavedExactlyWhenAllAnswer(fetch, reg[1..]);
      AllAnswerCons(fetch, reg);
    }
  }

  /** Only registry keys are saved. */
  lemma {:induction false} SavedKeys(fetch: StateFetch, reg: Registry)
    requires SaveStates(fetch, reg).Ok?
    ensures forall k :: k in SaveStates(fetch, reg).value ==> HasKey(reg, k)
  {
    if |reg| > 0 {
      var tail := reg[1..];
      SavedKeys(fetch, tail);
      forall k | k in SaveStates(fetch, reg).value ensures HasKey(reg, k) {
        if k != reg[0].0 {
          var i :| 0 <= i < |tail| && tail[i].0 == k;
          assert reg[i + 1].0 == k;
        }
      }
    }
  }

  /** One device of a successful save: present, with the decoding of its own answer. */
  lemma {:induction false} SavedAt(fetch: StateFetch, reg: Registry, i: nat)
    requires DistinctKeys(reg) && SaveStates(fetch, reg).Ok? && i < |reg|
    ensures Answers(fetch, reg[i].1)
    ensures reg[i].0 in SaveStates(fetch, reg).value
    ensures SaveStates(fetch, reg).value[reg[i].0] == FormatDeviceState(Some(Entries(fetch, reg[i].1))).value
  {
    if i > 0 {
      var tail := reg[1..];
      NotInTail(reg);
      SavedAt(fetch, tail, i - 1);
      assert tail[i - 1] == reg[i];
    }
  }

  /** The first device in registry order that does not answer. */
  predicate FirstSilent(fetch: StateFetch, reg: Registry, i: int)
  {
    && 0 <= i < |reg|
    && !Answers(fetch, reg[i].1)
    && forall j :: 0 <= j < i ==> Answers(fetch, reg[j].1)
  }

  /** On failure the error is that of the first device in order that does not answer. */
  lemma {:induction false} SavedErrorIsFirst(fetch: StateFetch, reg: Registry)
    requires SaveStates(fetch, reg).Err?
    ensures exists i :: (FirstSilent(fetch, reg, i) &&
      SaveStates(fetch, reg).error == FetchError(fetch(reg[i].1.device, reg[i].1.sku)))
  {
    var d := reg[0].1;
    if Answers(fetch, d) {
      var tail := reg[1..];
      SavedErrorIsFirst(fetch, tail);
      var i :| FirstSilent(fetch, tail, i) &&
        SaveStates(fetch, tail).error == FetchError(fetch(tail[i].1.device, tail[i].1.sku));
      assert reg[i + 1] == tail[i];
      forall j | 0 <= j < i + 1 ensures Answers(fetch, reg[j].1) {
        if j > 0 { assert reg[j] == tail[j - 1]; }
      }
      assert FirstSilent(fetch, reg, i + 1);
    } else {
      assert FirstSilent(fetch, reg, 0);
    }
  }

  /** One device seen by both readers: the same power, brightness and colour temperature, and a
      saved colour is the collected one. */
  lemma SameReadingAt(fetch: StateFetch, reg: Registry, i: nat)
    requires DistinctKeys(reg) && SaveStates(fetch, reg).Ok? && i < |reg|
    ensures var k := reg[i].0;
      var saved := SaveStates(fetch, reg).value;
      var current := CollectStates(fetch, reg);
      && k in saved && k in current
      && saved[k].power == current[k].power
      && saved[k].brightness == current[k].brightness
      && saved[k].colorTemp == current[k].colorTemp
      && (saved[k].color.Some? ==> current[k].color == saved[k].color)
  {
    SavedAt(fetch, reg, i);
    CollectedAt(fetch, reg, i);
  }

  /** When every device answers, the saved states and the collected states name the same
      devices and agree on power, brightness and colour temperature; a colour present in the
      saved states is the same in the collected ones. */
  lemma SavedAgreesWithCollected(fetch: StateFetch, reg: Registry)
    requires DistinctKeys(reg) && SaveStates(fetch, reg).Ok?
    ensures var saved := SaveStates(fetch, reg).value;
      var current := CollectStates(fetch, reg);
      && saved.Keys == current.Keys
      && (forall k :: k in saved ==>
            && saved[k].power == current[k].power
            && saved[k].brightness == current[k].brightness
            && saved[k].colorTemp == current[k].colorTemp
            && (saved[k].color.Some? ==> current[k].color == saved[k].color))
  {
    SavedKeys(fetch, reg);
    CollectedKeys(fetch, reg);
    var saved := SaveStates(fetch, reg).value;
    var current := CollectStates(fetch, reg);
    forall k | k in saved
      ensures k in current
      ensures saved[k].power == current[k].power
      ensures saved[k].brightness == current[k].brightness
      ensures saved[k].colorTemp == current[k].colorTemp
      ensures saved[k].color.Some? ==> current[k].color == saved[k].color
    {
      var i :| 0 <= i < |reg| && reg[i].0 == k;
      SameReadingAt(fetch, reg, i);
    }
    forall k | k in current ensures k in saved {
      var i :| 0 <= i < |reg| && reg[i].0 == k;
      SameReadingAt(fetch, reg, i);
    }
  }

  /** The same agreement for the registry of the compiled facade. */
  lemma SavedAgreesWithCurrent(fetch: StateFetch)
    requires SaveCurrentStates(fetch).Ok?
    ensures SaveCurrentStates(fetch).value.Keys == GetCurrentDeviceStates(fetch).Keys
    ensures var saved := SaveCurrentStates(fetch).value;
      var current := GetCurrentDeviceStates(fetch);
      forall k :: k in saved ==>
        && saved[k].power == current[k].power
        && saved[k].brightness == current[k].brightness
        && saved[k].colorTemp == current[k].colorTemp
        && (saved[k].color.Some? ==> current[k].color == saved[k].color)
  {
    DistDevices.RegistryKeys();
    SavedAgreesWithCollected(fetch, DistDevices.devices);
  }

  /** For the compiled facade's registry: a device is in `getCurrentDeviceStates` exactly when
      it answered, with the decoding of its own answer. */
  lemma CurrentStateOf(fetch: StateFetch, i: nat)
    requires i < |DistDevices.devices|
    ensures var (name, d) := DistDevices.devices[i];
      && (name in GetCurrentDeviceStates(fetch) <==> Answers(fetch, d))
      && (Answers(fetch, d) ==> GetCurrentDeviceStates(fetch)[name] == CurrentState(Entries(fetch, d)))
  {
    DistDevices.RegistryKeys();
    CollectedAt(fetch, DistDevices.devices, i);
  }

  /** A colour sent as a packed value reads back from `getCurrentDeviceStates` as the picker's
      hex string, except black, which reads back as white. */
  lemma CurrentColourReadBack(c: Rgb)
    requires ValidRgb(c)
    ensures PackedValue(c) != 0 ==> CurrentColour(Some(JNum(PackedValue(c)))) == Some(RgbToHex(c))
    ensures PackedValue(c) == 0 ==> CurrentColour(Some(JNum(PackedValue(c)))) == Some(CliIdentify.White)
  {
    CliIdentify.ColourReadBack(c);
  }

  /** A device that reports colour 0 is white in the current states and has no colour in the
      saved ones. */
  lemma ZeroColourReadings(entries: seq<StateEntry>)
    requires ReadState(entries, ColorSettingType, ColorRgbInstance) == Some(JNum(0))
    ensures CurrentState(entries).color == Some("#ffffff")
    ensures FormatDeviceState(Some(entries)).value.color.None?
  {
  }
}
