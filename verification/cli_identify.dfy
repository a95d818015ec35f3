/** `formatDeviceState` of `src/cli/commands/identifyDevices.ts`: four fields read from
    the first state entry matching their (type, instance) pair, with an absent or zero
    colour reported as white and any other colour as a six-digit hex string. */
module CliIdentify {
  import opened Results
  import opened Js
  import opened ColorCodec
  import opened Types
  import opened Lookups
  import opened Control

  datatype Snapshot = Snapshot(power: bool, brightness: Option<Json>, colorTemp: Option<Json>, color: string)

  const White: string := "#ffffff"

  /** `value.toString(16)`: the radix applies to numbers; a boolean or a string ignores it. */
  function JsonToString16(v: Json): string
  {
    match v
    case JNum(n) => NumberToString16(n)
    case JBool(b) => if b then "true" else "false"
    case JText(s) => s
  }

  /** `!value || value === 0 ? "#ffffff" : "#" + value.toString(16).padStart(6, "0")`. */
  function ColorField(v: Option<Json>): (s: string)
    ensures !Truthy(v) ==> s == White
    ensures Truthy(v) ==> |s| >= 7 && s[0] == '#'
  {
    if !Truthy(v) then White else "#" + PadStart(JsonToString16(v.value), 6)
  }

  function FormatDeviceState(entries: seq<StateEntry>): (s: Snapshot)
    ensures s.power <==> IsOne(ReadState(entries, OnOffType, PowerInstance))
    ensures s.brightness == ReadState(entries, RangeType, BrightnessInstance)
    ensures s.colorTemp == ReadState(entries, ColorSettingType, ColorTemperatureInstance)
    ensures s.color == ColorField(ReadState(entries, ColorSettingType, ColorRgbInstance))
  {
    Snapshot(
      IsOne(ReadState(entries, OnOffType, PowerInstance)),
      ReadState(entries, RangeType, BrightnessInstance),
      ReadState(entries, ColorSettingType, ColorTemperatureInstance),
      ColorField(ReadState(entries, ColorSettingType, ColorRgbInstance)))
  }

  // ---------------------------------------------------------------- properties

  /** A packed colour in [1, 0xFFFFFF] is reported as "#" and six lower-case hex digits
      whose value is the packed integer. */
  lemma PackedColourDigits(n: int)
    requires 1 <= n <= 0xFF_FFFF
    ensures |ColorField(Some(JNum(n)))| == 7 && ColorField(Some(JNum(n)))[0] == '#'
    ensures AllLowerHex(ColorField(Some(JNum(n)))[1..])
    ensures ValueOf(ColorField(Some(JNum(n)))[1..], 16) == n
  {
    PackedDigitsShape(n);
    assert ColorField(Some(JNum(n)))[1..] == PadStart(ToHex(n), 6);
  }

  /** A colour set through the packing helpers reads back as the picker's `rgbToHex`, unless it
      is black, which is reported as white. */
  lemma ColourReadBack(c: Rgb)
    requires ValidRgb(c)
    ensures PackedValue(c) != 0 ==> ColorField(Some(JNum(PackedValue(c)))) == RgbToHex(c)
    ensures PackedValue(c) == 0 ==> ColorField(Some(JNum(PackedValue(c)))) == White
  {
    var n := PackedValue(c);
    PackRgbValue(c);
    if n != 0 {
      PackedToHexIsRgbToHex(n);
      UnpackPackedValue(c);
    }
  }

  /** The brightness field is the state value of the first brightness entry; the other
      fields are read through the same first-match lookup. */
  lemma BrightnessFirstMatch(entries: seq<StateEntry>, i: nat)
    requires i < |entries| && entries[i].capType == RangeType && entries[i].instance == BrightnessInstance
    requires NoMatchBefore(entries, RangeType, BrightnessInstance, i)
    ensures FormatDeviceState(entries).brightness == StateValue(Some(entries[i]))
  {
    ReadStateFirst(entries, RangeType, BrightnessInstance, i);
  }

  /** Power is on exactly when the first power entry reports the number 1; a missing entry,
      a missing value, `true` or any other number reads as off. */
  lemma PowerOnlyForOne(entries: seq<StateEntry>, i: nat)
    requires i < |entries| && entries[i].capType == OnOffType && entries[i].instance == PowerInstance
    requires NoMatchBefore(entries, OnOffType, PowerInstance, i)
    ensures FormatDeviceState(entries).power <==> entries[i].state == State(Some(JNum(1)))
  {
    ReadStateFirst(entries, OnOffType, PowerInstance, i);
  }
}
