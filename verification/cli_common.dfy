/** What the two command-line front ends, `src/cli/index.ts` and `src/cli.ts`, have in
    common: the service calls they make (as `Action`s), the `control` sub-command's
    argument checks, the `promptForValue` validator, and the sequential application of a
    preset's settings, each call awaited and the first thrown error ending the run. The
    service calls themselves are an oracle `Perform` that says whether a call resolves. */
module CliCommon {
  import opened Results
  import opened Js
  import opened Types
  import opened Lookups

  /** One awaited service call. */
  datatype Action =
    | TurnOn(device: string)
    | TurnOff(device: string)
    | SetBrightness(device: string, level: int)
    | SetColor(device: string, color: string)
    | SetColorTemperature(device: string, kelvin: int)
    | WorkMode
    | SaveStates

  /** Whether the service call resolves (true) or throws (false). */
  type Perform = Action -> bool

  /** The calls made, in order, and whether the last of them threw. */
  datatype Session = Session(attempted: seq<Action>, failed: bool)

  // ---------------------------------------------------------------- sequential execution

  /** Awaiting each call in turn inside one `try`: stop at the first that throws. */
  function Execute(perform: Perform, actions: seq<Action>): Session
    decreases |actions|
  {
    if |actions| == 0 then Session([], false)
    else if !perform(actions[0]) then Session([actions[0]], true)
    else
      var rest := Execute(perform, actions[1..]);
      Session([actions[0]] + rest.attempted, rest.failed)
  }

  /** The calls made are a prefix of the batch; every one but the last resolved; the run
      failed exactly when some call of the batch throws, and then it stopped at that call;
      otherwise the whole batch was made. */
  lemma {:induction false} ExecuteFacts(perform: Perform, actions: seq<Action>)
    decreases |actions|
    ensures Execute(perform, actions).attempted <= actions
    ensures !Execute(perform, actions).failed ==> Execute(perform, actions).attempted == actions
    ensures Execute(perform, actions).failed ==>
      |Execute(perform, actions).attempted| > 0 &&
      !perform(Execute(perform, actions).attempted[|Execute(perform, actions).attempted| - 1])
    ensures forall j :: 0 <= j < |Execute(perform, actions).attempted| - 1 ==> perform(Execute(perform, actions).attempted[j])
    ensures Execute(perform, actions).failed <==> exists i :: 0 <= i < |actions| && !perform(actions[i])
  {
    if |actions| > 0 && perform(actions[0]) {
      var rest := actions[1..];
      ExecuteFacts(perform, rest);
      var r := Execute(perform, rest);
      assert Execute(perform, actions) == Session([actions[0]] + r.attempted, r.failed);
      assert forall i :: 0 <= i < |rest| ==> rest[i] == actions[i + 1];
      if r.failed {
        var i :| 0 <= i < |rest| && !perform(rest[i]);
        assert !perform(actions[i + 1]);
      } else {
        forall i | 0 <= i < |actions| ensures perform(actions[i]) {
          if i > 0 { assert actions[i] == rest[i - 1]; }
        }
      }
    }
  }

  /** One step of `Execute`, on a sequence written as its head and tail. */
  lemma ExecuteCons(perform: Perform, x: Action, rest: seq<Action>)
    ensures Execute(perform, [x] + rest) ==
      (if !perform(x) then Session([x], true)
       else Session([x] + Execute(perform, rest).attempted, Execute(perform, rest).failed))
  {
    assert ([x] + rest)[0] == x;
    assert ([x] + rest)[1..] == rest;
  }

  /** Running two batches one after the other is running their concatenation. */
  lemma {:induction false} ExecuteAppend(perform: Perform, a: seq<Action>, b: seq<Action>)
    decreases |a|
    ensures Execute(perform, a).failed ==> Execute(perform, a + b) == Execute(perform, a)
    ensures !Execute(perform, a).failed ==>
      Execute(perform, a + b) == Session(a + Execute(perform, b).attempted, Execute(perform, b).failed)
  {
    if |a| == 0 {
      assert a + b == b;
    } else {
      var x, rest := a[0], a[1..];
      assert a == [x] + rest;
      assert a + b == [x] + (rest + b);
      ExecuteCons(perform, x, rest);
      ExecuteCons(perform, x, rest + b);
      if perform(x) {
        ExecuteAppend(perform, rest, b);
        var tail := Execute(perform, b).attempted;
        assert [x] + (rest + tail) == a + tail;
      }
    }
  }

  /** With every call resolving, every call is made. */
  lemma ExecuteAllResolving(perform: Perform, actions: seq<Action>)
    requires forall i :: 0 <= i < |actions| ==> perform(actions[i])
    ensures Execute(perform, actions) == Session(actions, false)
  {
  }

  // ---------------------------------------------------------------- presets

  /** One device's entry of a preset: each field may be absent. */
  datatype PresetConfig = PresetConfig(color: Option<string>, brightness: Option<int>, temperature: Option<int>)

  /** `if (settings.color)`: present and not the empty string. */
  predicate HasColor(s: PresetConfig)
  {
    s.color.Some? && s.color.value != ""
  }

  /** The rank of a preset call in the fixed order colour, brightness, temperature. */
  function Rank(a: Action): nat
  {
    match a
    case SetColor(_, _) => 0
    case SetBrightness(_, _) => 1
    case SetColorTemperature(_, _) => 2
    case _ => 3
  }

  /** The calls one device's settings make, in source order. */
  function SettingsActions(device: string, s: PresetConfig): (a: seq<Action>)
    ensures |a| == (if HasColor(s) then 1 else 0) + (if s.brightness.Some? then 1 else 0) + (if s.temperature.Some? then 1 else 0)
    ensures HasColor(s) ==> SetColor(device, s.color.value) in a
    ensures s.brightness.Some? ==> SetBrightness(device, s.brightness.value) in a
    ensures s.temperature.Some? ==> SetColorTemperature(device, s.temperature.value) in a
  {
    ColourPart(device, s) + LevelPart(device, s) + KelvinPart(device, s)
  }

  function ColourPart(device: string, s: PresetConfig): seq<Action>
  {
    if HasColor(s) then [SetColor(device, s.color.value)] else []
  }

  function LevelPart(device: string, s: PresetConfig): seq<Action>
  {
    if s.brightness.Some? then [SetBrightness(device, s.brightness.value)] else []
  }

  function KelvinPart(device: string, s: PresetConfig): seq<Action>
  {
    if s.temperature.Some? then [SetColorTemperature(device, s.temperature.value)] else []
  }

  /** A call belongs to `device` and carries the value of the setting of its own kind. */
  predicate FromSettings(device: string, s: PresetConfig, x: Action)
  {
    match x
    case SetColor(d, c) => d == device && HasColor(s) && c == s.color.value
    case SetBrightness(d, l) => d == device && s.brightness == Some(l)
    case SetColorTemperature(d, k) => d == device && s.temperature == Some(k)
    case _ => false
  }

  /** Colour, then brightness, then temperature, each only from its own field. */
  lemma SettingsActionsShape(device: string, s: PresetConfig)
    ensures forall i :: 0 <= i < |SettingsActions(device, s)| ==> FromSettings(device, s, SettingsActions(device, s)[i])
    ensures forall i, j :: 0 <= i < j < |SettingsActions(device, s)| ==>
      Rank(SettingsActions(device, s)[i]) < Rank(SettingsActions(device, s)[j])
  {
    var c, l, k := ColourPart(device, s), LevelPart(device, s), KelvinPart(device, s);
    var a := SettingsActions(device, s);
    assert a == c + l + k;
    forall i | 0 <= i < |a|
      ensures FromSettings(device, s, a[i])
      ensures Rank(a[i]) == (if i < |c| then 0 else if i < |c| + |l| then 1 else 2)
    {
      if i < |c| { assert a[i] == c[i]; }
      else if i < |c| + |l| { assert a[i] == l[i - |c|]; }
      else { assert a[i] == k[i - |c| - |l|]; }
    }
  }

  /** The three awaited `if` statements of one device's preset, as written. */
  function ApplySettings(perform: Perform, device: string, s: PresetConfig): (r: Session)
    ensures r == Execute(perform, SettingsActions(device, s))
  {
    var colour := ColourPart(device, s);
    var level := LevelPart(device, s);
    var kelvin := KelvinPart(device, s);
    ExecuteAppend(perform, colour, level);
    ExecuteAppend(perform, colour + level, kelvin);
    var c := Execute(perform, colour);
    if c.failed then c
    else
      var b := Execute(perform, level);
      if b.failed then Session(colour + b.attempted, true)
      else
        var t := Execute(perform, kelvin);
        Session(colour + level + t.attempted, t.failed)
  }

  /** A preset with no fields makes no call. */
  lemma EmptySettingsDoNothing(perform: Perform, device: string)
    ensures ApplySettings(perform, device, PresetConfig(None, None, None)) == Session([], false)
  {
  }

  /** `record[key]` on a JSON object read as its list of entries. */
  function Entry<V>(entries: seq<(string, V)>, key: string): (r: Option<V>)
    ensures r.Some? <==> exists i :: 0 <= i < |entries| && entries[i].0 == key
    ensures r.Some? ==> (key, r.value) in entries
  {
    var i := First(entries, (e: (string, V)) => e.0 == key);
    if i == -1 then None else Some(entries[i].1)
  }

  /** `Object.keys(record)`. */
  function Names<V>(entries: seq<(string, V)>): (ns: seq<string>)
    ensures |ns| == |entries|
    ensures forall i :: 0 <= i < |entries| ==> ns[i] == entries[i].0
  {
    if |entries| == 0 then [] else [entries[0].0] + Names(entries[1..])
  }

  /** What the `preset` action does: list the preset names, report an error, or apply. */
  datatype PresetRun = ListPresets(names: seq<string>) | Stopped(message: string) | Ran(session: Session)

  // ---------------------------------------------------------------- `control` arguments

  /** What the `control` action does after checking its arguments: exit with an error
      message, make one service call, or print the list of operations. */
  datatype Command = Stop(message: string) | Call(action: Action) | ShowHelp

  /** `Object.keys(devices).join(", ")`. */
  function Join(names: seq<string>, sep: string): (s: string)
    ensures |names| == 0 ==> s == ""
    ensures |names| == 1 ==> s == names[0]
  {
    if |names| == 0 then ""
    else if |names| == 1 then names[0]
    else names[0] + sep + Join(names[1..], sep)
  }

  function NotFoundMessage(reg: Registry, name: string): string
  {
    "Device \"" + name + "\" not found. Available devices: " + Join(Keys(reg), ", ")
  }

  /** `!options.value`: the option is absent or the empty string. */
  predicate Missing(value: Option<string>)
  {
    value.None? || value.value == ""
  }

  const BrightnessRequired := "Brightness value is required (0-100)"
  const BrightnessRange := "Brightness must be between 0 and 100"
  const TemperatureRequired := "Color temperature value is required (in Kelvin)"
  const TemperatureInvalid := "Invalid temperature value"

  /** The brightness the `control` command accepts: a present value whose `parseInt`
      lies in [0,100]. */
  predicate AcceptsBrightness(value: Option<string>, level: int)
  {
    !Missing(value) && ParseInt(value.value, Unspecified) == Int(level) && 0 <= level <= 100
  }

  /** The temperature the `control` command accepts: any present value that parses. */
  predicate AcceptsTemperature(value: Option<string>, kelvin: int)
  {
    !Missing(value) && ParseInt(value.value, Unspecified) == Int(kelvin)
  }

  predicate KnownOperation(operation: Option<string>)
  {
    operation.Some? && operation.value in {"on", "off", "brightness", "temperature", "work", "save-states"}
  }

  /** The `control <device> -o <operation> -v <value>` action against registry `reg`. */
  function Control(reg: Registry, device: string, operation: Option<string>, value: Option<string>): (c: Command)
    ensures !HasKey(reg, device) ==> c == Stop(NotFoundMessage(reg, device))
    ensures c.ShowHelp? <==> HasKey(reg, device) && !KnownOperation(operation)
    ensures c.Call? ==> HasKey(reg, device)
    ensures HasKey(reg, device) && operation == Some("brightness") ==>
      (c.Call? <==> exists level :: AcceptsBrightness(value, level))
    ensures c.Call? && c.action.SetBrightness? ==> AcceptsBrightness(value, c.action.level) && c.action.device == device
    ensures HasKey(reg, device) && operation == Some("temperature") ==>
      (c.Call? <==> exists kelvin :: AcceptsTemperature(value, kelvin))
    ensures c.Call? && c.action.SetColorTemperature? ==> AcceptsTemperature(value, c.action.kelvin) && c.action.device == device
    ensures c.Call? ==> !c.action.SetColor?
    ensures HasKey(reg, device) && operation == Some("on") ==> c == Call(TurnOn(device))
    ensures HasKey(reg, device) && operation == Some("off") ==> c == Call(TurnOff(device))
    ensures HasKey(reg, device) && operation == Some("work") ==> c == Call(WorkMode)
    ensures HasKey(reg, device) && operation == Some("save-states") ==> c == Call(SaveStates)
  {
    if !HasKey(reg, device) then Stop(NotFoundMessage(reg, device))
    else if operation == Some("on") then Call(TurnOn(device))
    else if operation == Some("off") then Call(TurnOff(device))
    else if operation == Some("brightness") then
      if Missing(value) then Stop(BrightnessRequired)
      else
        match ParseInt(value.value, Unspecified)
        case NaN => Stop(BrightnessRange)
        case Int(level) =>
          if level < 0 || level > 100 then Stop(BrightnessRange)
          else assert AcceptsBrightness(value, level); Call(SetBrightness(device, level))
    else if operation == Some("temperature") then
      if Missing(value) then Stop(TemperatureRequired)
      else
        match ParseInt(value.value, Unspecified)
        case NaN => Stop(TemperatureInvalid)
        case Int(kelvin) => assert AcceptsTemperature(value, kelvin); Call(SetColorTemperature(device, kelvin))
    else if operation == Some("work") then Call(WorkMode)
    else if operation == Some("save-states") then Call(SaveStates)
    else ShowHelp
  }

  /** A non-empty string of decimal digits parses to its own value. */
  lemma ParseDecimalDigits(s: string)
    requires |s| > 0 && AllDigits(s, 10)
    ensures ParseInt(s, Unspecified) == Int(ValueOf(s, 10))
  {
    assert IsDigit(s[0], 10);
    assert !IsJsSpace(s[0]);
    assert TrimStart(s) == s;
    assert !(s[0] == '-' || s[0] == '+');
    assert |s| >= 2 ==> IsDigit(s[1], 10) && s[1] != 'x' && s[1] != 'X';
    DigitPrefixOfDigits(s, 10);
    assert s[..|s|] == s;
  }

  /** Example: "7000" parses to 7000. */
  lemma Parse7000()
    ensures ParseInt("7000", Unspecified) == Int(7000)
  {
    ParseDecimalDigits("7000");
    assert "7000"[..3] == "700" && "700"[..2] == "70" && "70"[..1] == "7" && "7"[..0] == "";
  }

  /** Example: "101" parses to 101. */
  lemma Parse101()
    ensures ParseInt("101", Unspecified) == Int(101)
  {
    ParseDecimalDigits("101");
    assert "101"[..2] == "10" && "10"[..1] == "1" && "1"[..0] == "";
  }

  /** Example: "-5" parses to -5. */
  lemma ParseMinusFive()
    ensures ParseInt("-5", Unspecified) == Int(-5)
  {
    assert TrimStart("-5") == "-5";
    assert "-5"[1..] == "5";
    DigitPrefixOfDigits("5", 10);
    assert "5"[..1] == "5" && "5"[..0] == "";
  }

  /** A temperature is never range-checked here: every value that parses is forwarded as
      parsed, a negative one included. */
  lemma TemperatureUnbounded(reg: Registry, device: string, value: string, kelvin: int)
    requires HasKey(reg, device) && ParseInt(value, Unspecified) == Int(kelvin)
    ensures Control(reg, device, Some("temperature"), Some(value)) == Call(SetColorTemperature(device, kelvin))
  {
  }

  /** A brightness that parses to a level outside [0,100] is refused before any call. */
  lemma BrightnessCapped(reg: Registry, device: string, value: string, level: int)
    requires HasKey(reg, device) && ParseInt(value, Unspecified) == Int(level) && (level < 0 || level > 100)
    ensures Control(reg, device, Some("brightness"), Some(value)) == Stop(BrightnessRange)
  {
  }

  /** Examples: 7000 and -5 are forwarded as temperatures; 101 is refused as a brightness. */
  lemma ControlExamples(reg: Registry, device: string)
    requires HasKey(reg, device)
    ensures Control(reg, device, Some("temperature"), Some("7000")) == Call(SetColorTemperature(device, 7000))
    ensures Control(reg, device, Some("temperature"), Some("-5")) == Call(SetColorTemperature(device, -5))
    ensures Control(reg, device, Some("brightness"), Some("101")) == Stop(BrightnessRange)
  {
    Parse7000();
    ParseMinusFive();
    Parse101();
    TemperatureUnbounded(reg, device, "7000", 7000);
    TemperatureUnbounded(reg, device, "-5", -5);
    BrightnessCapped(reg, device, "101", 101);
  }

  // ---------------------------------------------------------------- `promptForValue`

  const NotANumber := "Please enter a valid number"

  /** The interactive prompt's validator: `None` is `true` (accepted), `Some(m)` the message shown. */
  function PromptValidate(operation: string, input: string): (r: Option<string>)
    ensures r.None? <==> (ParseInt(input, Unspecified).Int? &&
      (operation == "brightness" ==> 0 <= ParseInt(input, Unspecified).v <= 100))
    ensures ParseInt(input, Unspecified).NaN? ==> r == Some(NotANumber)
  {
    match ParseInt(input, Unspecified)
    case NaN => Some(NotANumber)
    case Int(n) => if operation == "brightness" && (n < 0 || n > 100) then Some(BrightnessRange) else None
  }

  /** The number an accepted answer yields: `parseInt(value)`. */
  function PromptValue(operation: string, input: string): (n: int)
    requires PromptValidate(operation, input).None?
  {
    ParseInt(input, Unspecified).v
  }

  /** The interactive prompt and the `control` option accept the same brightness and
      temperature values: an answer the prompt accepts is a `-v` value `control` forwards
      unchanged, and the other way round. */
  lemma PromptAgreesWithControl(reg: Registry, device: string, operation: string, input: string)
    requires HasKey(reg, device)
    requires operation == "brightness" || operation == "temperature"
    ensures PromptValidate(operation, input).None? <==> Control(reg, device, Some(operation), Some(input)).Call?
    ensures PromptValidate(operation, input).None? ==>
      Control(reg, device, Some(operation), Some(input)) ==
        Call(if operation == "brightness" then SetBrightness(device, PromptValue(operation, input))
             else SetColorTemperature(device, PromptValue(operation, input)))
  {
    if input == "" {
      assert TrimStart("") == "";
      assert DigitPrefixLength("", 10) == 0;
    }
  }
}
