/** `src/cli/index.ts`: the `govee` command line over the registry of
    `src/config/devices.ts` and the wrappers of `src/services/GoveeControlService.ts`.
    Its `preset [presetName]` command applies a named preset to several devices, one
    device after the other, skipping names the registry does not know. */
module CliIndex {
  import opened Results
  import opened Types
  import opened Lookups
  import opened CliCommon
  import Control
  import ConfigDevices
  import ControlService
  import Picker

  // ---------------------------------------------------------------- `control`

  /** `control <device> -o <operation> -v <value>`. */
  function ControlCommand(device: string, operation: Option<string>, value: Option<string>): Command
  {
    CliCommon.Control(ConfigDevices.devices, device, operation, value)
  }

  /** An unknown device stops the command before any call, whatever the operation, with a
      message that lists the five registry keys. */
  lemma UnknownDeviceStops(device: string, operation: Option<string>, value: Option<string>)
    requires !HasKey(ConfigDevices.devices, device)
    ensures ControlCommand(device, operation, value) == Stop(NotFoundMessage(ConfigDevices.devices, device))
    ensures Keys(ConfigDevices.devices) == ["rgbicFloorLamp", "cylinderFloorLamp", "deskBulb", "ceiling1", "ceiling2"]
  {
  }

  /** An operation outside on/off/brightness/temperature/work/save-states, `color`
      included, prints the list of operations and makes no call. */
  lemma UnknownOperationShowsHelp(device: string, value: Option<string>)
    requires HasKey(ConfigDevices.devices, device)
    ensures ControlCommand(device, Some("color"), value) == ShowHelp
    ensures ControlCommand(device, None, value) == ShowHelp
  {
  }

  // ---------------------------------------------------------------- the services as the oracle

  /** The calls resolve as the `GoveeControlService` wrappers do over network `net`. */
  function ServicePerform(net: Control.Network): Perform
  {
    (a: Action) =>
      match a
      case TurnOn(d) => ControlService.TurnOn(net, d).outcome.Pass?
      case TurnOff(d) => ControlService.TurnOff(net, d).outcome.Pass?
      case SetBrightness(d, l) => ControlService.SetBrightness(net, d, l).outcome.Pass?
      case SetColor(d, c) => ControlService.SetColor(net, d, c).outcome.Pass?
      case SetColorTemperature(d, k) => ControlService.SetColorTemperature(net, d, k).outcome.Pass?
      case WorkMode => ControlService.WorkMode().outcome.Pass?
      case SaveStates => ControlService.SaveCurrentStates().outcome.Pass?
  }

  /** The command line lets a brightness of 0 through, and the service below refuses it,
      so `control <device> -o brightness -v 0` always ends in an error for every registered
      device; so does every `work` and `save-states`, which the service does not implement. */
  lemma ZeroBrightnessPassesCommandLineOnly(net: Control.Network, device: string)
    requires HasKey(ConfigDevices.devices, device)
    ensures ControlCommand(device, Some("brightness"), Some("0")) == Call(SetBrightness(device, 0))
    ensures !ServicePerform(net)(SetBrightness(device, 0))
    ensures !ServicePerform(net)(WorkMode) && !ServicePerform(net)(SaveStates)
  {
    assert Js.TrimStart("0") == "0";
    Js.DigitPrefixOfDigits("0", 10);
    assert "0"[..1] == "0" && "0"[..0] == "";
  }

  // ---------------------------------------------------------------- `preset`

  /** A preset: per device name, in file order, the settings to apply. */
  type DevicePresets = seq<(string, PresetConfig)>

  /** The `for … of Object.entries(preset)` loop, as written: an unknown device is logged and
      skipped; a known one gets its settings; a thrown error ends the loop. */
  function ApplyEntries(perform: Perform, reg: Registry, entries: DevicePresets): Session
    decreases |entries|
  {
    if |entries| == 0 then Session([], false)
    else
      var (name, settings) := entries[0];
      if !HasKey(reg, name) then ApplyEntries(perform, reg, entries[1..])
      else
        var r := ApplySettings(perform, name, settings);
        if r.failed then r
        else
          var rest := ApplyEntries(perform, reg, entries[1..]);
          Session(r.attempted + rest.attempted, rest.failed)
  }

  /** Reference: the calls of every registered device of the preset, in file order. */
  function Planned(reg: Registry, entries: DevicePresets): (a: seq<Action>)
    decreases |entries|
  {
    if |entries| == 0 then []
    else
      var head := if HasKey(reg, entries[0].0) then SettingsActions(entries[0].0, entries[0].1) else [];
      head + Planned(reg, entries[1..])
  }

  /** The loop is the sequential execution of the planned calls: it makes them in order and
      stops at the first that throws, so a thrown error aborts the remaining devices. */
  lemma {:induction false} ApplyEntriesExecutesPlan(perform: Perform, reg: Registry, entries: DevicePresets)
    decreases |entries|
    ensures ApplyEntries(perform, reg, entries) == Execute(perform, Planned(reg, entries))
  {
    if |entries| > 0 {
      var (name, settings) := entries[0];
      var tail := Planned(reg, entries[1..]);
      ApplyEntriesExecutesPlan(perform, reg, entries[1..]);
      if HasKey(reg, name) {
        var own := SettingsActions(name, settings);
        assert Planned(reg, entries) == own + tail;
        assert ApplySettings(perform, name, settings) == Execute(perform, own);
        ExecuteAppend(perform, own, tail);
        ExecuteFacts(perform, own);
      } else {
        assert Planned(reg, entries) == [] + tail;
        assert [] + tail == tail;
      }
    }
  }

  /** Every planned call goes to a registered device of the preset and carries that
      device's own setting. */
  lemma {:induction false} PlannedFromRegistered(reg: Registry, entries: DevicePresets, k: nat)
    requires k < |Planned(reg, entries)|
    decreases |entries|
    ensures exists i :: (0 <= i < |entries| && HasKey(reg, entries[i].0) &&
      FromSettings(entries[i].0, entries[i].1, Planned(reg, entries)[k]))
  {
    var head := if HasKey(reg, entries[0].0) then SettingsActions(entries[0].0, entries[0].1) else [];
    var p := Planned(reg, entries);
    assert p == head + Planned(reg, entries[1..]);
    if k < |head| {
      SettingsActionsShape(entries[0].0, entries[0].1);
      assert p[k] == head[k];
    } else {
      PlannedFromRegistered(reg, entries[1..], k - |head|);
      assert p[k] == Planned(reg, entries[1..])[k - |head|];
      var i :| 0 <= i < |entries[1..]| && HasKey(reg, entries[1..][i].0) &&
        FromSettings(entries[1..][i].0, entries[1..][i].1, Planned(reg, entries[1..])[k - |head|]);
      assert entries[1..][i] == entries[i + 1];
    }
  }

  /** An unknown device contributes no call, and the devices after it are still applied. */
  lemma UnknownDeviceSkipped(perform: Perform, reg: Registry, name: string, s: PresetConfig, rest: DevicePresets)
    requires !HasKey(reg, name)
    ensures ApplyEntries(perform, reg, [(name, s)] + rest) == ApplyEntries(perform, reg, rest)
    ensures Planned(reg, [(name, s)] + rest) == Planned(reg, rest)
  {
    assert ([(name, s)] + rest)[0] == (name, s);
    assert ([(name, s)] + rest)[1..] == rest;
  }

  /** `preset [presetName]` with the presets file's contents `presets`. */
  function PresetCommand(perform: Perform, presets: seq<(string, DevicePresets)>, presetName: Option<string>): (r: PresetRun)
    ensures r.ListPresets? <==> Missing(presetName) || Entry(presets, presetName.value).None?
    ensures r.ListPresets? ==> r.names == Names(presets)
    ensures r.Ran? ==> r.session == Execute(perform, Planned(ConfigDevices.devices, Entry(presets, presetName.value).value))
    ensures !r.Stopped?
  {
    if Missing(presetName) then ListPresets(Names(presets))
    else
      match Entry(presets, presetName.value)
      case None => ListPresets(Names(presets))
      case Some(entries) =>
        ApplyEntriesExecutesPlan(perform, ConfigDevices.devices, entries);
        Ran(ApplyEntries(perform, ConfigDevices.devices, entries))
  }

  /** Applying a preset either makes every planned call, or makes the planned calls up to
      and including the first that throws; every call before that one resolved. */
  lemma PresetAbortsOnFirstError(perform: Perform, presets: seq<(string, DevicePresets)>, presetName: string)
    requires presetName != "" && Entry(presets, presetName).Some?
    ensures var run := PresetCommand(perform, presets, Some(presetName)).session;
      var plan := Planned(ConfigDevices.devices, Entry(presets, presetName).value);
      run.attempted <= plan &&
      (run.failed <==> exists i :: 0 <= i < |plan| && !perform(plan[i])) &&
      (!run.failed ==> run.attempted == plan) &&
      (run.failed ==> |run.attempted| > 0 && !perform(run.attempted[|run.attempted| - 1]))
  {
    ExecuteFacts(perform, Planned(ConfigDevices.devices, Entry(presets, presetName).value));
  }

  // ---------------------------------------------------------------- interactive colour

  /** The interactive `color` operation: the picker's "CURRENT_COLOR" keeps the colour;
      any other answer is sent to the device. */
  function ColourChoice(device: string, selected: string): (a: Option<Action>)
    ensures a.None? <==> selected == Picker.CurrentColor
    ensures a.Some? ==> a.value.SetColor? && a.value.device == device
  {
    if selected == Picker.CurrentColor then None else Some(SetColor(device, selected))
  }

  /** Choosing "exit", or an error inside the picker, sends no colour; a colour confirmed in
      the interactive picker is a valid hex string and is sent. */
  lemma PickerChoiceSent(hsv: Picker.HsvToRgb, device: string, keys: seq<Picker.Key>)
    requires Picker.ValidConversion(hsv)
    ensures ColourChoice(device, Picker.MenuAnswer(Picker.ChoseExit).color) == None
    ensures forall m :: ColourChoice(device, Picker.MenuAnswer(Picker.Threw(m)).color) == None
    ensures var c := Picker.Run(hsv, Picker.Initial, keys);
      c.Some? && Picker.MenuAnswer(Picker.ChoseInteractive(c.value)).Finish? ==>
        ColourChoice(device, c.value) == Some(SetColor(device, c.value))
  {
    Picker.PickerAnswersValidHex(hsv, keys);
  }
}
