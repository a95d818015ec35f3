/** `src/cli.ts`: the `govee-control` command line over the registry of `src/devices.ts`.
    Its `preset <deviceName> <presetName>` command applies one preset to one device. */
module Cli {
  import opened Results
  import opened Types
  import opened Lookups
  import opened CliCommon
  import SrcDevices

  // ---------------------------------------------------------------- `control`

  /** `control <device> -o <operation> -v <value>`. */
  function ControlCommand(device: string, operation: Option<string>, value: Option<string>): Command
  {
    CliCommon.Control(SrcDevices.devices, device, operation, value)
  }

  /** An unknown device stops the command before any call, whatever the operation; the
      devices' display names are not keys, so "Desk Bulb" is unknown. */
  lemma UnknownDeviceStops(device: string, operation: Option<string>, value: Option<string>)
    requires !HasKey(SrcDevices.devices, device)
    ensures ControlCommand(device, operation, value) == Stop(NotFoundMessage(SrcDevices.devices, device))
    ensures ControlCommand("Desk Bulb", operation, value).Stop?
  {
    SrcDevices.RegistryKeys();
  }

  /** The prompt of the interactive mode and the `-v` option agree on every brightness and
      temperature answer for a registered device. */
  lemma PromptMatchesOption(device: string, operation: string, input: string)
    requires HasKey(SrcDevices.devices, device)
    requires operation == "brightness" || operation == "temperature"
    ensures PromptValidate(operation, input).None? <==> ControlCommand(device, Some(operation), Some(input)).Call?
  {
    PromptAgreesWithControl(SrcDevices.devices, device, operation, input);
  }

  // ---------------------------------------------------------------- `preset`

  /** `preset <deviceName> <presetName>` with the presets file's contents `presets`. */
  function PresetCommand(perform: Perform, presets: seq<(string, PresetConfig)>, device: string, presetName: string): (r: PresetRun)
    ensures !HasKey(SrcDevices.devices, device) ==> r == Stopped("Device \"" + device + "\" not found")
    ensures HasKey(SrcDevices.devices, device) && Entry(presets, presetName).None? ==>
      r == Stopped("Preset \"" + presetName + "\" not found")
    ensures r.Ran? <==> HasKey(SrcDevices.devices, device) && Entry(presets, presetName).Some?
    ensures r.Ran? ==> r.session == Execute(perform, SettingsActions(device, Entry(presets, presetName).value))
    ensures !r.ListPresets?
  {
    if !HasKey(SrcDevices.devices, device) then Stopped("Device \"" + device + "\" not found")
    else
      match Entry(presets, presetName)
      case None => Stopped("Preset \"" + presetName + "\" not found")
      case Some(preset) => Ran(ApplySettings(perform, device, preset))
  }

  /** An applied preset calls only the named device, colour before brightness before
      temperature, each carrying the preset's own value, and stops at the first error. */
  lemma PresetCallsInOrder(perform: Perform, presets: seq<(string, PresetConfig)>, device: string, presetName: string)
    requires PresetCommand(perform, presets, device, presetName).Ran?
    ensures var run := PresetCommand(perform, presets, device, presetName).session;
      var preset := Entry(presets, presetName).value;
      (forall i :: 0 <= i < |run.attempted| ==> FromSettings(device, preset, run.attempted[i])) &&
      (forall i, j :: 0 <= i < j < |run.attempted| ==> Rank(run.attempted[i]) < Rank(run.attempted[j])) &&
      (!run.failed ==> run.attempted == SettingsActions(device, preset))
  {
    var preset := Entry(presets, presetName).value;
    var plan := SettingsActions(device, preset);
    var run := PresetCommand(perform, presets, device, presetName).session;
    ExecuteFacts(perform, plan);
    SettingsActionsShape(device, preset);
    assert run.attempted == plan[..|run.attempted|];
    forall i | 0 <= i < |run.attempted| ensures run.attempted[i] == plan[i] {
    }
  }
}
