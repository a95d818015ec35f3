# govee-control-scripts in Dafny

A model of the core of `govee-control-scripts`. This is a set of TypeScript scripts, plus
their compiled JavaScript, that drive Govee lamps and bulbs through the Govee developer API.
The model covers these parts:

- **Device registries.** Three copies exist: `src/config/devices.ts`, `src/devices.ts` and
  `dist/devices.js`. Each holds five devices with capability descriptors. `validateDevice`
  checks the first.
- **Control request builders.** `GoveeApiService`, the TypeScript `GoveeClient` and the
  compiled client each turn an operation into one `POST /router/api/v1/device/control` payload. Their
  colour packing is modelled bit-exactly: `(r << 16) | (g << 8) | b` with JavaScript's 32-bit
  semantics.
- **Name-based facades.** `GoveeControlService`'s wrappers, `src/goveeControl.ts` and
  `dist/goveeControl.js` resolve a device name and validate the argument before delegating.
  This includes the compiled work mode and the state readers (`getCurrentDeviceStates`,
  `saveCurrentStates`, `formatDeviceState`).
- **State decoders.** `src/index.ts`, `src/identifyDevices.ts` and
  `src/cli/commands/identifyDevices.ts` decode the device-state endpoint's capability list
  into power, brightness, colour temperature and a hex colour.
- **Colour stores.** `colorManager` in both its TypeScript and its compiled form, and
  `ColorService`.
- **Colour picker.** The key handler of the interactive picker (hue, value, confirm, escape),
  the hex-entry validator and the menu's answer per round, in the TypeScript and the compiled
  versions.
- **Command-line programs.** `src/cli/index.ts` (`govee`) and `src/cli.ts` (`govee-control`):
  the `control` command's argument checks and the `preset` command's ordered calls.

Everything outside the program's own logic is a parameter:

- The network is a function from a request payload to a reply (HTTP status, body code,
  message). A `Trace` records the payloads sent and whether the call threw.
- The state endpoint is a function from a device to its answer.
- The command lines' service calls are a `Perform` oracle that says whether each call resolves.
- `hsvToRgb` is a parameter of the picker, constrained only to return channels in [0,255].

JavaScript's own semantics used by the code are written out in module `Js`. Strings are
sequences of Unicode characters, which agrees with JavaScript's UTF-16 indexing only for
characters in the Basic Multilingual Plane (see "## Left out"):

- `parseInt`, with and without radix 16: white space, sign, `0x` prefix and longest digit
  prefix.
- `ToInt32` and `|`.
- `toString(16)` and `padStart`.
- Truncating `%`.
- `substring`, `replace` of a one-character string, and `includes`.

## Model

| member | source | states |
|---|---|---|
| Lookups.Keys | src/config/devices.ts:136-142 | `Object.keys` of a registry lists its keys in insertion order, one per entry |
| Lookups.Lookup | src/services/GoveeControlService.ts:75 | `devices[name]` is defined exactly when the name is a key, and then is the entry stored under it |
| Lookups.Resolve | dist/goveeControl.js:15-18 | name resolution succeeds exactly for a registry key; otherwise the error is "Device … not found" with or without the key list |
| Lookups.FindCapability | dist/goveeControl.js:86 | `capabilities.find` of a (type, instance) pair returns the first matching descriptor, and returns nothing exactly when none matches |
| Lookups.IntegerRange | src/goveeControl.ts:67-74 | a descriptor yields a range exactly when it is INTEGER and carries one |
| Lookups.LampDescriptors | src/config/devices.ts:49-92 | a floor lamp's descriptors declare power on/off, brightness 0–100 and its own colour-temperature range, and no packed colour |
| Lookups.BulbDescriptors | src/config/devices.ts:95-112 | a bulb's descriptors add the packed colour range 0–0xFFFFFF to the lamp's |
| Lookups.CapabilityIndexKeys | src/goveeControl.ts:101-113 | the `reduce` index has exactly the "type.instance" keys of the descriptors, each mapped to one of them |
| Lookups.CapabilityIndexLastWins | src/goveeControl.ts:103-110 | when two descriptors share a key, the later one is kept |
| Lookups.CapabilityIndexDescribed | src/goveeControl.ts:101-113 | the index has exactly the descriptors' keys, each holding one of those descriptors, the last one when a key repeats |
| Lookups.FindEntry | src/index.ts:24-39 | `find` over a state response returns the first matching entry, and returns nothing exactly when no entry matches |
| Lookups.ReadStateFirst | src/cli/commands/identifyDevices.ts:27-45 | the value read for a (type, instance) pair is the state of its first matching entry |
| Lookups.StateValue | src/cli/commands/identifyDevices.ts:27-31 | `entry?.state?.value` is defined exactly when the entry, its state and its value are all present |
| Types.LampWellFormed | src/types.ts:32-53 | the lamp descriptor list has INTEGER ranges with min ≤ max and ENUM options |
| Types.BulbWellFormed | src/types.ts:32-53 | the bulb descriptor list is well formed in the same sense |
| Types.MyDevicesKeyedByName | src/types.ts:55-271 | `myDevices` is keyed by each device's display name, and every descriptor is well formed |
| ConfigDevices.CheckCapabilities | src/config/devices.ts:156-163 | the capability loop passes exactly when every capability has a type and an instance, and otherwise throws the invalid-configuration error for that device |
| ConfigDevices.ValidateDevice | src/config/devices.ts:145-164 | a device passes exactly when it has all required fields, at least one capability, and only valid capabilities; each failure gives its own error, checked in source order |
| ConfigDevices.ValidateAll | src/config/devices.ts:166 | the load-time check passes exactly when every device validates, and otherwise reports the error of a failing device |
| ConfigDevices.SharedDescriptors | src/config/devices.ts:49-112 | the lamps' and bulbs' descriptor lists are the shared descriptors with the global or per-device temperature limits |
| ConfigDevices.LampValidates | src/config/devices.ts:145-164 | any lamp with its required fields passes `validateDevice` |
| ConfigDevices.BulbValidates | src/config/devices.ts:145-164 | any bulb with its required fields passes `validateDevice` |
| ConfigDevices.AllDevicesValid | src/config/devices.ts:136-166 | all five registered devices pass the load-time validation |
| ConfigDevices.DescriptorRanges | src/config/devices.ts:49-134 | the temperature ranges are 2000–9000, 2200–6500 and 2700–6500 K; only the bulbs declare a packed colour |
| ConfigDevices.BrightnessEverywhere | src/config/devices.ts:22-33 | every registered device declares brightness 0–100 |
| SrcDevices.RegistryKeys | src/devices.ts:225-231 | the registry has the five identifier keys, all distinct, and no display name is a key |
| SrcDevices.LampShapedEntry | src/devices.ts:4-46 | an entry built from the lamp descriptors declares the expected shapes and its temperature range |
| SrcDevices.DescriptorShapes | src/devices.ts:4-222 | every device declares power on/off, brightness 0–100 and a colour-temperature range |
| SrcDevices.TemperatureRanges | src/devices.ts:4-222 | the per-device colour-temperature ranges the descriptors declare |
| SrcDevices.MyDevicesAgree | src/types.ts:55-271 | `myDevices` holds the same five devices in the same order, under their display names |
| DistDevices.RegistryKeys | dist/devices.js:254-260 | the compiled registry has the same five distinct keys |
| DistDevices.ValidatesEntry | dist/devices.js:2-252 | any entry built from the lamp or bulb descriptors with its fields set passes `validateDevice` |
| DistDevices.LampEntry | dist/devices.js:2-87 | a validated lamp entry declares its temperature range and no packed colour |
| DistDevices.BulbEntry | dist/devices.js:88-252 | a validated bulb entry declares its temperature range and the packed colour range |
| DistDevices.EntriesDeclare | dist/devices.js:2-252 | the floor lamps declare 2000–9000 K and 2200–6500 K; the three bulbs declare 2700–6500 K and a packed colour |
| DistDevices.ValidAt | dist/devices.js:254-260 | each registry entry passes `validateDevice` |
| DistDevices.AllEntriesValid | dist/devices.js:254-260 | the whole compiled registry passes the load-time check |
| Js.ToInt32 | src/services/GoveeApiService.ts:145 | ToInt32 lies in the signed 32-bit range, agrees with its input modulo 2^32, and is the identity on that range |
| Js.NumberToInt32 | src/services/GoveeApiService.ts:145 | a bitwise operand that is NaN counts as 0, and a 32-bit integer counts as itself |
| Js.BitOrDisjoint | src/services/GoveeApiService.ts:145 | `|` of two values with disjoint bits within 31 bits is their sum |
| Js.ShiftLeftSmall | src/services/GoveeApiService.ts:145 | `<<` of a small non-negative value multiplies by a power of two |
| Js.ToHex | src/cli/prompts/colorPicker.ts:244 | `toString(16)` of a non-negative integer is a non-empty string of lower-case hex digits |
| Js.ToHexValue | src/cli/prompts/colorPicker.ts:244 | the digits of `toString(16)` spell the number back |
| Js.PadStart | src/cli/prompts/colorPicker.ts:244 | `padStart` leaves a long enough string alone and otherwise prefixes zeros up to the width |
| Js.PadStartValue | src/cli/commands/identifyDevices.ts:53 | zero padding does not change a digit string's value |
| Js.Rem | src/cli/prompts/colorPicker.ts:51 | `%` is the remainder of truncating division, with the sign of the dividend |
| Js.Substring | src/services/GoveeControlService.ts:106-108 | `substring` within bounds is the slice; out-of-range ends are clamped |
| Js.IndexOfFirst | src/services/GoveeControlService.ts:105 | the index found is the first occurrence, and -1 means there is none |
| Js.RemoveFirst | src/services/GoveeControlService.ts:105 | `replace("#", "")` drops a leading "#" |
| Js.RemoveFirstDeletes | src/services/GoveeControlService.ts:105 | `replace` of a one-character string deletes exactly one character when it occurs and nothing otherwise |
| Js.TrimStartFacts | src/cli/index.ts:258 | `parseInt` skips exactly a prefix of white space |
| Js.DigitPrefixFacts | src/cli/index.ts:258 | `parseInt` reads exactly the longest prefix of digits |
| Js.ParseHexDigits | src/services/GoveeControlService.ts:106-108 | `parseInt(s, 16)` of a string of hex digits in either case is the digits' value |
| ColorCodec.DecodedRgb | dist/goveeControl.js:67-70 | three channels that pass the NaN and range check form a valid colour that encodes back to them |
| ColorCodec.DecodedFromRgb | dist/goveeControl.js:67-70 | the range check accepts every valid colour, and decoding returns that colour |
| ColorCodec.PackRgbValue | src/services/GoveeApiService.ts:145 | for channels in [0,255], the 32-bit bit operators compute the arithmetic packing, which fits in 24 bits |
| ColorCodec.UnpackPack | src/services/GoveeApiService.ts:145 | extracting the bytes of a packed colour gives back its channels |
| ColorCodec.PackUnpack | src/services/GoveeApiService.ts:145 | every 24-bit value is the packing of its own bytes |
| ColorCodec.ChannelHexShape | src/cli/prompts/colorPicker.ts:244 | a channel in [0,255] gives exactly two lower-case hex digits spelling its value |
| ColorCodec.RgbToHexShape | src/cli/prompts/colorPicker.ts:243-246 | `rgbToHex` gives "#" and six lower-case hex digits whose value is the packed colour |
| ColorCodec.RgbToHexMatchesPattern | src/cli/prompts/colorPicker.ts:138-143 | every `rgbToHex` output passes the hex-entry prompt's pattern |
| ColorCodec.PatternCharIsDigit | src/cli/prompts/colorPicker.ts:141 | the pattern's character class is exactly the hex digits `parseInt(…, 16)` accepts |
| ColorCodec.PackedDigitsShape | src/cli/commands/identifyDevices.ts:53 | the six padded digits of a 24-bit colour spell its value |
| ColorCodec.PackedToHexIsRgbToHex | src/cli/commands/identifyDevices.ts:51-53 | the state decoders' hex string equals the picker's `rgbToHex` of the extracted bytes, for every 24-bit colour |
| ColorCodec.DecodeSixDigits | src/services/GoveeControlService.ts:104-108 | "#" and six hex digits decode field by field to the values of the three digit pairs |
| ColorCodec.DecodeMatchedPattern | src/services/GoveeControlService.ts:104-108 | every string the hex-entry prompt accepts decodes to three channels in [0,255] |
| ColorCodec.DecodeRgbToHex | src/services/GoveeControlService.ts:104-108 | hex decoding inverts `rgbToHex` |
| Control.ControlDevice | src/services/GoveeApiService.ts:78-117 | one request carrying the payload is sent; it passes exactly when the status is ok and the body's code is 200, and a non-ok status throws the HTTP error |
| Control.Chain | dist/goveeControl.js:110-117 | a run of awaited steps in one `try` passes exactly when every step passes, then sends everything, and otherwise fails with some step's error |
| Control.ChainStopsAtFirstFailure | dist/goveeControl.js:110-120 | the first failing step ends the run with its error; nothing after it is sent |
| Control.ThenAssociative | dist/goveeControl.js:110-117 | sequencing awaited steps is associative |
| Control.ChainAppend | dist/goveeControl.js:110-117 | two runs back to back are one run over both step lists |
| Control.ChainSentIsPrefix | dist/goveeControl.js:110-117 | a run sends a prefix of the payloads of all its steps, in order |
| ApiService.TurnDevice | src/services/GoveeApiService.ts:120-126 | on/off sends 1 or 0 on the on_off/powerSwitch capability; it passes exactly when the reply is ok with code 200 |
| ApiService.SetBrightness | src/services/GoveeApiService.ts:128-137 | a brightness outside [1,100] throws before any request; otherwise the level is sent on range/brightness |
| ApiService.SetColor | src/services/GoveeApiService.ts:139-152 | the colour is sent as the 32-bit packing of the three channels, unchecked |
| ApiService.SetColorTemperature | src/services/GoveeApiService.ts:154-164 | the temperature is sent as colorTemperatureK with no bound check |
| ApiService.BrightnessAccepted | src/services/GoveeApiService.ts:128-137 | on an accepting network, `setBrightness` succeeds exactly for levels 1–100 |
| ApiService.SetColorPacks | src/services/GoveeApiService.ts:145 | for valid channels the sent value is in [0,0xFFFFFF] and its bytes are the channels |
| ApiService.EmbeddedCodeChecked | src/services/GoveeApiService.ts:107-112 | an ok status whose body code is not 200 still throws, with that code and message |
| Client.TurnDevice | src/client.ts:118-124 | the TypeScript client's on/off request is the service's |
| Client.SetBrightness | src/client.ts:126-139 | the client refuses a brightness outside [1,100] before any request |
| Client.SetColor | src/client.ts:141-157 | a channel compared outside [0,255] throws before any request, and NaN passes that comparison; otherwise the packed channels are sent |
| Client.SetColorTemperature | src/client.ts:159-169 | the temperature is sent unchecked |
| Client.AgreesWithService | src/client.ts:118-169 | the client builds exactly the service's requests, except that `setColor` refuses channels compared out of range |
| Client.SentColorIsPacked | src/client.ts:151-156 | any colour the client sends is a 24-bit value whose bytes are the channels |
| DistClient.TurnDevice | dist/client.js:80-86 | the compiled on/off request is the service's |
| DistClient.SetBrightness | dist/client.js:87-96 | the compiled client refuses a brightness outside [1,100] before any request |
| DistClient.SetColor | dist/client.js:97-105 | the compiled `setColor` sends exactly one RGB request to the given sku and device, carrying the packed channels with no range check |
| DistClient.SetColorTemperature | dist/client.js:106-112 | the temperature is sent unchecked |
| DistClient.AgreesWithService | dist/client.js:52-112 | the compiled client builds exactly the service's requests, for every input |
| DistClient.UncheckedChannelSent | dist/client.js:97-105 | a red channel of 256 is sent and overflows into the fourth byte |
| ControlService.TurnDevice | src/services/GoveeControlService.ts:18-20 | the class's on/off sends the device's identifier and model |
| ControlService.SetDeviceBrightness | src/services/GoveeControlService.ts:22-30 | a brightness outside [0,100] is refused; otherwise the API's own check follows |
| ControlService.SetDeviceColor | src/services/GoveeControlService.ts:32-42 | a channel compared outside [0,255] is refused; otherwise the API's `setColor` follows |
| ControlService.SetDeviceColorTemperature | src/services/GoveeControlService.ts:44-59 | a temperature outside the global [2000,9000] is refused, whatever the device declares |
| ControlService.TurnOn | src/services/GoveeControlService.ts:74-80 | an unknown name fails with "Device … not found" and sends nothing; a registered name sends exactly one power request with value 1 to that entry's sku and device, and succeeds exactly when the network accepts it |
| ControlService.TurnOff | src/services/GoveeControlService.ts:82-88 | an unknown name fails with "Device … not found" and sends nothing; a registered name sends exactly one power request with value 0 to that entry's sku and device, and succeeds exactly when the network accepts it |
| ControlService.SetBrightness | src/services/GoveeControlService.ts:90-96 | a request is sent exactly when the name is registered and the level is in 1–100; it is the one brightness request for that entry's sku and device carrying the level; an unknown name fails with "Device … not found" |
| ControlService.SetColor | src/services/GoveeControlService.ts:98-111 | one request is sent exactly when the device is registered and no decoded channel compares out of range; it is the one RGB request for that entry's sku and device, carrying the packing of the decoded channels |
| ControlService.SetColorTemperature | src/services/GoveeControlService.ts:113-122 | a request is sent exactly when the name is registered and the temperature is in 2000–9000 K; it is the one colour-temperature request for that entry's sku and device carrying the temperature; an unknown name fails with "Device … not found" |
| ControlService.WorkMode | src/services/GoveeControlService.ts:124-127 | work mode throws without sending anything |
| ControlService.SaveCurrentStates | src/services/GoveeControlService.ts:129-132 | saving states throws without sending anything |
| ControlService.UnknownNameRejected | src/services/GoveeControlService.ts:74-122 | every wrapper rejects an unknown name with "Device … not found" before any request |
| ControlService.BrightnessStack | src/services/GoveeControlService.ts:22-30 | the stacked checks accept exactly [1,100]; 0 passes the class and is refused by the API |
| ControlService.TemperatureGlobalBound | src/services/GoveeControlService.ts:44-59 | on an accepting network a registered device accepts exactly 2000–9000 K, so the cylinder lamp gets 7000 K |
| ControlService.SetColorSendsDecoded | src/services/GoveeControlService.ts:98-111 | a colour that decodes to valid channels is sent as their packed value |
| ControlService.NaNChannelsSentAsZero | src/services/GoveeControlService.ts:37 | three NaN channels pass the comparison check and are packed as 0 |
| ControlService.NaNColourSentAsBlack | src/services/GoveeControlService.ts:98-111 | "#zzzzzz" sent to the desk bulb becomes the packed value 0, black |
| ControlService.SetDeviceColorChecked | src/services/GoveeControlService.ts:32-42 | with NaN rejected, a request is sent exactly when the channels decode to a valid colour |
| ControlService.SetColorChecked | src/services/GoveeControlService.ts:98-111 | with NaN rejected, `setColor` sends exactly when the name is registered and the string decodes to a valid colour |
| ControlService.SetColorCheckedAcceptsPattern | src/services/GoveeControlService.ts:98-111 | with NaN rejected, every string the hex-entry prompt accepts is still sent |
| SrcControl.Deref | src/goveeControl.ts:19 | an unchecked `devices[name]` yields the entry for a key and otherwise throws when a field is read |
| SrcControl.TurnOff | src/goveeControl.ts:18-21 | `turnOff` sends power 0 to a known device and throws a TypeError for an unknown one |
| SrcControl.TurnOn | src/goveeControl.ts:23-42 | `turnOn` alone checks the name, listing every key |
| SrcControl.SetBrightness | src/goveeControl.ts:44-50 | a brightness is sent exactly for a known device and a level in [1,100] |
| SrcControl.SetColor | src/goveeControl.ts:52-60 | a colour is sent exactly for a known device and channels not compared out of range |
| SrcControl.SetColorTemperature | src/goveeControl.ts:62-83 | the range check runs only when the device has the looked-up descriptor |
| SrcControl.GetDeviceCapabilities | src/goveeControl.ts:101-113 | a known device's index has exactly its descriptors' "type.instance" keys, each holding one of those descriptors, the last one when a key repeats; an unknown one throws |
| SrcControl.TargetAt | src/devices.ts:225-231 | each registry key resolves to its own entry |
| SrcControl.UnknownNameRejected | src/goveeControl.ts:18-113 | an unknown name makes `turnOn` throw the listing error and every other facade throw the TypeError |
| SrcControl.CapabilityKeys | src/goveeControl.ts:101-113 | a registered device is indexed under exactly powerSwitch.1, brightness.1 and colorTemperature.1 |
| SrcControl.LampIndexKeys | src/goveeControl.ts:101-113 | the lamp descriptor list indexes to exactly those three keys |
| SrcControl.TemperatureLookupNeverMatches | src/goveeControl.ts:67-70 | no registered device has the looked-up color_setting descriptor |
| SrcControl.TemperatureUnchecked | src/goveeControl.ts:62-83 | as written, every temperature is sent to every known device |
| SrcControl.CylinderTakesOutOfRangeTemperature | src/goveeControl.ts:67-80 | the cylinder lamp declares 2200–6500 K, yet 7000 K is sent to it |
| SrcControl.SetColorTemperatureChecked | src/goveeControl.ts:62-83 | the intended check uses the device's own colorTemperature range |
| SrcControl.CheckedTemperaturePerDevice | src/goveeControl.ts:62-83 | with the intended check, 7000 K is refused for the cylinder lamp and sent to the RGBIC lamp |
| SrcControl.Steps | src/goveeControl.ts:92-97 | each work-mode setting contributes three steps |
| SrcControl.WorkMode | src/goveeControl.ts:85-98 | work mode passes exactly when every step passes |
| SrcControl.WorkModeSendsNothing | src/goveeControl.ts:85-98 | as written, the first `turnOn("Desk Bulb")` throws, so nothing is ever sent |
| SrcControl.CheckedSteps | src/goveeControl.ts:92-97 | each intended setting contributes three steps |
| SrcControl.WorkModeByKey | src/goveeControl.ts:85-98 | the intended work mode passes exactly when all its steps pass |
| SrcControl.BulbRangeAt | src/devices.ts:92-222 | the three bulbs declare 2700–6500 K |
| SrcControl.BulbSettingSends | src/goveeControl.ts:92-97 | a bulb setting within the bulb's limits sends power on, brightness and temperature in that order |
| SrcControl.KeyStepsSend | src/goveeControl.ts:85-98 | the intended steps together send the nine requests in order |
| SrcControl.WorkModeByKeySends | src/goveeControl.ts:85-98 | whatever the network answers, the intended work mode sends a prefix of the nine requests, and all of them when it passes |
| SrcControl.BulbSettingPasses | src/goveeControl.ts:92-97 | a bulb setting within limits passes all three steps on an accepting network |
| SrcControl.WorkModeByKeyOnAccepting | src/goveeControl.ts:85-98 | on an accepting network the intended work mode finishes after all nine requests |
| DistControl.Find | dist/goveeControl.js:15-18 | the compiled lookup succeeds exactly for a key, and otherwise lists every key in its error |
| DistControl.TurnOff | dist/goveeControl.js:13-26 | `turnOff` sends power 0 to a known device |
| DistControl.TurnOn | dist/goveeControl.js:27-41 | `turnOn` sends power 1 to a known device |
| DistControl.SetBrightness | dist/goveeControl.js:42-55 | a brightness is sent exactly for a known device and a level in [1,100] |
| DistControl.SetColor | dist/goveeControl.js:56-79 | a colour is sent exactly when the name is known and the string decodes without NaN to [0,255]; the request is the one RGB request for that entry's sku and device, carrying the packed colour; the colour store changes only after a request that succeeded |
| DistControl.SetColorTemperature | dist/goveeControl.js:80-101 | the temperature is checked against the device's own descriptor range when it has one |
| DistControl.GetDeviceCapabilities | dist/goveeControl.js:123-141 | the index exists exactly for a known name and has exactly its descriptors' "type.instance" keys, each holding one of those descriptors, the last one when a key repeats; an unknown name gives the listing error |
| DistControl.UnknownNameRejected | dist/goveeControl.js:13-141 | every compiled facade rejects an unknown name, listing the five keys, before any request |
| DistControl.TargetAt | dist/devices.js:254-260 | each registry key resolves to its own entry |
| DistControl.PickerColourRoundTrip | dist/goveeControl.js:56-79 | a colour from the picker's `rgbToHex` is sent as its own packed value and stored unchanged |
| DistControl.OwnHex | dist/goveeControl.js:63-68 | `rgbToHex` output decodes to its own channels |
| DistControl.HashPrefixStored | dist/goveeControl.js:72 | the stored colour string of an `rgbToHex` output is that output |
| DistControl.TemperaturePerDevice | dist/goveeControl.js:86-93 | 7000 K is refused for the cylinder lamp and sent to the RGBIC lamp |
| DistControl.Steps | dist/goveeControl.js:110-117 | each work-mode setting contributes three steps |
| DistControl.WorkMode | dist/goveeControl.js:102-121 | work mode passes exactly when every step passes |
| DistControl.SettingSends | dist/goveeControl.js:110-117 | a ready setting sends power on, brightness and temperature, one request per step |
| DistControl.StepsSend | dist/goveeControl.js:110-117 | the steps of ready settings send their payloads in order |
| DistControl.StepsPassOnAccepting | dist/goveeControl.js:110-117 | ready settings pass every step on an accepting network |
| DistControl.WorkModeSettingsReady | dist/goveeControl.js:104-109 | every work-mode setting names a known device, with brightness in [1,100] and 3800 K inside the device's range |
| DistControl.BulbReady | dist/goveeControl.js:104-109 | a bulb setting at 3800 K is ready |
| DistControl.CylinderReady | dist/goveeControl.js:104-109 | the cylinder lamp's setting at 3800 K is ready |
| DistControl.WorkModeSendsInOrder | dist/goveeControl.js:102-121 | whatever the network answers, work mode sends a prefix of its twelve requests, and all of them when it passes |
| DistControl.WorkModeOnAccepting | dist/goveeControl.js:102-121 | on an accepting network work mode sends all twelve requests and passes |
| DistControl.WorkModeStopsAtFirstFailure | dist/goveeControl.js:110-120 | when the first request is refused, work mode rethrows after sending only it |
| CapabilityState.FormatCapabilityState | src/identifyDevices.ts:23-28 | the reduce fails exactly when some entry lacks a state |
| CapabilityState.FirstMissingStateReported | src/identifyDevices.ts:23-28 | the failure names the type of the first entry without a state |
| CapabilityState.KeysAreTypes | src/identifyDevices.ts:23-28 | the record's keys are exactly the entry types |
| CapabilityState.LastOfTypeWins | src/identifyDevices.ts:23-28 | for a repeated type, the last entry's value is kept |
| CliIdentify.ColorField | src/cli/commands/identifyDevices.ts:51-53 | a falsy colour reads as "#ffffff"; a truthy one as "#" and its digits |
| CliIdentify.FormatDeviceState | src/cli/commands/identifyDevices.ts:24-55 | power is on exactly when the first power entry reads 1; brightness, temperature and colour are read from their first entries |
| CliIdentify.PackedColourDigits | src/cli/commands/identifyDevices.ts:51-53 | a packed colour in [1,0xFFFFFF] reads as "#" and six lower-case digits spelling it |
| CliIdentify.ColourReadBack | src/cli/commands/identifyDevices.ts:51-53 | a colour set through the packing helpers reads back as `rgbToHex`, except black, which reads as white |
| CliIdentify.BrightnessFirstMatch | src/cli/commands/identifyDevices.ts:32-35 | brightness is the value of the first brightness entry |
| CliIdentify.PowerOnlyForOne | src/cli/commands/identifyDevices.ts:27-31 | power is on exactly when the first power entry's value is the number 1 |
| IndexState.OrFalse | src/index.ts:45 | `?? false` keeps a present value and substitutes false for an absent one |
| IndexState.FormatDeviceState | src/index.ts:17-47 | a response without a capability list is rejected; otherwise the fields come from the first matching entries |
| IndexState.GetDeviceState | src/index.ts:49-63 | an unknown name is rejected with every key listed, before any request |
| IndexState.KnownNameDecodesItsState | src/index.ts:49-63 | a known name decodes the state its own device reports |
| IndexState.AgreesWithCliDecoder | src/index.ts:17-47 | power, brightness and colour temperature agree with the command-line decoder for every response |
| DistStates.WhiteHex | dist/goveeControl.js:165-172 | the colour 0xFFFFFF is written "#ffffff" |
| DistStates.CurrentColour | dist/goveeControl.js:165-172 | an absent colour stays absent, 0 becomes white, and any other truthy value is its hex string |
| DistStates.CurrentState | dist/goveeControl.js:153-178 | power, brightness and temperature read as the command-line decoder reads them |
| DistStates.FormatDeviceState | dist/goveeControl.js:199-211 | a missing capability list throws; the colour is kept only when truthy |
| DistStates.CollectedKeys | dist/goveeControl.js:142-182 | only registry keys are collected |
| DistStates.CollectedAt | dist/goveeControl.js:142-182 | a device is collected exactly when its state request answered, with the decoding of its own answer |
| DistStates.CollectedStates | dist/goveeControl.js:142-182 | the collected map holds exactly the registry's devices that answered, each with its own reading |
| DistStates.AllAnswerCons | dist/goveeControl.js:185-188 | every device answers exactly when the first does and every later one does |
| DistStates.SavedExactlyWhenAllAnswer | dist/goveeControl.js:183-198 | saving succeeds exactly when every device answers |
| DistStates.SavedKeys | dist/goveeControl.js:183-198 | only registry keys are saved |
| DistStates.SavedAt | dist/goveeControl.js:183-198 | on success every device is saved with the decoding of its own answer |
| DistStates.SavedErrorIsFirst | dist/goveeControl.js:185-189 | on failure the error is that of the first device, in order, that does not answer |
| DistStates.SameReadingAt | dist/goveeControl.js:142-211 | a device seen by both readers has the same power, brightness and temperature |
| DistStates.SavedAgreesWithCollected | dist/goveeControl.js:142-211 | when every device answers, saved and collected states name the same devices and agree on each field the saved state holds |
| DistStates.SavedAgreesWithCurrent | dist/goveeControl.js:142-211 | for the compiled facade's registry, when every device answers, saved and current states name the same devices and agree on power, brightness and colour temperature, and a saved colour is the current one |
| DistStates.CurrentStateOf | dist/goveeControl.js:145-180 | a registry device is in the current states exactly when it answers |
| DistStates.CurrentColourReadBack | dist/goveeControl.js:165-172 | a colour sent packed reads back as `rgbToHex`, and black reads back as white |
| DistStates.ZeroColourReadings | dist/goveeControl.js:167 | a reported colour 0 is white in the current states and absent from the saved states |
| ColorManager.Fresh | src/colorManager.ts:13-26 | a new store shares the default object: no current colours, six favourites |
| ColorManager.Init | src/colorManager.ts:34-46 | each field of the file replaces the store's, a missing field takes the default, and a failed read leaves the store as it was |
| ColorManager.GetCurrentColor | src/colorManager.ts:60-62 | a device's colour is defined exactly when it is in the current map |
| ColorManager.SetCurrentColor | src/colorManager.ts:64-67 | the current map is updated at one key and the favourites are untouched |
| ColorManager.SetThenGet | src/colorManager.ts:60-71 | a colour update is read back for that device and changes no other read |
| ColorManager.SharedDefaultKeepsEarlyColours | src/colorManager.ts:26-41 | a colour set before a load without current colours survives it, because the default object was mutated; a file with its own map hides it |
| ColorManager.DefaultFavouriteNames | src/colorManager.ts:13-23 | a fresh store and a file without favourites both give the six default favourites |
| DistColorManager.SameDefaults | dist/colorManager.js:4-14 | the compiled defaults equal the TypeScript defaults |
| DistColorManager.Init | dist/colorManager.js:22-35 | the compiled `init` takes each field of the file, or the default for a missing one |
| DistColorManager.GetCurrentColor | dist/colorManager.js:45-47 | a device's colour is defined exactly when it is in the current map |
| DistColorManager.SetCurrentColor | dist/colorManager.js:48-51 | the next read of that device gives the new colour; other reads and the favourites are unchanged |
| ColorService.Fresh | src/services/ColorService.ts:19-30 | a new service has no saved states and eight favourites |
| ColorService.Init | src/services/ColorService.ts:32-40 | a loaded map replaces the saved states; a failed load leaves them |
| ColorService.GetCurrentColor | src/services/ColorService.ts:42-44 | the colour of an unsaved device is undefined; otherwise it is the saved entry's colour |
| ColorService.SetCurrentColor | src/services/ColorService.ts:46-52 | the device's entry is created if needed and gets the colour; its other fields and every other entry are unchanged |
| ColorService.FavoritesNeverChange | src/services/ColorService.ts:21-30 | no sequence of loads and colour updates changes the favourites |
| ColorService.SetThenGet | src/services/ColorService.ts:42-52 | a colour update is read back for that device and changes no other read |
| ColorService.FailedInitIsEmpty | src/services/ColorService.ts:32-40 | after a failed first load every read is undefined |
| Picker.Step | src/cli/prompts/colorPicker.ts:36-73 | only return and escape finish, with `rgbToHex` of the colour or ""; after an arrow key the colour is `hsvToRgb` of the new hue, saturation and value; from a hue in [0,360), left and right move it by 10 and wrap around within [0,360); up and down move the value by 5, clamped to [0,100]; saturation never changes; other keys do nothing |
| Picker.StepKeepsReachable | src/cli/prompts/colorPicker.ts:28-73 | from the initial state the hue stays a multiple of 10 in [0,350], the value a multiple of 5 in [0,100], and the colour valid |
| Picker.LeftUndoesRight | src/cli/prompts/colorPicker.ts:50-60 | left undoes right and right undoes left |
| Picker.FullTurns | src/cli/prompts/colorPicker.ts:56-60 | every multiple of 36 presses of right returns the hue to where it started |
| Picker.PressRightHue | src/cli/prompts/colorPicker.ts:56-60 | n presses of right advance the hue by 10n modulo 360 |
| Picker.Run | src/cli/prompts/colorPicker.ts:36-73 | the picker answers exactly when some key is return or escape |
| Picker.RunAnswersValidHex | src/cli/prompts/colorPicker.ts:36-73 | from a reachable state every answer passes the hex-entry validator |
| Picker.PickerAnswersValidHex | src/cli/prompts/colorPicker.ts:28-73 | every answer of the interactive picker passes the hex-entry validator |
| Picker.ConfirmAtOnce | src/cli/prompts/colorPicker.ts:28-41 | confirming at once gives "#ff0000" |
| Picker.Validate | src/cli/prompts/colorPicker.ts:138-143 | the hex prompt accepts exactly "" and "#" followed by six hex digits, and otherwise gives its message |
| Picker.MenuAnswer | src/cli/prompts/colorPicker.ts:120-195 | "exit" and every caught error give "CURRENT_COLOR"; an empty answer or "back" shows the menu again; any other answer is returned as given; nothing is rethrown |
| Picker.ListValues | src/cli/prompts/colorPicker.ts:152-171 | the list offers the current colour when set, then every favourite, then "back" |
| Picker.FavoriteHexes | src/cli/prompts/colorPicker.ts:165-168 | the favourites contribute their hex strings in order |
| Picker.ListChoiceIsOffered | src/cli/prompts/colorPicker.ts:151-183 | a colour chosen from the list is the current colour or a favourite's hex string |
| Picker.Menu | src/cli/prompts/colorPicker.ts:120-183 | the repeated menu never ends with "show again" |
| Picker.MenuFirstAnswer | src/cli/prompts/colorPicker.ts:120-183 | the menu's answer is that of the first round that does not go back |
| DistPicker.SameHandler | dist/prompts/colorPicker.js:12-44 | the compiled key handler equals the TypeScript one on every state and key |
| DistPicker.SameInitialState | dist/prompts/colorPicker.js:5-11 | the compiled picker starts from the same reachable state |
| DistPicker.StepKeepsReachable | dist/prompts/colorPicker.js:12-44 | the compiled handler keeps the reachable-state invariant, and it answers only "" or a string the hex prompt accepts |
| DistPicker.MenuAnswer | dist/prompts/colorPicker.js:56-140 | a "User force closed" error gives "CURRENT_COLOR", every other error is rethrown, and the other rounds answer as in TypeScript |
| DistPicker.DiffersOnlyOnOtherErrors | dist/prompts/colorPicker.js:133-140 | the two menus differ exactly on an error that is not a forced close |
| DistPicker.ErrorExamples | dist/prompts/colorPicker.js:133-140 | examples: "Network down" is rethrown; "User force closed the prompt" is not |
| CliCommon.ExecuteFacts | src/cli/index.ts:322-347 | awaiting calls in order makes a prefix of them, all of them exactly when none throws, and on failure ends with the one that threw |
| CliCommon.ExecuteCons | src/cli/index.ts:322-347 | a run is the first call and, if it resolved, the run of the rest |
| CliCommon.ExecuteAppend | src/cli/index.ts:322-347 | running two call lists back to back is running their concatenation |
| CliCommon.ExecuteAllResolving | src/cli/index.ts:322-347 | when every call resolves, all of them are made and the run succeeds |
| CliCommon.SettingsActions | src/cli/index.ts:331-339 | one call per present setting, each carrying the preset's value |
| CliCommon.SettingsActionsShape | src/cli/index.ts:331-339 | the calls go to the named device, colour before brightness before temperature |
| CliCommon.ApplySettings | src/cli/index.ts:331-339 | the three `if`s behave as running the planned calls in order and stopping at the first that throws |
| CliCommon.EmptySettingsDoNothing | src/cli/index.ts:331-339 | a preset entry with no settings makes no call |
| CliCommon.Entry | src/cli/index.ts:314-315 | the lookup finds a value exactly when the key is present, and that value is stored under it |
| CliCommon.Names | src/cli/index.ts:307-320 | the listing names every preset in order |
| CliCommon.Control | src/cli/index.ts:233-299 | an unknown device stops with the not-found message; an unknown operation shows help; on, off, work and save-states call `turnOn`, `turnOff`, `workMode` and `saveCurrentStates`; brightness is called exactly for an integer in [0,100] and temperature for any integer; no colour call is made |
| CliCommon.TemperatureUnbounded | src/cli/index.ts:266-278 | every value that parses, negative or above any device's range, is forwarded as the parsed temperature |
| CliCommon.BrightnessCapped | src/cli/index.ts:253-265 | every value that parses to a level outside [0,100] is refused before any call |
| CliCommon.ControlExamples | src/cli/index.ts:253-278 | examples: 7000 and -5 K are forwarded, a brightness of 101 is refused |
| CliCommon.PromptValidate | src/cli/index.ts:64-86 | the prompt accepts exactly a parsed number, in [0,100] for brightness |
| CliCommon.PromptAgreesWithControl | src/cli/index.ts:73-82 | the prompt and the `-v` option accept the same answers and make the same call |
| CliIndex.UnknownDeviceStops | src/cli/index.ts:235-242 | an unknown device stops the command, and the message lists the five registry keys |
| CliIndex.UnknownOperationShowsHelp | src/cli/index.ts:286-293 | `color` and a missing operation show help and make no call |
| CliIndex.ZeroBrightnessPassesCommandLineOnly | src/cli/index.ts:253-285 | for every registered device, brightness 0 passes the command line but the service refuses it; work and save-states always fail |
| CliIndex.ApplyEntriesExecutesPlan | src/cli/index.ts:322-342 | the preset loop runs the planned calls in order and aborts the remaining devices at the first throw |
| CliIndex.PlannedFromRegistered | src/cli/index.ts:324-339 | every planned call goes to a registered device of the preset and carries its own setting |
| CliIndex.UnknownDeviceSkipped | src/cli/index.ts:324-329 | an unknown device is skipped, and later devices are still applied |
| CliIndex.PresetCommand | src/cli/index.ts:301-348 | a missing or unknown preset lists the presets; a known one runs its plan |
| CliIndex.PresetAbortsOnFirstError | src/cli/index.ts:322-347 | a preset run makes every planned call or stops at the first that throws; it fails exactly when some planned call throws |
| CliIndex.ColourChoice | src/cli/index.ts:153-164 | "CURRENT_COLOR" keeps the colour; any other answer is sent to that device |
| CliIndex.PickerChoiceSent | src/cli/index.ts:153-164 | exit or a picker error sends nothing; a confirmed interactive colour is sent |
| Cli.UnknownDeviceStops | src/cli.ts:227-234 | an unknown device stops the command; display names such as "Desk Bulb" are unknown |
| Cli.PromptMatchesOption | src/cli.ts:55-77 | the prompt and the `-v` option agree for a registered device |
| Cli.PresetCommand | src/cli.ts:293-324 | an unknown device stops first, then an unknown preset; otherwise the preset's settings run in order |
| Cli.PresetCallsInOrder | src/cli.ts:310-318 | an applied preset calls only the named device, colour before brightness before temperature, and stops at the first error |

## Left out

- Networking and credentials. HTTP, `fetch`, the API key check at load time, request UUIDs,
  headers and the endpoints' base URL are left out. The network is a parameter.
- `getDevices`, `getDeviceState` and `getAllDevices` of the services are not modelled. They
  only forward a request. The state answer is a parameter.
- File I/O is left out. The model has no `colors.json`, `saved-states.json`, `presets.json`
  or `devices.json`, and no `loadColors`, `loadDeviceColors` or `saveDeviceColors`.
  - A load is modelled as its parsed contents or a failure.
  - `save` after `setCurrentColor` is left out, and so is its error path.
  - `saveCurrentStates` yields the map it would write.
- Concurrency. `Promise.all` in `saveCurrentStates` is modelled as a run in registry order;
  its error is the first failing device's.
- Numbers are integers, or NaN where a string is parsed into a colour channel. Fractional
  values are not modelled.
  - `hsvToRgb` is a parameter of the picker, assumed to give channels in [0,255].
  - `parseInt` of a fractional string reads its integer prefix, as JavaScript does.
  - JSON `null` is not modelled.
- Brightness and temperature arguments are integers only. A NaN level passes every `<`/`>`
  range check and would be sent; the command lines reject NaN with `isNaN` before calling
  (src/cli/index.ts:259,272 and src/cli.ts:251,264). The members below therefore do not
  model the NaN path.
- ApiService.SetBrightness: a NaN brightness passes `brightness < 1 || brightness > 100` and would be sent; not modelled.
- ApiService.BrightnessAccepted: covers integer levels only; a NaN level would also be accepted.
- Client.SetBrightness: a NaN brightness passes the [1,100] check and would be sent; not modelled.
- DistClient.SetBrightness: a NaN brightness passes the [1,100] check and would be sent; not modelled.
- ControlService.SetDeviceBrightness: a NaN brightness passes the [0,100] check and the API's [1,100] check; not modelled.
- ControlService.SetBrightness: a NaN brightness passes both stacked checks and would be sent; not modelled.
- ControlService.SetDeviceColorTemperature: a NaN temperature passes the [2000,9000] check and would be sent; not modelled.
- ControlService.SetColorTemperature: a NaN temperature passes the [2000,9000] check and would be sent; not modelled.
- DistControl.SetBrightness: a NaN brightness passes the client's [1,100] check and would be sent; not modelled.
- DistControl.SetColorTemperature: a NaN temperature passes the descriptor's range check and would be sent; not modelled.
- SrcControl.SetBrightness: a NaN brightness passes the client's [1,100] check and would be sent; not modelled.
- SrcControl.SetColorTemperature: a NaN temperature is forwarded like any other; not modelled.
- CliIdentify.FormatDeviceState: the state answer always has a capability list. An answer
  without `payload.capabilities` makes `capabilities.find` throw a TypeError
  (src/cli/commands/identifyDevices.ts:25); that path is not modelled.
- Strings are sequences of Unicode scalar values, not UTF-16 code units. So `substring`,
  `padStart`, `length` and `parseInt` differ from JavaScript on characters outside the Basic
  Multilingual Plane, which JavaScript counts as two units. For example, the model decodes
  `"#f😀fff"` to channels 15, 255 and 15. JavaScript reads the green field as a lone surrogate
  followed by "f", which `parseInt` makes NaN. This concerns ColorCodec.DecodeHex and the
  colour facades built on it (ControlService.SetColor, DistControl.SetColor). The `padStart`
  calls in CliIdentify.ColorField and DistStates.HexOf see only `toString(16)` digits, and the
  colour strings the picker and the hex prompt produce are ASCII; on those the two agree.
- JavaScript object keys are a list of (key, value) pairs. Inherited prototype keys, such as
  `devices["constructor"]`, are not modelled.
- CliCommon.Names and CliCommon.Entry: a preset file is taken as its entries in file order,
  without duplicate keys. `Object.keys` and `Object.entries` list integer-like keys first, in
  ascending order, and `JSON.parse` keeps the last value of a duplicated key, where `Entry`
  returns the first. Neither effect is modelled.
- CapabilityState.FormatCapabilityState: the state answer always has a capability list. An
  answer without `payload.capabilities` makes the `reduce` throw a TypeError
  (src/identifyDevices.ts:24); that path is not modelled.
- `src/cli.ts` passes a hex string to the four-argument `setColor` of `src/goveeControl.ts`
  in its preset command. So in that program each call's outcome is left to the `Perform`
  oracle; the model does not derive it from the facade.
- The terminal UI is left out: inquirer and commander prompts, help text, colours, console
  output and `process.exit`. The interactive mode is modelled only through its colour choice
  and its value prompt. Its recursive loop back to the device menu is left out.
- The `list` command and the `identifyDevices` main routines only print or write files, so
  they are left out.
- Command-line scripts outside the core are not part of this model: `src/floorLampDaytime.ts`,
  `src/deskBulbDaytime.ts`, `src/saveStates.ts`, `src/cli/commands/saveStates.ts`,
  `src/prompts/colorPicker.ts` and `src/examples/colorPickerExample.ts`.
- Picker.Step: `hsvToRgb` is a parameter. The colour after an arrow key is stated as that
  function of the new hue, saturation and value, not as particular channel values.
- CliCommon.Control: the operation and value strings are taken as given. Commander's own
  parsing of the argument list is not modelled.

## Findings

| source | as written | input that shows it | evidently intended | confidence | as-written member | corrected member |
|---|---|---|---|---|---|---|
| src/services/GoveeControlService.ts:98-111 | the decoded channels are checked only with `v < 0 \|\| v > 255`, which is false for NaN, and NaN packs as 0 | `setColor("deskBulb", "#zzzzzz")` sends the packed colour 0 (black) | reject NaN channels, as `dist/goveeControl.js:67-70` does | not executed | ControlService.NaNColourSentAsBlack | ControlService.SetColorCheckedAcceptsPattern |
| src/goveeControl.ts:67-80 | the range lookup asks for a `devices.capabilities.color_setting`/`colorTemperatureK` descriptor, which no registered device declares, so the check never runs | `setColorTemperature("cylinderFloorLamp", 7000)` is sent although the lamp declares 2200–6500 K | check the device's own `colorTemperature` descriptor | not executed | SrcControl.CylinderTakesOutOfRangeTemperature | SrcControl.CheckedTemperaturePerDevice |
| src/goveeControl.ts:85-98 | the work-mode settings name devices by display name, and the registry is keyed by identifier | `workMode()` throws at `turnOn("Desk Bulb")` and sends nothing | use the registry keys `deskBulb`, `ceiling1`, `ceiling2` | not executed | SrcControl.WorkModeSendsNothing | SrcControl.WorkModeByKeyOnAccepting |
