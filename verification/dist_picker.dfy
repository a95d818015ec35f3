/** `dist/prompts/colorPicker.js`: the compiled picker. Its key handler is the same as the
    TypeScript one; its menu differs in the error path, where only a "User force closed"
    error becomes "CURRENT_COLOR" and every other error is rethrown. */
module DistPicker {
  import opened Results
  import opened Js
  import opened ColorCodec
  import Picker

  /** The compiled `useKeypress` handler. */
  function Step(hsv: Picker.HsvToRgb, st: Picker.PickerState, key: Picker.Key): (r: (Picker.PickerState, Option<string>))
  {
    match key
    case Return => (st.(status := Picker.Done), Some(RgbToHex(st.rgb)))
    case Escape => (st.(status := Picker.Done), Some(""))
    case Left =>
      var hue := Rem(st.hue - 10 + 360, 360);
      (st.(hue := hue, rgb := hsv(hue, st.saturation, st.value)), None)
    case Right =>
      var hue := Rem(st.hue + 10, 360);
      (st.(hue := hue, rgb := hsv(hue, st.saturation, st.value)), None)
    case Up =>
      var value := Min(100, st.value + 5);
      (st.(value := value, rgb := hsv(st.hue, st.saturation, value)), None)
    case Down =>
      var value := Max(0, st.value - 5);
      (st.(value := value, rgb := hsv(st.hue, st.saturation, value)), None)
    case OtherKey(_) => (st, None)
  }

  /** The compiled handler behaves as the TypeScript one on every state and key, so every
      property of the TypeScript picker holds for it: hue wraps in [0,360), value is clamped
      to [0,100], saturation never changes, and only `return` and `escape` finish. */
  lemma SameHandler(hsv: Picker.HsvToRgb, st: Picker.PickerState, key: Picker.Key)
    ensures Step(hsv, st, key) == Picker.Step(hsv, st, key)
  {
  }

  /** The same initial state: hue 0, saturation 100, value 100, red, pending. */
  const Initial: Picker.PickerState := Picker.PickerState(0, 100, 100, Rgb(255, 0, 0), Picker.Pending)

  lemma SameInitialState()
    ensures Initial == Picker.Initial
    ensures Picker.Reachable(Initial)
  {
  }

  /** Every key keeps the reachable-state invariant of the TypeScript picker. */
  lemma StepKeepsReachable(hsv: Picker.HsvToRgb, st: Picker.PickerState, key: Picker.Key)
    requires Picker.ValidConversion(hsv) && Picker.Reachable(st)
    ensures Picker.Reachable(Step(hsv, st, key).0)
    ensures Step(hsv, st, key).1 == Some("") || Step(hsv, st, key).1 == None ||
      (Step(hsv, st, key).1.Some? && MatchesHexPattern(Step(hsv, st, key).1.value))
  {
    SameHandler(hsv, st, key);
    Picker.StepKeepsReachable(hsv, st, key);
    if key == Picker.Return {
      RgbToHexMatchesPattern(st.rgb);
    }
  }

  const ForceClosed: string := "User force closed"

  /** The compiled `colorPicker` for one round: as in the TypeScript picker, except that an
      error not mentioning "User force closed" is rethrown. */
  function MenuAnswer(round: Picker.Round): (a: Picker.Answer)
    ensures round.Threw? ==>
      (Includes(round.message, ForceClosed) ==> a == Picker.Finish(Picker.CurrentColor))
    ensures round.Threw? ==>
      (!Includes(round.message, ForceClosed) ==> a == Picker.Rethrow(round.message))
    ensures !round.Threw? ==> a == Picker.MenuAnswer(round)
  {
    match round
    case ChoseExit => Picker.Finish(Picker.CurrentColor)
    case ChoseInteractive(color) => if color == "" then Picker.ShowAgain else Picker.Finish(color)
    case ChoseHex(input) => if input == "" then Picker.ShowAgain else Picker.Finish(input)
    case ChoseList(choice) => if choice == "back" then Picker.ShowAgain else Picker.Finish(choice)
    case Threw(message) =>
      if Includes(message, ForceClosed) then Picker.Finish(Picker.CurrentColor) else Picker.Rethrow(message)
  }

  /** The two pickers answer alike except on an error other than a forced close, which the
      TypeScript picker turns into "CURRENT_COLOR" and the compiled one rethrows. */
  lemma DiffersOnlyOnOtherErrors(round: Picker.Round)
    ensures MenuAnswer(round) != Picker.MenuAnswer(round) <==>
      round.Threw? && !Includes(round.message, ForceClosed)
  {
  }

  /** Examples: "Network down" is rethrown; "User force closed the prompt" is not. */
  lemma ErrorExamples()
    ensures MenuAnswer(Picker.Threw("Network down")) == Picker.Rethrow("Network down")
    ensures MenuAnswer(Picker.Threw("User force closed the prompt")) == Picker.Finish("CURRENT_COLOR")
  {
    assert OccursAt("User force closed the prompt", ForceClosed, 0);
    assert |"Network down"| < |ForceClosed|;
  }
}
