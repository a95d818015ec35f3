/** `src/cli/prompts/colorPicker.ts`: the key handler of the interactive picker, the
    hex-entry validator and the mapping from a menu round to the picker's answer.

    `hsvToRgb` works in floating point and is a parameter here: any function from
    (hue, saturation, value) to a triple. Where a property needs the triple to be a valid
    colour, the parameter is required to give one for hue in [0,360) and saturation and
    value in [0,100], which the source's conversion does. */
module Picker {
  import opened Results
  import opened Js
  import opened ColorCodec
  import opened Types

  datatype Status = Pending | Done

  /** `ColorState`. */
  datatype PickerState = PickerState(hue: int, saturation: int, value: int, rgb: Rgb, status: Status)

  /** The `key.name` values the handler reacts to; every other key leaves the state alone. */
  datatype Key = Return | Escape | Left | Right | Up | Down | OtherKey(name: string)

  type HsvToRgb = (int, int, int) -> Rgb

  /** `hsvToRgb` gives a valid colour on the ranges the picker uses. */
  predicate ValidConversion(hsv: HsvToRgb)
  {
    forall h, s, v :: 0 <= h < 360 && 0 <= s <= 100 && 0 <= v <= 100 ==> ValidRgb(hsv(h, s, v))
  }

  /** The state `useState` starts from: pure red at full saturation and value. */
  const Initial: PickerState := PickerState(0, 100, 100, Rgb(255, 0, 0), Pending)

  predicate IsTerminal(key: Key)
  {
    key == Return || key == Escape
  }

  /** One call of the `useKeypress` handler: the next state and, for `return` and `escape`,
      the value passed to `done`. */
  function Step(hsv: HsvToRgb, st: PickerState, key: Key): (r: (PickerState, Option<string>))
    ensures r.0.saturation == st.saturation
    ensures r.1.Some? <==> IsTerminal(key)
    ensures r.1.Some? ==> r.0.status == Done && r.0.hue == st.hue && r.0.value == st.value && r.0.rgb == st.rgb
    ensures key == Return ==> r.1 == Some(RgbToHex(st.rgb))
    ensures key == Escape ==> r.1 == Some("")
    ensures key == Left ==> r.0.value == st.value
    ensures key == Left && 0 <= st.hue < 360 ==> r.0.hue == (if st.hue >= 10 then st.hue - 10 else st.hue + 350)
    ensures key == Right ==> r.0.value == st.value
    ensures key == Right && 0 <= st.hue < 360 ==> r.0.hue == (if st.hue + 10 < 360 then st.hue + 10 else st.hue - 350)
    ensures key == Up ==> r.0.hue == st.hue && r.0.value == (if st.value + 5 <= 100 then st.value + 5 else 100)
    ensures key == Down ==> r.0.hue == st.hue && r.0.value == (if st.value - 5 >= 0 then st.value - 5 else 0)
    ensures key.OtherKey? ==> r == (st, None)
    ensures !IsTerminal(key) ==> r.0.status == st.status
    ensures key == Left || key == Right || key == Up || key == Down ==>
      r.0.rgb == hsv(r.0.hue, r.0.saturation, r.0.value)
  {
    match key
    case Return => (st.(status := Done), Some(RgbToHex(st.rgb)))
    case Escape => (st.(status := Done), Some(""))
    case Left =>
      var hue := Rem(st.hue - 10 + 360, 360);
      (st.(hue := hue, rgb := hsv(hue, st.saturation, st.value)), None)
    case Right =>
      var hue := Rem(st.hue + 10, 360);
      (st.(hue := hue, rgb := hsv(hue, st.saturation, st.value)), None)
    case Up =>
      var value := Min(100, st.value + 5);
      (st.(value := value, rgb := hsv(st.hue, st.saturation, value)), None)
    case Down =>
      var value := Max(0, st.value - 5);
      (st.(value := value, rgb := hsv(st.hue, st.saturation, value)), None)
    case OtherKey(_) => (st, None)
  }

  /** The states the handler can reach from `Initial`: hue a multiple of 10 in [0,350], value a
      multiple of 5 in [0,100], saturation 100, and a valid colour. */
  predicate Reachable(st: PickerState)
  {
    && 0 <= st.hue < 360 && st.hue % 10 == 0
    && 0 <= st.value <= 100 && st.value % 5 == 0
    && st.saturation == 100
    && ValidRgb(st.rgb)
  }

  /** Every key keeps a reachable state reachable. */
  lemma StepKeepsReachable(hsv: HsvToRgb, st: PickerState, key: Key)
    requires ValidConversion(hsv) && Reachable(st)
    ensures Reachable(Step(hsv, st, key).0)
  {
    var next := Step(hsv, st, key).0;
    if key == Left || key == Right || key == Up || key == Down {
      assert 0 <= next.hue < 360 && 0 <= next.value <= 100;
      assert ValidRgb(hsv(next.hue, next.saturation, next.value));
    }
  }

  /** Within [0,360), `left` undoes `right` and `right` undoes `left`, up to the colour, which
      the conversion recomputes from the same hue, saturation and value. */
  lemma LeftUndoesRight(hsv: HsvToRgb, st: PickerState)
    requires 0 <= st.hue < 360
    ensures var back := Step(hsv, Step(hsv, st, Right).0, Left).0;
      back.hue == st.hue && back.value == st.value && back.saturation == st.saturation
    ensures var back := Step(hsv, Step(hsv, st, Left).0, Right).0;
      back.hue == st.hue && back.value == st.value && back.saturation == st.saturation
  {
  }

  /** Any multiple of thirty-six presses of `right` brings the hue back where it started. */
  lemma FullTurns(hsv: HsvToRgb, st: PickerState, k: nat)
    requires 0 <= st.hue < 360
    ensures Press(hsv, st, Right, 36 * k).hue == st.hue
  {
    PressRightHue(hsv, st, 36 * k);
    assert st.hue + 10 * (36 * k) == st.hue + 360 * k;
    WholeTurns(st.hue, k);
  }

  /** Adding whole turns of 360 leaves a hue in [0,360) unchanged modulo 360. */
  lemma {:induction false} WholeTurns(h: int, k: nat)
    requires 0 <= h < 360
    ensures (h + 360 * k) % 360 == h
  {
    if k > 0 {
      WholeTurns(h, k - 1);
      assert h + 360 * k == (h + 360 * (k - 1)) + 360;
    }
  }

  /** The state after pressing one non-terminal key `n` times. */
  function Press(hsv: HsvToRgb, st: PickerState, key: Key, n: nat): PickerState
    requires !IsTerminal(key)
    decreases n
  {
    if n == 0 then st else Press(hsv, Step(hsv, st, key).0, key, n - 1)
  }

  lemma {:induction false} PressRightHue(hsv: HsvToRgb, st: PickerState, n: nat)
    requires 0 <= st.hue < 360
    ensures Press(hsv, st, Right, n).hue == (st.hue + 10 * n) % 360
    decreases n
  {
    if n > 0 {
      var next := Step(hsv, st, Right).0;
      assert next.hue == (st.hue + 10) % 360;
      PressRightHue(hsv, next, n - 1);
      ModAdd(st.hue + 10, 10 * (n - 1));
    }
  }

  lemma ModAdd(a: nat, b: nat)
    ensures (a % 360 + b) % 360 == (a + b) % 360
  {
    var q := a / 360;
    assert a == q * 360 + a % 360;
    assert a + b == q * 360 + (a % 360 + b);
  }

  /** The picker run over a sequence of key presses: `None` while no terminal key has been
      pressed, otherwise the value of the first one. */
  function Run(hsv: HsvToRgb, st: PickerState, keys: seq<Key>): (r: Option<string>)
    ensures r.Some? <==> exists i :: 0 <= i < |keys| && IsTerminal(keys[i])
    decreases |keys|
  {
    if |keys| == 0 then None
    else
      var (next, answer) := Step(hsv, st, keys[0]);
      if answer.Some? then answer
      else
        var r := Run(hsv, next, keys[1..]);
        assert r.Some? ==> exists i :: 0 <= i < |keys| && IsTerminal(keys[i]) by {
          if r.Some? {
            var i :| 0 <= i < |keys[1..]| && IsTerminal(keys[1..][i]);
            assert IsTerminal(keys[i + 1]);
          }
        }
        assert (exists i :: 0 <= i < |keys| && IsTerminal(keys[i])) ==> r.Some? by {
          if exists i :: 0 <= i < |keys| && IsTerminal(keys[i]) {
            var i :| 0 <= i < |keys| && IsTerminal(keys[i]);
            assert i > 0 && IsTerminal(keys[1..][i - 1]);
          }
        }
        r
  }

  /** From a reachable state the picker finishes with "" (escape) or with a string the
      hex-entry validator accepts (return). */
  lemma {:induction false} RunAnswersValidHex(hsv: HsvToRgb, st: PickerState, keys: seq<Key>)
    requires ValidConversion(hsv) && Reachable(st)
    ensures Run(hsv, st, keys).Some? ==> Validate(Run(hsv, st, keys).value).Valid?
    decreases |keys|
  {
    if |keys| > 0 {
      var (next, answer) := Step(hsv, st, keys[0]);
      if answer.Some? {
        if keys[0] == Return {
          RgbToHexMatchesPattern(st.rgb);
        }
      } else {
        StepKeepsReachable(hsv, st, keys[0]);
        RunAnswersValidHex(hsv, next, keys[1..]);
      }
    }
  }

  /** The initial state is reachable, so every answer of the picker passes the validator. */
  lemma PickerAnswersValidHex(hsv: HsvToRgb, keys: seq<Key>)
    requires ValidConversion(hsv)
    ensures Reachable(Initial)
    ensures Run(hsv, Initial, keys).Some? ==> Validate(Run(hsv, Initial, keys).value).Valid?
  {
    RunAnswersValidHex(hsv, Initial, keys);
  }

  /** Confirming at once gives red. */
  lemma ConfirmAtOnce(hsv: HsvToRgb)
    ensures Run(hsv, Initial, [Return]) == Some(RgbToHex(Rgb(255, 0, 0)))
  {
  }

  // ---------------------------------------------------------------- the hex-entry prompt

  datatype Validation = Valid | Invalid(message: string)

  /** The `validate` callback of the hex-entry prompt. */
  function Validate(input: string): (r: Validation)
    ensures r.Valid? <==> input == "" || MatchesHexPattern(input)
    ensures r.Invalid? ==> r.message == "Please enter a valid hex color (e.g. #FF0000)"
  {
    if input == "" then Valid
    else if MatchesHexPattern(input) then Valid
    else Invalid("Please enter a valid hex color (e.g. #FF0000)")
  }

  // ---------------------------------------------------------------- the menu

  /** What one round of the menu produced: the main-menu choice and the answer of the prompt it
      leads to, or an error thrown by any prompt of the round. */
  datatype Round =
    | ChoseExit
    | ChoseInteractive(color: string)
    | ChoseHex(input: string)
    | ChoseList(choice: string)
    | Threw(message: string)

  /** The effect of a round: the picker returns a colour, shows the menu again, or (in the
      compiled variant) rethrows. */
  datatype Answer = Finish(color: string) | ShowAgain | Rethrow(message: string)

  const CurrentColor: string := "CURRENT_COLOR"

  /** `colorPicker` for one round: "exit" and any caught error give "CURRENT_COLOR"; an empty
      interactive or hex answer and "back" show the menu again. */
  function MenuAnswer(round: Round): (a: Answer)
    ensures a.Rethrow? == false
    ensures round.ChoseExit? || round.Threw? ==> a == Finish(CurrentColor)
    ensures round.ChoseInteractive? ==> (a == ShowAgain <==> round.color == "")
    ensures round.ChoseHex? ==> (a == ShowAgain <==> round.input == "")
    ensures round.ChoseList? ==> (a == ShowAgain <==> round.choice == "back")
    ensures a.Finish? && round.ChoseInteractive? ==> a.color == round.color
    ensures a.Finish? && round.ChoseHex? ==> a.color == round.input
    ensures a.Finish? && round.ChoseList? ==> a.color == round.choice
  {
    match round
    case ChoseExit => Finish(CurrentColor)
    case ChoseInteractive(color) => if color == "" then ShowAgain else Finish(color)
    case ChoseHex(input) => if input == "" then ShowAgain else Finish(input)
    case ChoseList(choice) => if choice == "back" then ShowAgain else Finish(choice)
    case Threw(_) => Finish(CurrentColor)
  }

  /** The values of the list prompt: the current colour when it is set and non-empty, then the
      favourites' hex strings, then "back". */
  function ListValues(current: Option<string>, favorites: seq<Choice>): (vs: seq<string>)
    ensures |vs| == (if current.Some? && current.value != "" then 1 else 0) + |favorites| + 1
    ensures vs[|vs| - 1] == "back"
  {
    (if current.Some? && current.value != "" then [current.value] else []) + FavoriteHexes(favorites) + ["back"]
  }

  function FavoriteHexes(favorites: seq<Choice>): (hs: seq<string>)
    ensures |hs| == |favorites|
    ensures forall i :: 0 <= i < |favorites| ==> hs[i] == favorites[i].hex
  {
    if |favorites| == 0 then [] else [favorites[0].hex] + FavoriteHexes(favorites[1..])
  }

  /** A colour chosen from the list is the current colour or a favourite's hex string. */
  lemma ListChoiceIsOffered(current: Option<string>, favorites: seq<Choice>, i: nat)
    requires i < |ListValues(current, favorites)|
    ensures var choice := ListValues(current, favorites)[i];
      MenuAnswer(ChoseList(choice)).Finish? ==>
        (current.Some? && choice == current.value) || exists j :: 0 <= j < |favorites| && choice == favorites[j].hex
  {
    var vs := ListValues(current, favorites);
    var k := if current.Some? && current.value != "" then 1 else 0;
    if i >= k && i < k + |favorites| {
      assert vs[i] == FavoriteHexes(favorites)[i - k];
    }
  }

  /** The repeated menu: rounds run until one does not show the menu again. */
  function Menu(rounds: seq<Round>): (a: Option<Answer>)
    ensures a.Some? ==> a.value != ShowAgain
  {
    if |rounds| == 0 then None
    else if MenuAnswer(rounds[0]) == ShowAgain then Menu(rounds[1..])
    else Some(MenuAnswer(rounds[0]))
  }

  /** The menu's answer is that of the first round that does not go back. */
  lemma {:induction false} MenuFirstAnswer(rounds: seq<Round>, k: nat)
    requires k < |rounds| && MenuAnswer(rounds[k]) != ShowAgain
    requires forall j :: 0 <= j < k ==> MenuAnswer(rounds[j]) == ShowAgain
    ensures Menu(rounds) == Some(MenuAnswer(rounds[k]))
  {
    if k > 0 {
      MenuFirstAnswer(rounds[1..], k - 1);
    }
  }
}
