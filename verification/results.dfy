/** Failure-compatible wrappers and the error conditions the client raises.
    Every `throw new Error(...)` of the source becomes a `Fail`/`Err` carrying
    one of the `Error` constructors below; log lines are not modelled. */
module Results {

  datatype Option<+T> = None | Some(value: T)

  /** The errors the source throws, one constructor per distinct message. */
  datatype Error =
    | DeviceNotFound(name: string, listed: Option<seq<string>>)  // `listed`: the registry keys the message names, if any
    | UndefinedDevice(name: string)                              // TypeError from dereferencing `devices[name]` when it is undefined
    | BrightnessOutOfRange(min: int, max: int)
    | RgbOutOfRange
    | InvalidColor(color: string)
    | TemperatureOutOfRange(min: int, max: int)
    | HttpError(status: int)
    | CommandFailed(code: int, message: string)
    | NotImplemented(what: string)
    | InvalidStateResponse
    | MissingFields(name: string)
    | NoCapabilities(name: string)
    | InvalidCapabilityConfig(name: string)
    | MissingState(capType: string)                                 // TypeError reading `cap.state.value` when `state` is absent

  /** A pass/fail result of an action that returns nothing. */
  datatype Outcome = Pass | Fail(error: Error) {
    predicate IsFailure() { Fail? }
    function PropagateFailure(): Outcome
      requires Fail?
    {
      this
    }
  }

  /** A value or the error that replaced it. */
  datatype Result<+T> = Ok(value: T) | Err(error: Error) {
    predicate IsFailure() { Err? }
    function PropagateFailure<U>(): Result<U>
      requires Err?
    {
      Err(error)
    }
    function Extract(): T
      requires Ok?
    {
      value
    }
  }
}
