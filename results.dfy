/** Error results shared by the model. Every `raise ValueError(...)` of the
    source becomes an `Err` carrying one of the `Error` kinds below. */
module Results {

  /** The distinct reasons for which the source raises `ValueError`. */
  datatype Error =
    | InvalidKeyCode(code: int)
    | InvalidModifier(code: int)
    | NegativeBaseDelay
    | NegativeVariance
    | NegativeDelay
    | NotOneCharacter
    | InvalidTarget
    | NonPositiveWpm
    | MissingProfileKey(key: string)
    | BodyRaised

  datatype Result<+T> = Ok(value: T) | Err(error: Error)

  datatype Option<+T> = None | Some(value: T)
}
