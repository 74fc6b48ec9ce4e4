/** Failure-carrying results and the errors the broker reports. */
module Wrappers {

  datatype Option<+T> = None | Some(value: T)

  datatype Result<+R, +E> = Success(value: R) | Failure(error: E)

  /** The error cases of `src/error.rs` that the modelled code can produce, and `Panic` for a failed `expect`. */
  datatype Error =
    | UnexpectedEof
    | FromUtf8
    | IndicatorError(indicator: int)
    | InvalidArrowIpc
    | ArrowError
    | SchemaError
    | TopicAlreadyExists
    | NoOffsetFileFound
    | Panic
}
