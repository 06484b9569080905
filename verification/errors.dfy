/** Failure-carrying values shared by the repository model: the three kinds of
    argument exception the repository raises, and the wrappers that carry them
    instead of a throw. */
module Errors {

  datatype Option<+T> = None | Some(value: T)

  /** The exceptions the repository raises synchronously, before any store call.
      `ArgumentOutOfRangeException(string)` takes a parameter name, and the
      repository passes its explanatory text in that position, so the text is
      kept as `paramName` here. */
  datatype Error =
    | ArgumentNull(paramName: string)
    | ArgumentOutOfRange(paramName: string)
    | Argument(message: string)

  /** A value, or the exception raised instead of returning it. */
  datatype Result<+R> = Success(value: R) | Failure(error: Error)

  /** The outcome of a check that returns nothing when it passes. */
  datatype Outcome = Pass | Fail(error: Error)
}
