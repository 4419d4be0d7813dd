/** The optional-value and outcome datatypes shared by every module of the model. */
module Wrappers {

  /** A value that may be absent: JavaScript's `undefined`/`null` next to a present value. */
  datatype Option<+T> = None | Some(value: T) {
    function GetOr(default: T): T {
      match this
      case Some(v) => v
      case None => default
    }
  }

  /** The outcome of an operation that may throw: a value, or the error it throws. */
  datatype Result<+R, +E> = Success(value: R) | Failure(error: E)

  /** What a JavaScript function throws: an `Error` with its message, or the
      `TypeError` raised by reading `property` of `undefined`. */
  datatype Thrown = ErrorThrown(message: string) | UndefinedRead(property: string)
}
