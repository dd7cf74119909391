/** Option and Result values shared by every module of the model. */
module Wrappers {

  /** A value that may be absent: JavaScript's `undefined`/`null` next to a present value. */
  datatype Option<+T> = None | Some(value: T)

  /** The outcome of an operation that either produces a value or fails with an error. */
  datatype Result<+T, +E> = Ok(value: T) | Err(error: E)

  /** What a failed call threw: an `Error` carrying a message, or any other value. */
  datatype Thrown = ErrorWithMessage(message: string) | NonError

  /** `error instanceof Error ? error.message : otherwise`. */
  function MessageOr(t: Thrown, otherwise: string): string {
    match t
    case ErrorWithMessage(m) => m
    case NonError => otherwise
  }
}
