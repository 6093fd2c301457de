/** Failure-carrying datatypes shared by every module of the model. */
module Wrappers {

  /** A value that may be absent (a Go pointer that may be nil). */
  datatype Option<+T> = None | Some(value: T)

  /** The outcome of a Go call that returns only an `error`: nil (Pass) or an error. */
  datatype Outcome<+E> = Pass | Fail(error: E)

  /** The outcome of a Go call that returns a value and an `error`. */
  datatype Result<+R, +E> = Success(value: R) | Failure(error: E)
}
