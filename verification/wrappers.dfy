/** Failure-carrying wrappers shared by the model. */
module Wrappers {

  /** A value that may be missing: the model of Python's `None` for a cell that did not parse. */
  datatype Option<+T> = None | Some(value: T)

  /** The outcome of a step that can fail with a recoverable error. */
  datatype Result<+R, +E> = Success(value: R) | Failure(error: E)
}
