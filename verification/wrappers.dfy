/** Failure-compatible wrappers shared by every module of the model. */
module Wrappers {

  /** A value that may be absent; Python's `None` where it stands for "no value". */
  datatype Option<+T> = None | Some(value: T)

  /** The outcome of a step that can raise: the value, or the text of the exception. */
  datatype Result<+T, +E> = Success(value: T) | Failure(error: E)
}
