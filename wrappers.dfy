/** `Option` and `Result` values used throughout the model. */
module Wrappers {

  /** A value that may be missing: a dictionary lookup or a JSON field that is not there. */
  datatype Option<+T> = None | Some(value: T)

  /** The outcome of an operation that either returns a value or raises. */
  datatype Result<+R, +E> = Success(value: R) | Failure(error: E)
}
