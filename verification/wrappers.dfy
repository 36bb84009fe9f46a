/** Option for PHP nullable values, Result for an operation that can fail. */
module Wrappers {

  /** A value that may be PHP `null`. */
  datatype Option<+T> = None | Some(value: T)

  /** An outcome that is either a value or an error. */
  datatype Result<+R, +E> = Success(value: R) | Failure(error: E)
}
