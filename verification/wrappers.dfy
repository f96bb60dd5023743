/** Failure-carrying datatypes used for the error paths of the window's operations. */
module Wrappers {

  /** A value that may be absent. */
  datatype Option<+T> = None | Some(value: T)

  /** Either a value or the error the Python code would have raised. */
  datatype Result<+R, +E> = Success(value: R) | Failure(error: E)
}
