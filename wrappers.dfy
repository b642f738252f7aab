/** Option and Result, shared by the other modules. */
module Wrappers {

  datatype Option<+T> = None | Some(value: T)

  /** A value, or the exception the script would raise. */
  datatype Result<+R, +E> = Success(value: R) | Failure(error: E)
}
