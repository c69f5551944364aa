/** Option and Result, for the source's optional values and thrown errors. */
module Wrappers {

  datatype Option<+T> = None | Some(value: T)

  /** A computation that either produced a value or threw an error. */
  datatype Result<+R, +E> = Success(value: R) | Failure(error: E)
}
