/** Option and Result, the two failure-carrying datatypes the model uses. */
module Wrappers {

  /** A value that may be absent: JavaScript's `null`/`undefined` next to a value. */
  datatype Option<+T> = None | Some(value: T)

  /** The outcome of a validator: the record to submit, or the error message to show. */
  datatype Result<+R, +E> = Success(value: R) | Failure(error: E)
}
