/** Option and Result, the usual failure-carrying datatypes. */
module Wrappers {

  datatype Option<+T> = None | Some(value: T)

  /** The outcome of an asynchronous call that resolves with a value or rejects with an error. */
  datatype Result<+R, +E> = Success(value: R) | Failure(error: E)

  /** The outcome of an asynchronous call that resolves with nothing or rejects with an error. */
  datatype Outcome<+E> = Pass | Fail(error: E)
}
