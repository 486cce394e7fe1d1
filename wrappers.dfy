/** Failure-carrying values standing in for the exceptions the span throws. */
module Wrappers {

  /** Some/None, used for an optional fault and for a nullable managed array. */
  datatype Option<+T> = None | Some(value: T)

  /** The value of an operation that either returns or throws. */
  datatype Result<+R, +E> = Success(value: R) | Failure(error: E)

  /** The value of an operation that returns nothing or throws. */
  datatype Outcome<+E> = Pass | Fail(error: E)
}
