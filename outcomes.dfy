/** Failure-carrying result types used by the contract model. */
module Outcomes {

  datatype Option<+T> = None | Some(value: T)

  /** The value of an operation that returns something, or the error it throws. */
  datatype Result<+R, +E> = Success(value: R) | Failure(error: E)

  /** The outcome of an operation that returns nothing (a `Promise<void>`), or the error it throws. */
  datatype Outcome<+E> = Pass | Fail(error: E)
}
