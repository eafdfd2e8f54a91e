/** Failure-carrying result types used by the model's operations. */
module Wrappers {

  /** A value that may be absent, such as a register field the driver could not read. */
  datatype Option<+T> = None | Some(value: T)

  /** The outcome of an operation that either produces a value or fails with an error. */
  datatype Result<+R, +E> = Success(value: R) | Failure(error: E)
}
