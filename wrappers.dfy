/** Failure-carrying result types shared by the three models. */
module Wrappers {

  datatype Option<+T> = None | Some(value: T)

  /** The outcome of an operation that the original program lets raise an exception. */
  datatype Result<+T, +E> = Success(value: T) | Failure(error: E)
}
