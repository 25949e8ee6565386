/** Failure-compatible wrappers used across the model: a missing value and
    the outcome of an operation that may throw. */
module Wrappers {

  datatype Option<+T> = None | Some(value: T)

  datatype Outcome<+R, +E> = Success(value: R) | Failure(error: E)
}
