/** Failure-compatible result types shared by the agent's modules. */
module Wrappers {

  datatype Option<+T> = None | Some(value: T)

  /** A value or an error, as Go's `(value, error)` return pairs. */
  datatype Result<+R, +E> = Success(value: R) | Failure(error: E)
}
