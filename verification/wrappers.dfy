/** Failure-compatible wrappers used across the model. */
module Wrappers {

  /** A value that may be absent; stands for a nullable Java reference. */
  datatype Option<+T> = None | Some(value: T)

  /** Either a value or the error the source would have thrown. */
  datatype Result<+R, +E> = Success(value: R) | Failure(error: E)
}
