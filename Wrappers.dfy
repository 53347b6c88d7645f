/** Failure-compatible wrappers used for the optional fields and error returns of the model. */
module Wrappers {

  /** A value that may be absent; stands for TypeScript's `T | null` (and `undefined`). */
  datatype Option<+T> = None | Some(value: T)

  /** The outcome of an operation that the source aborts with an exception. */
  datatype Result<+R, +E> = Success(value: R) | Failure(error: E)
}
