/** Failure-compatible wrappers used throughout the model. */
module Wrappers {

  /** An optional value: a JavaScript `undefined`/`null` or a present value. */
  datatype Option<+T> = None | Some(value: T)

  /** The outcome of an operation that either produces a value or throws. */
  datatype Result<+T, +E> = Success(value: T) | Failure(error: E)
}
