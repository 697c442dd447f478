/** Option and Result datatypes shared by the whole model. */
module Wrappers {

  /** Kotlin's nullable `T?`: `None` is `null`. */
  datatype Option<+T> = None | Some(value: T)

  /** The outcome of an operation that may throw: `Failure` carries the exception. */
  datatype Result<+R, +E> = Success(value: R) | Failure(error: E)
}
