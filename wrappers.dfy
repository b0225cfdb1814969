/** Optional values and results with an error, as used throughout the model. */
module Wrappers {

  /** A value that may be missing: `None` stands for JavaScript's `undefined`, `null` or `NaN`,
      depending on where it is used. */
  datatype Option<+T> = None | Some(value: T)

  /** The outcome of an operation that may throw instead of returning a value. */
  datatype Result<+T, +E> = Success(value: T) | Failure(error: E)
}
