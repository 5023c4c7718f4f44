/** Optional values and error results, standing for Kotlin's nullable types and exceptions. */
module Wrappers {

  /** A Kotlin `T?`: either no value (`null`) or a value. */
  datatype Option<+T> = None | Some(value: T)

  /** The outcome of an operation that either returns a value or throws. */
  datatype Result<+R, +E> = Success(value: R) | Failure(error: E)
}
