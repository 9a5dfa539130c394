/** Optional values and success/failure results shared by every module. */
module Wrappers {

  /** A nullable value: `None` stands for Kotlin/Java `null` or a missing JSON key. */
  datatype Option<+T> = None | Some(value: T)

  /** The outcome of a service call: a value, or the exception it throws. */
  datatype Result<+T, +E> = Success(value: T) | Failure(error: E)
}
