/** Optional values and results with an error, as the services return them. */
module Wrappers {

  /** Java's Optional: a value or nothing (also used for a nullable field). */
  datatype Option<+T> = None | Some(value: T)

  /** A value, or the exception the service throws instead of returning. */
  datatype Result<+R, +E> = Ok(value: R) | Err(error: E)

  /** A void operation that either completes or throws. */
  datatype Outcome<+E> = Pass | Fail(error: E)
}
