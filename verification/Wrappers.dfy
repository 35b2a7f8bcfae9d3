/** Failure-compatible outcome types shared by the registry and the locator. */
module Wrappers {

  /** A value that may be absent: PHP's `null` return of a failed lookup. */
  datatype Option<+T> = None | Some(value: T)

  /** Either a value or the exception the PHP code would throw instead. */
  datatype Result<+R, +E> = Success(value: R) | Failure(error: E)
}
