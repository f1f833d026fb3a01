/** Optional values and results with an error, used at every boundary where
    the Java code passes `null`, an `Optional`, or raises an exception. */
module Wrappers {

  /** A value that may be absent (`null` or `Optional.empty()` in the source). */
  datatype Option<+T> = None | Some(value: T)

  /** Either a value or an error (a thrown exception in the source). */
  datatype Result<+R, +E> = Success(value: R) | Failure(error: E)
}
