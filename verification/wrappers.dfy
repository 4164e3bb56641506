/** Optional values and error results shared by the storage model. */
module Wrappers {

  /** A value that may be absent (Python's `Optional[...]`, where `None` is absence). */
  datatype Option<+T> = None | Some(value: T)

  /** Either a value or the exception an operation raised. */
  datatype Result<+R, +E> = Success(value: R) | Failure(error: E)
}
