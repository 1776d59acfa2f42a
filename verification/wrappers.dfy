/** Optional values and results with an error message, used for the
    source's `None` returns and raised errors. */
module Wrappers {

  /** A value that may be absent (the source's `None`). */
  datatype Option<+T> = None | Some(value: T)

  /** Either a value or an error description (the source's raised exception). */
  datatype Result<+R> = Success(value: R) | Failure(error: string)
}
