/** Optional and fallible results shared by the whole model. */
module Wrappers {

  /** A value that may be absent (Python's `Optional`, `None` meaning "no match"). */
  datatype Option<+T> = None | Some(value: T)

  /** The outcome of an operation that can raise: `Failure` carries what the
      exception was about. */
  datatype Result<+T, +E> = Success(value: T) | Failure(error: E)
}
