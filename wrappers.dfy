/** Optional values (PHP's nullable `?T`) and results that either carry a
    value or the exception an operation throws. */
module Wrappers {

  /** A value that may be absent; `None` plays the part of PHP's `null`. */
  datatype Option<+T> = None | Some(value: T)

  /** The outcome of an operation that either returns a value or throws. */
  datatype Result<+R, +E> = Success(value: R) | Failure(error: E)
}
