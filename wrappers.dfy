/** Failure-carrying values, used where the PHP code returns null or throws. */
module Wrappers {

  /** A value that may be absent (PHP's `?T` / `null`). */
  datatype Option<+T> = None | Some(value: T) {
    /** The value, or `default` when absent (PHP's `??`). */
    function GetOr(default: T): T
    {
      if Some? then value else default
    }
  }

  /** Either a value or the exception that was thrown instead. */
  datatype Result<+T, +E> = Success(value: T) | Failure(error: E)

  /** Either normal completion or the exception that was thrown. */
  datatype Outcome<+E> = Pass | Fail(error: E)
}
