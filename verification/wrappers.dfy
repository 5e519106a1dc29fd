/** Failure-carrying values used across the model in place of the source's
    `None` returns and raised HTTP errors. */
module Wrappers {

  /** A value that may be absent: Python's `Optional[T]`. */
  datatype Option<+T> = None | Some(value: T) {

    /** The carried value, or `default` when absent. */
    function GetOr(default: T): T {
      match this
      case Some(v) => v
      case None => default
    }
  }

  /** Either a value or an error. */
  datatype Result<+T, +E> = Success(value: T) | Failure(error: E)
}
