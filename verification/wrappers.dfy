/** Optional values and results with an error, used across the model. */
module Wrappers {

  /** A value that may be missing: Python's `None` or JavaScript's `null`. */
  datatype Option<+T> = None | Some(value: T) {

    function GetOr(default: T): T {
      match this
      case Some(v) => v
      case None => default
    }
  }

  /** A computation that either produces a value or raises an error. */
  datatype Result<+T, +E> = Ok(value: T) | Err(error: E)
}
