/** Option and Result values used across the model. */
module Wrappers {

  /** A value that may be absent (Python's `None`). */
  datatype Option<+T> = None | Some(value: T) {
    function GetOr(default: T): T {
      match this
      case Some(v) => v
      case None => default
    }
  }

  /** Either a value or an error (a Python exception that escapes). */
  datatype Result<+T, +E> = Ok(value: T) | Err(error: E)
}
