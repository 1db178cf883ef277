/** Option and Result values used across the model in place of Python's
    None and raised exceptions. */
module Wrappers {

  datatype Option<+T> = None | Some(value: T) {
    /** `x.get(key, default)` once the lookup has been made. */
    function GetOr(default: T): T {
      match this
      case Some(v) => v
      case None => default
    }
  }

  datatype Result<+T, +E> = Ok(value: T) | Err(error: E)
}
