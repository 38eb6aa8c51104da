/** Optional values and results, as used by the model of the backup handler. */
module Wrappers {

  /** A value that may be absent: a dictionary key that is missing, a variable
      that has not been bound yet. */
  datatype Option<+T> = None | Some(value: T) {

    /** The value, or `default` when there is none (Python's `d.get(k, default)`). */
    function GetOr(default: T): T {
      match this
      case Some(v) => v
      case None => default
    }
  }

  /** The outcome of a step that may raise: a value, or the error it raised. */
  datatype Result<+T, +E> = Ok(value: T) | Err(error: E)
}
