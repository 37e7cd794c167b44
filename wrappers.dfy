/** Failure-carrying wrappers shared by the other modules. */
module Wrappers {

  /** An optional value: a missing configuration key or an unset environment variable is None. */
  datatype Option<+T> = None | Some(value: T) {
    /** The wrapped value, or `default` when there is none (Python's `dict.get(key, default)`). */
    function GetOr(default: T): T {
      match this
      case Some(v) => v
      case None => default
    }
  }

  /** The outcome of a step that can raise in the source. */
  datatype Result<+T, +E> = Ok(value: T) | Err(error: E)
}
