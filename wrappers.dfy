/** Optional values and success/failure outcomes shared by the other modules. */
module Wrappers {

  /** A value that may be absent, e.g. a key missing from a JSON object. */
  datatype Option<+T> = None | Some(value: T) {
    /** The value, or `default` when absent (Python's `dict.get(key, default)`). */
    function GetOr(default: T): T {
      match this
      case Some(v) => v
      case None => default
    }
  }

  /** The outcome of an operation that either returns a value or raises.
      Every failure of the modelled code is one opaque error. */
  datatype Result<+T> = Ok(value: T) | Err
}
