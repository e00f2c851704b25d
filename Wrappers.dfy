/** Optional values and error results, standing in for Python's `None` and raised exceptions. */
module Wrappers {

  datatype Option<+T> = None | Some(value: T) {
    function GetOr(default: T): T {
      match this
      case Some(v) => v
      case None => default
    }
  }

  /** `Err` is an exception the Python code raises (its message is informative only). */
  datatype Result<+T> = Ok(value: T) | Err(error: string)
}
