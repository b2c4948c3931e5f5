/** Option and Result datatypes shared by the whole model. */
module Wrappers {

  /** A value that may be absent: a dictionary key that is missing, or Python's None. */
  datatype Option<+T> = None | Some(value: T) {

    /** The value if present, else `default` (Python's `d.get(key, default)`). */
    function GetOr(default: T): T {
      match this
      case Some(v) => v
      case None => default
    }
  }

  /** Either a value or the exception the Python code raises instead of returning. */
  datatype Result<+T, +E> = Ok(value: T) | Err(error: E)
}
