/** Optional values and results with an error, as the components use `null`/`undefined` and thrown errors. */
module Wrappers {
  datatype Option<+T> = None | Some(value: T) {
    /** `value ?? fallback` */
    function GetOr(fallback: T): T {
      match this
      case Some(v) => v
      case None => fallback
    }
  }

  datatype Result<+T, +E> = Ok(value: T) | Err(error: E)
}
