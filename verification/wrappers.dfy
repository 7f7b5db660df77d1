/** Failure-carrying result types shared by the modules of the model. */
module Wrappers {

  /** A value that may be absent (Python's `None`, or a dictionary lookup that misses). */
  datatype Option<+T> = None | Some(value: T)
  {
    /** The value carried by `Some`, or `default` for `None` (Python's `dict.get(k, default)`). */
    function GetOr(default: T): T
    {
      match this
      case Some(v) => v
      case None => default
    }
  }

  /** A computation that either passes or raises an error carrying `error`. */
  datatype Outcome<+E> = Pass | Fail(error: E)

  /** A computation that either returns `value` or raises an error carrying `error`. */
  datatype Result<+R, +E> = Ok(value: R) | Err(error: E)
}
