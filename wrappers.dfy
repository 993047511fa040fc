/** Failure-carrying values used in place of the Python exceptions and of
    `None` returns of the modelled code. */
module Wrappers {

  /** A value that may be missing: Python's `None` or a lookup that failed. */
  datatype Option<+T> = None | Some(value: T) {

    /** The value, or `default` when there is none (Python's `d.get(k, default)`). */
    function GetOr(default: T): T
    {
      match this
      case Some(v) => v
      case None => default
    }
  }

  /** The outcome of an operation that may raise: `Ok` carries the value,
      `Err` the exception. */
  datatype Result<+T, +E> = Ok(value: T) | Err(error: E)
}
