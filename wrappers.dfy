/** Failure-carrying wrappers shared by the other modules. */
module Wrappers {

  /** A nullable value (a database column that may hold NULL). */
  datatype Option<+T> = None | Some(value: T) {
    /** PHP's `$x ?? default`. */
    function GetOr(default: T): T
    {
      match this
      case Some(v) => v
      case None => default
    }
  }

  /** An operation that yields a value or aborts with an error. */
  datatype Result<+T, +E> = Ok(value: T) | Err(error: E)

  /** An operation that yields nothing or aborts with an error. */
  datatype Outcome<+E> = Pass | Fail(error: E)
}
