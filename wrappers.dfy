/** Failure-carrying values shared by the other modules. */
module Wrappers {

  /** A value that may be absent: Python's None, JavaScript's null. */
  datatype Option<+T> = None | Some(value: T) {

    /** The wrapped value, or `default` when there is none. */
    function GetOr(default: T): (r: T)
      ensures Some? ==> r == value
      ensures None? ==> r == default
    {
      match this
      case Some(v) => v
      case None => default
    }
  }

  /** The outcome of an operation that can raise: a value or an error. */
  datatype Result<+T, +E> = Ok(value: T) | Err(error: E)
}
