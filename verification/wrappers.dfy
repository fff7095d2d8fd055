/**
 * Option, Result and Outcome wrappers shared by every module: a nullable
 * value, a value-or-exception, and a check that either passes or throws.
 */
module Wrappers {

  datatype Option<T> = None | Some(value: T)
  {
    function GetOr(default: T): T
    {
      match this
      case None => default
      case Some(v) => v
    }
  }

  datatype Result<T, E> = Ok(value: T) | Err(error: E)

  /** A check that either passes or fails with an error. */
  datatype Outcome<E> = Pass | Fail(error: E)
}
