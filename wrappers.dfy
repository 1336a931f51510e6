/** Option and Result, the two wrappers every module uses for "no value" and for raised errors. */
module Wrappers {
  datatype Option<T> = None | Some(value: T)
  {
    predicate IsSome() { Some? }

    function GetOr(default: T): (r: T)
      ensures Some? ==> r == value
      ensures None? ==> r == default
    {
      match this
      case Some(v) => v
      case None => default
    }
  }

  /** A computation that either produced a value or raised an error carrying a message. */
  datatype Result<T> = Ok(value: T) | Err(error: string)
}
