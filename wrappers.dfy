// Optional values and error-carrying results shared by every module.
module Wrappers {
  datatype Option<T> = None | Some(value: T)
  {
    /** JavaScript `x ?? fallback`: the value when present, else the fallback. */
    function OrElse(fallback: T): T
    {
      if Some? then value else fallback
    }
  }

  /** An operation that either returns a value or throws an error. */
  datatype Result<T, E> = Ok(value: T) | Err(error: E)
}
