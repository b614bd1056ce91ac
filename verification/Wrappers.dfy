/** Optional values and outcomes, for the source's nulls and errors. */
module Wrappers {

  datatype Option<T> = None | Some(value: T)

  datatype Result<T> = Ok(value: T) | Err

  /** How a kernel launch can go: refused, a kernel that never ends, or done. */
  datatype Launch<T> = Refused | NeverEnds | Done(out: T)
}
