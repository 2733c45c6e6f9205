/** Optional values and results shared by the other modules. */
module Wrappers {

  /** A value that may be absent: the source's `null`. */
  datatype Option<T> = None | Some(value: T) {
    function GetOr(default: T): T {
      match this
      case Some(v) => v
      case None => default
    }
  }

  /** The outcome of an operation that may fail. */
  datatype Result<T, E> = Ok(value: T) | Err(error: E)
}
