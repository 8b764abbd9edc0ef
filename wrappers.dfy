/** Optional and fallible results, standing in for Python's `None` returns and raised exceptions. */
module Wrappers {

  /** `None` is Python's `None`; `Some(v)` is a present value. */
  datatype Option<+T> = None | Some(value: T) {
    function GetOr(default: T): T {
      match this
      case Some(v) => v
      case None => default
    }
  }

  /** A computation that either returns a value or raises (the message stands for the exception). */
  datatype Result<+T> = Ok(value: T) | Raised(message: string)
}
