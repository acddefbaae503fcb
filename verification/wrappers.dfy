/** Option and Result, used for optional document fields, lookups that may
    find nothing, and mutations that may throw. */
module Wrappers {

  /** An optional value: a field that may be absent, or a lookup that may fail. */
  datatype Option<+T> = None | Some(value: T) {

    /** The carried value, or `default` when there is none. */
    function GetOr(default: T): T {
      match this
      case Some(v) => v
      case None => default
    }
  }

  /** The outcome of a mutation: its value, or the error it throws. */
  datatype Result<+R, +E> = Success(value: R) | Failure(error: E)
}
