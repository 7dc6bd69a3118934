/** Optional values and outcomes that may carry an error, for the modules that
    model absent values or thrown exceptions. */
module Wrappers {

  /** A value that may be absent: JavaScript `undefined`/`null` or a missing row. */
  datatype Option<+T> = None | Some(value: T) {

    /** The held value, or `default` when there is none. */
    function GetOr(default: T): T {
      match this
      case Some(v) => v
      case None() => default
    }
  }

  /** The outcome of an operation that can throw: Success, or Failure with the error's message. */
  datatype Result<+R, +E> = Success(value: R) | Failure(error: E)
}
