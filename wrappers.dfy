/** Failure-compatible wrappers shared by the modules of this project. */
module Wrappers {

  /** A value that may be absent: PHP's `null`, a missing JSON key, TypeScript's `undefined`. */
  datatype Option<+T> = None | Some(value: T) {

    /** The value, or `default` when absent: PHP's `$x ?? $default`, TypeScript's `x ?? default`. */
    function GetOr(default: T): T {
      match this
      case Some(v) => v
      case None => default
    }
  }

  /** The outcome of an operation that either produces a value or fails with an error. */
  datatype Result<+R, +E> = Ok(value: R) | Err(error: E)
}
