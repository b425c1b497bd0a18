/**
 This module provides the failure-carrying datatypes the rest of the model
 returns: `Option` for JavaScript's `null`-or-value results and `Result` for
 operations that throw.
 */
module Wrappers {

  datatype Option<+T> = None | Some(value: T) {

    /** Returns the value in Some, or `default` if None. */
    function GetOr(default: T): T {
      match this
      case Some(v) => v
      case None => default
    }
  }

  /** A successful value or the error an operation throws. */
  datatype Result<+R, +E> = Success(value: R) | Failure(error: E)
}
