/** Option and Outcome values standing for C#'s nullable references and for
    operations that either complete or throw. */
module Wrappers {

  /** A value that may be missing (a C# `null`). */
  datatype Option<+T> = None | Some(value: T) {

    /** The value, or `default` when missing (C#'s `??`). */
    function GetOr(default: T): T {
      match this
      case Some(v) => v
      case None => default
    }
  }

  /** The outcome of an operation that either completes or throws `error`. */
  datatype Outcome<+E> = Pass | Fail(error: E)

  /** A value-returning operation that either returns `value` or throws `error`. */
  datatype Result<+R, +E> = Success(value: R) | Failure(error: E)
}
