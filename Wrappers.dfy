/** Optional values and success/failure results, used for the source's
    nullable values and for its thrown exceptions. */
module Wrappers {

  datatype Option<+T> = None | Some(value: T) {
    /** The value, or `default` when absent (C#'s `??`). */
    function GetOr(default: T): T {
      match this
      case Some(v) => v
      case None => default
    }
  }

  /** A value, or the error an exception would have carried. */
  datatype Result<+R, +E> = Success(value: R) | Failure(error: E)

  /** Completion of an operation that returns nothing (C# `void`), or its error. */
  datatype Outcome<+E> = Pass | Fail(error: E)
}
