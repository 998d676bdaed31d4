/** Optional values and error returns, standing in for C# nulls and failed lookups. */
module Wrappers {

  /** A value that may be absent (a C# reference or nullable that may be null). */
  datatype Option<+T> = None | Some(value: T) {
    function GetOr(default: T): T {
      match this
      case Some(v) => v
      case None => default
    }
  }

  /** The outcome of an operation that either produces a value or reports an error. */
  datatype Result<+R, +E> = Success(value: R) | Failure(error: E)
}
