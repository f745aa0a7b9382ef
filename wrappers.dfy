/** Optional values and results, for the fields a signature may leave out
    and for the operations that can throw. */
module Wrappers {

  /** A value that may be absent (`undefined` in the source). */
  datatype Option<+T> = None | Some(value: T) {

    /** The value, or `default` when absent: a destructuring default. */
    function GetOr(default: T): T {
      match this
      case Some(v) => v
      case None => default
    }
  }

  /** The outcome of an operation that either completes or throws. */
  datatype Result<+T, +E> = Success(value: T) | Failure(error: E)
}
