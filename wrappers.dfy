/** Optional values and fallible results, used for the session record's
    optional attributes and for the session fetch that may raise. */
module Wrappers {

  datatype Option<T> = None | Some(value: T) {

    /** The value, or `default` when absent (Python's `getattr(obj, name, default)`). */
    function GetOr(default: T): T {
      match this
      case Some(v) => v
      case None => default
    }
  }

  datatype Result<R, E> = Success(value: R) | Failure(error: E)
}
