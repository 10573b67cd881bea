/** Optional values and results, standing in for C# null and thrown exceptions. */
module Wrappers {

  /** A value that may be absent (a C# null reference or nullable value). */
  datatype Option<+T> = None | Some(value: T) {
    function GetOr(default: T): T {
      match this
      case Some(v) => v
      case None => default
    }
  }

  /** Either a value or the exception the source would throw instead. */
  datatype Result<+R, +E> = Success(value: R) | Failure(error: E)
}
