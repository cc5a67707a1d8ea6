/** Option and Result values standing in for Java's null / Optional and thrown exceptions. */
module Wrappers {

  /** Java's Optional (and a nullable field): Some value, or nothing. */
  datatype Option<+T> = None | Some(value: T) {
    /** Optional.orElse */
    function GetOr(default: T): T
    {
      match this
      case Some(v) => v
      case None => default
    }

    /** Optional.map */
    function Map<U>(f: T -> U): Option<U>
    {
      match this
      case Some(v) => Some(f(v))
      case None => None
    }
  }

  /** A value, or the exception the source would throw instead. */
  datatype Result<+R, +E> = Success(value: R) | Failure(error: E) {
    /** Applies f to a success value and passes a failure on unchanged. */
    function MapValue<U>(f: R -> U): Result<U, E>
    {
      match this
      case Success(v) => Success(f(v))
      case Failure(e) => Failure(e)
    }
  }
}
