/** Option and Result: the null returns and the exceptions of the Java code, as values. */
module Wrappers {

  /** A Java reference that may be null: None stands for null. */
  datatype Option<+T> = None | Some(value: T) {

    /** The wrapped value, or the given default for None. */
    function GetOr(default: T): T
    {
      match this
      case Some(v) => v
      case None => default
    }
  }

  /** A value, or the exception the Java code would throw instead. */
  datatype Result<+R, +E> = Success(value: R) | Failure(error: E)
}
