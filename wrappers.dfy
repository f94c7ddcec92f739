/** Option and Result: a Java reference that may be null, and a call that may throw. */
module Wrappers {

  /** None stands for a Java null (or an empty java.util.Optional). */
  datatype Option<+T> = None | Some(value: T) {

    /** The value, or a fallback when it is absent. */
    function GetOr(default: T): T {
      match this
      case Some(v) => v
      case None => default
    }
  }

  /** The outcome of a Java call: it returns normally with a value or throws. */
  datatype Result<+T, +E> = Success(value: T) | Failure(error: E)
}
