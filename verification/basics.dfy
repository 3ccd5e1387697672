/** Failure-carrying values shared by every module of the model. */
module Basics {

  /** A value that may be absent: JavaScript's `null`/`undefined`, or a SQL NULL. */
  datatype Option<+T> = None | Some(value: T) {
    /** The carried value, or `default` when absent (JavaScript's `x ?? default`). */
    function GetOr(default: T): T {
      match this
      case Some(v) => v
      case None => default
    }
  }

  /** The outcome of an operation that may fail: a resolved or a rejected promise. */
  datatype Result<+T, +E> = Success(value: T) | Failure(error: E)
}
