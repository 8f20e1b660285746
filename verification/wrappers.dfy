/** Option and Result, used across the model. */
module Wrappers {

  /** An optional value: an argument that was either passed or omitted. */
  datatype Option<+T> = None | Some(value: T) {

    /** The wrapped value, or `default` when there is none. */
    function GetOr(default: T): T {
      match this
      case Some(v) => v
      case None => default
    }
  }

  /** The outcome of an operation that can fail: a value or an error. */
  datatype Result<+R, +E> = Success(value: R) | Failure(error: E)
}
