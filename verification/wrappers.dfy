/** Option and Result, the two failure-carrying datatypes the model uses in
    place of Python's `None`, missing keys and raised exceptions. */
module Wrappers {

  /** A value that may be absent: Python's `None`, or a key missing from a dict. */
  datatype Option<+T> = None | Some(value: T) {

    /** The wrapped value, or `default` when absent (Python's `d.get(k, default)`). */
    function GetOr(default: T): T {
      match this
      case Some(v) => v
      case None => default
    }
  }

  /** The outcome of a step that may raise: its value, or the exception's message. */
  datatype Result<+R, +E> = Success(value: R) | Failure(error: E)
}
