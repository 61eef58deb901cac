/** Failure-carrying result types shared by every module of the model. */
module Wrappers {

  /** An optional value: Python's `X | None`. */
  datatype Option<+T> = None | Some(value: T) {

    /** The held value, or `default` when there is none (Python's `x or default`
        for values whose only falsy form is `None`). */
    function GetOr(default: T): T {
      match this
      case Some(v) => v
      case None => default
    }
  }

  /** The outcome of an operation that can fail with an error value: the
      model's stand-in for a Python function that returns or raises. */
  datatype Result<+R, +E> = Success(value: R) | Failure(error: E)
}
