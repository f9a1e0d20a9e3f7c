/** The two wrapper types shared by the model. `Option` stands for C#'s null
    (a nullable reference or value), and `Result` for an operation that either
    produces a value or throws an exception. */
module Wrappers {

  /** A nullable value: `None` is C#'s `null`. */
  datatype Option<+T> = None | Some(value: T) {

    /** The value, or `default` when it is null (the `x ?? default` idiom). */
    function GetOr(default: T): T {
      match this
      case Some(v) => v
      case None => default
    }
  }

  /** The outcome of an operation that may throw: `Failure` carries the exception. */
  datatype Result<+T, +E> = Success(value: T) | Failure(error: E)
}
