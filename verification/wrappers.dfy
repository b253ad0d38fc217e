/** Option and Result, the two failure-carrying datatypes the model uses for
    PHP's nullable returns and for thrown exceptions. */
module Wrappers {

  /** A nullable value: `None` stands for PHP's `null`. */
  datatype Option<+T> = None | Some(value: T) {

    /** The wrapped value, or `default` when there is none (PHP's `??`). */
    function GetOr(default: T): T {
      match this
      case Some(v) => v
      case None => default
    }
  }

  /** The outcome of an operation that may throw: `Failure` carries the exception kind. */
  datatype Result<+R, +E> = Success(value: R) | Failure(error: E) {

    predicate IsFailure() {
      Failure?
    }
  }
}
