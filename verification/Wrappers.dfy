/** Failure-compatible datatypes used throughout the project. */
module Wrappers {

  datatype Option<+T> = None | Some(value: T) {
    /** The held value if there is one, otherwise the given one. */
    function GetOr(other: T): T {
      if Some? then value else other
    }
  }

  datatype Result<+R, +E> = Success(value: R) | Failure(error: E) {
    predicate IsFailure() {
      Failure?
    }

    function PropagateFailure<U>(): Result<U, E>
      requires Failure?
    {
      Failure(error)
    }

    function Extract(): R
      requires Success?
    {
      value
    }
  }
}
