/** Option and Result, the failure-compatible wrappers the builders and the
    envelope decoder return. */
module Wrappers {

  datatype Option<+T> = None | Some(value: T)

  /** The outcome of a builder call that may throw. */
  datatype Result<+R, +E> = Success(value: R) | Failure(error: E) {

    predicate IsFailure() {
      Failure?
    }

    function PropagateFailure<U>(): Result<U, E>
      requires Failure?
    {
      Failure(error)
    }

    function Extract(): R
      requires Success?
    {
      value
    }
  }
}
