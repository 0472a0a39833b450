/** Failure-compatible wrappers standing in for Go's nil pointers and
    `(value, error)` return pairs. */
module Wrappers {

  /** A value that may be absent: the model of a Go pointer that may be nil. */
  datatype Option<+T> = None | Some(value: T)

  /** Either a value or an error: the model of a Go `(T, error)` pair. */
  datatype Result<+R, +E> = Success(value: R) | Failure(error: E) {

    predicate IsFailure() {
      Failure?
    }

    function PropagateFailure<U>(): Result<U, E>
      requires Failure?
    {
      Failure(error)
    }

    function Extract(): R
      requires Success?
    {
      value
    }
  }

  /** A check that either passes or fails with an error: the model of a Go
      function returning only `error`, where `nil` is `Pass`. */
  datatype Outcome<+E> = Pass | Fail(error: E)
}
