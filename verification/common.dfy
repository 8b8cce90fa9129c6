/** Option and Result, the failure-compatible wrappers used by every module. */
module Common {

  datatype Option<+T> = None | Some(value: T)

  /** A computation that either yields a value or raises the error the source raises. */
  datatype Result<+T, +E> = Success(value: T) | Failure(error: E) {
    predicate IsFailure() {
      Failure?
    }

    function PropagateFailure<U>(): Result<U, E>
      requires Failure?
    {
      Failure(error)
    }

    function Extract(): T
      requires Success?
    {
      value
    }
  }
}
