/** Option and Result, the shapes of Rust's `Option<T>` and `Result<T, E>`, and the outcome of a call that may panic. */
module Wrappers {

  datatype Option<+T> = None | Some(value: T) {

    /** Rust's `unwrap_or`. */
    function GetOr(default: T): T {
      match this
      case Some(v) => v
      case None => default
    }
  }

  datatype Result<+T, +E> = Success(value: T) | Failure(error: E) {

    predicate IsFailure() {
      Failure?
    }

    function PropagateFailure<U>(): Result<U, E>
      requires Failure?
    {
      Failure(error)
    }

    function Extract(): T
      requires Success?
    {
      value
    }
  }

  /**
   * What a call that may `unwrap` an error does: return normally (`Ok` or
   * `Err`), or panic on the unwrapped error `cause`.
   */
  datatype Outcome<+T, +E> = Returned(value: T) | Errored(error: E) | Panicked(cause: E)
}
