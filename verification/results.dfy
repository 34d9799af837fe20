/** Option and Result: the failure-compatible wrappers the ingress model returns. */
module Results {

  datatype Option<+T> = None | Some(value: T)

  /** Either a value or an error, never both: a failed compilation carries no table. */
  datatype Result<+R, +E> = Success(value: R) | Failure(error: E) {

    predicate IsFailure() {
      Failure?
    }

    function PropagateFailure<U>(): Result<U, E>
      requires Failure?
    {
      Failure(error)
    }

    function Extract(): R
      requires Success?
    {
      value
    }
  }
}
