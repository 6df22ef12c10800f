/** Success/failure values shared by every stage of the compiler. Each Swift
    `throws` function of the compiler becomes a function returning a `Result`. */
module Results {

  datatype Option<+T> = None | Some(value: T)

  /** Either the value a stage produced or the error it threw. */
  datatype Result<+T, +E> = Success(value: T) | Failure(error: E) {

    predicate IsFailure() {
      Failure?
    }

    function PropagateFailure<U>(): Result<U, E>
      requires Failure?
    {
      Failure(error)
    }

    function Extract(): T
      requires Success?
    {
      value
    }
  }
}
