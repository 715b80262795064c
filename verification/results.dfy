/** Success/failure wrappers used wherever the program either produces a value or
    aborts (a Python exception, an `exit(-1)`, or a variable left as `None`). */
module Results {

  /** A value that may be absent, standing for Python's `None`. */
  datatype Option<+T> = None | Some(value: T)

  /** Either a computed value or the reason the run stopped. */
  datatype Result<+R, +E> = Success(value: R) | Failure(error: E) {

    predicate IsFailure() {
      Failure?
    }

    function PropagateFailure<U>(): Result<U, E>
      requires Failure?
    {
      Failure(error)
    }

    function Extract(): R
      requires Success?
    {
      value
    }
  }
}
