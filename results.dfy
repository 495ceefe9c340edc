/** Failure-compatible wrappers used by most modules. */
module Results {

  datatype Option<+T> = None | Some(value: T)

  /** The outcome of an operation that may be refused: the value, or the error reported to the client. */
  datatype Result<+T, +E> = Ok(value: T) | Err(error: E) {
    predicate IsFailure() {
      Err?
    }

    function PropagateFailure<U>(): Result<U, E>
      requires Err?
    {
      Err(error)
    }

    function Extract(): T
      requires Ok?
    {
      value
    }
  }
}
