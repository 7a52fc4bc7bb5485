/** Success/failure wrappers used throughout the model in place of Python exceptions. */
module Results {

  datatype Option<+T> = None | Some(value: T)

  /** Ok carries the computed value; Err carries the exception the source would raise. */
  datatype Result<+T, +E> = Ok(value: T) | Err(error: E) {

    predicate IsFailure() {
      Err?
    }

    function PropagateFailure<U>(): Result<U, E>
      requires Err?
    {
      Err(error)
    }

    function Extract(): T
      requires Ok?
    {
      value
    }
  }
}
