/** Outcomes shared by the models: the values and the errors the JavaScript and C++ code return or throw. */
module Results {

  datatype Option<+T> = None | Some(value: T)

  /** A returned value, or the error that was thrown instead. */
  datatype Result<+T, +E> = Ok(value: T) | Err(error: E) {
    predicate IsFailure() { Err? }

    function PropagateFailure<U>(): Result<U, E>
      requires Err?
    {
      Err(error)
    }

    function Extract(): T
      requires Ok?
    {
      value
    }
  }
}
