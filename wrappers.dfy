/** Success-or-failure values that stand in for the Python exceptions of the pipeline. */
module Wrappers {

  /** The outcome of an operation that may raise: a value, or the reason it failed. */
  datatype Result<+T, +E> = Ok(value: T) | Err(error: E) {

    predicate IsFailure() {
      Err?
    }

    function PropagateFailure<U>(): Result<U, E>
      requires Err?
    {
      Err(error)
    }

    function Extract(): T
      requires Ok?
    {
      value
    }
  }
}
