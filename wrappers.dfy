/** Outcome types shared by the model: absent values and operations that can throw. */
module Wrappers {

  datatype Option<+T> = None | Some(value: T)

  /** The result of an operation of the source that either returns a value or throws. */
  datatype Result<+T, +E> = Ok(value: T) | Err(error: E) {
    predicate IsFailure() { Err? }
    function PropagateFailure<U>(): Result<U, E>
      requires Err?
    {
      Err(error)
    }
    function Extract(): T
      requires Ok?
    {
      value
    }
  }
}
