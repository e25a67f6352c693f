/** The outcome types shared by all components. */
module Wrappers {

  datatype Option<+T> = None | Some(value: T)

  /** What a C function hands back: its result, or an error where it returns FAILURE. */
  datatype Result<+T, +E> = Ok(value: T) | Err(error: E) {
    predicate IsFailure() {
      Err?
    }

    function PropagateFailure<U>(): (r: Result<U, E>)
      requires Err?
    {
      Err(error)
    }

    function Extract(): T
      requires Ok?
    {
      value
    }
  }
}
