/** Failure-compatible Option and Result types shared by every module of the model. */
module Wrappers {

  /** Go's nil-or-value: `None` stands for a nil slice, pointer or interface. */
  datatype Option<+T> = None | Some(value: T)

  /** A value or an error, usable with `:-`. */
  datatype Result<+T, +E> = Ok(value: T) | Err(error: E) {
    predicate IsFailure() { Err? }

    function PropagateFailure<U>(): Result<U, E>
      requires Err?
    {
      Err(error)
    }

    function Extract(): T
      requires Ok?
    {
      value
    }
  }
}
