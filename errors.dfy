/**
 * The gateway reports every failure by throwing an exception whose what()
 * text is logged.  The model returns these values instead.
 */
module Errors {

  /** A computed value, or the text of the exception that was thrown. */
  datatype Result<+T> = Ok(value: T) | Err(message: string) {
    predicate IsFailure() { Err? }

    function PropagateFailure<U>(): Result<U>
      requires Err?
    {
      Err(message)
    }

    function Extract(): T
      requires Ok?
    {
      value
    }
  }

  /** The outcome of an operation that returns nothing. */
  datatype Status = Pass | Fail(message: string) {
    predicate IsFailure() { Fail? }

    function PropagateFailure(): Status
      requires Fail?
    {
      this
    }
  }

  /** A value that may be absent. */
  datatype Option<+T> = None | Some(value: T)
}
