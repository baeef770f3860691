/** Failure-carrying results for the library's three exception kinds. */
module Wrappers {

  datatype Option<+T> = None | Some(value: T)

  /** The exceptions the library throws: IllegalArgumentException (a non-finite
      component, a probe that is not a member of a pair), ArithmeticException
      (division by zero) and NumberFormatException (text that is not a vector). */
  datatype Error = IllegalArgument | Arithmetic | NumberFormat

  datatype Result<+T> = Ok(value: T) | Err(error: Error) {
    predicate IsFailure() { Err? }

    function PropagateFailure<U>(): Result<U>
      requires Err?
    {
      Err(error)
    }

    function Extract(): T
      requires Ok?
    {
      value
    }
  }
}
