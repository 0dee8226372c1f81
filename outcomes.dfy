/** Values that may be absent and computations that may fail, in the terms of the
    Python the model follows: `None` arguments and the exceptions the statistics
    routines can raise. */
module Outcomes {

  /** A possibly absent argument: Python's `None` or a value. */
  datatype Option<T> = None | Some(value: T)

  /** The exceptions the statistics routines can raise. */
  datatype Error =
    | ZeroDivision      // ZeroDivisionError: a division whose divisor is 0
    | MathDomain        // ValueError from math.sqrt of a negative number
    | IndexOutOfRange   // IndexError: indexing past the end of a list
    | NoneOperand       // TypeError: arithmetic on a None argument

  /** The outcome of a routine: its value, or the exception it raises. */
  datatype Result<T> = Ok(value: T) | Err(error: Error) {
    predicate IsFailure() { Err? }

    function PropagateFailure<U>(): Result<U>
      requires Err?
    {
      Err(error)
    }

    function Extract(): T
      requires Ok?
    {
      value
    }
  }
}
