/** Failure-compatible result types shared by every module of the model.
    The repository reports failures by throwing error objects whose class
    names the raising module (Decimal9Error, UtilValueError,
    MeekValueError) and whose message starts with a fixed text; here a
    failure is a value carrying that class and that text. */
module Wrappers {

  datatype Option<+T> = None | Some(value: T) {
    predicate IsFailure() { None? }

    function PropagateFailure<U>(): Option<U>
      requires None?
    {
      None
    }

    function Extract(): T
      requires Some?
    {
      value
    }
  }

  /** The error classes the repository throws. */
  datatype ErrorClass = Decimal9Error | UtilValueError | MeekValueError

  /** A thrown error: its class and the fixed first line of its message. */
  datatype Failure = Failure(errorClass: ErrorClass, message: string)

  datatype Result<+T> = Ok(value: T) | Err(error: Failure) {
    predicate IsFailure() { Err? }

    function PropagateFailure<U>(): Result<U>
      requires Err?
    {
      Err(error)
    }

    function Extract(): T
      requires Ok?
    {
      value
    }
  }
}
