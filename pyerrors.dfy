// The exceptions the trace-set library raises, and the Result type every
// fallible operation of the model returns instead of raising.
module PyErrors {

  /** The Python exception classes that the modelled code can raise. */
  datatype Error =
    | TypeError
    | ValueError
    | IndexError
    | KeyError
    | AttributeError
    | IOError
    | NotImplementedError
    | FileExistsError
    | FileNotFoundError
    | OverflowError
    | StructError
    | ZeroDivisionError

  datatype Option<T> = None | Some(value: T)

  datatype Result<T> = Ok(value: T) | Err(error: Error)
  {
    predicate IsFailure() { Err? }

    function PropagateFailure<U>(): Result<U>
      requires Err?
    {
      Err(error)
    }

    function Extract(): T
      requires Ok?
    {
      value
    }
  }

  /** A statement that either completes or raises. */
  datatype Outcome = Pass | Fail(error: Error)
  {
    predicate IsFailure() { Fail? }

    function PropagateFailure(): Outcome
      requires Fail?
    {
      this
    }
  }
}
