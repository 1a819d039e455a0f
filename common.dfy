/** Shared wrappers: Python's `None` and the exceptions the modelled code raises. */
module Common {

  datatype Option<+T> = None | Some(value: T)

  /** The Python exception classes that the modelled code raises or lets through. */
  datatype Exception =
    | KeyError(key: string)        // a missing dictionary key or column label
    | IndexError                   // a list index out of range
    | TypeError                    // an operation applied to a value of the wrong type
    | AttributeError               // an attribute looked up on `None`
    | ValueError(message: string)  // an invalid argument value
    | ValidationError              // a failed shape check of a data container
    | External(code: int)          // raised inside a collaborator whose code is not modelled

  /** A computation that either returns a value or raises. */
  datatype Result<+T> = Ok(value: T) | Err(error: Exception) {
    predicate IsFailure() { Err? }

    function PropagateFailure<U>(): Result<U>
      requires Err?
    {
      Err(error)
    }

    function Extract(): T
      requires Ok?
    {
      value
    }
  }
}
