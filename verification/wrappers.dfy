/** Failure-compatible result type for the lowering engine. The variants of
    `Error` stand for the Python exceptions the assembler raises. */
module Wrappers {

  /** The exceptions the modelled code can raise. */
  datatype Error =
    | ValueError(message: string)
      /** `arguments[0]` of an empty operand list, or `pop()` of an empty group stack. */
    | IndexError(message: string)
      /** A lookup of a missing key in a dict. */
    | KeyError(key: string)
    | TypeError(message: string)

  datatype Result<+T> = Ok(value: T) | Err(error: Error) {

    predicate IsFailure() {
      Err?
    }

    function PropagateFailure<U>(): Result<U>
      requires Err?
    {
      Err(error)
    }

    function Extract(): T
      requires Ok?
    {
      value
    }
  }

  datatype Option<+T> = None | Some(value: T)
}
