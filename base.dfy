/** Failure-carrying values used in place of the source's `null` returns and exceptions. */
module Base {

  /** A nullable reference or nullable value: `None` stands for C#'s `null`. */
  datatype Option<+T> = None | Some(value: T)

  /** The exceptions the modelled code raises, by kind. */
  datatype Error =
    | LengthNotMatch(message: string)  // LengthNotMatchException
    | Format(message: string)          // FormatException, or an Exception that names a malformed input
    | IndexOutOfRange                  // an indexer or `line[k]` outside the bounds
    | ArgumentOutOfRange               // Substring or GetRange with bounds outside the string
    | DuplicateKey                     // Dictionary.Add with a key already present
    | Argument(message: string)        // any other ArgumentException
    | NullReference                    // a member access through null
    | Overflow                         // a numeric conversion outside the target type
    | Failure(message: string)         // `throw new Exception(message)`

  /** The outcome of an operation that may throw: its value, or the exception it raised. */
  datatype Result<+T> = Ok(value: T) | Err(error: Error) {
    predicate IsFailure() { Err? }

    function PropagateFailure<U>(): Result<U>
      requires Err?
    {
      Err(error)
    }

    function Extract(): T
      requires Ok?
    {
      value
    }
  }

  /** The outcome of an operation that returns nothing but may throw. */
  datatype Outcome = Pass | Fail(error: Error) {
    predicate IsFailure() { Fail? }

    function PropagateFailure(): Outcome
      requires Fail?
    {
      this
    }
  }
}
