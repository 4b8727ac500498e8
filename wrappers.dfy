/// Option and Result, plus the exception kinds the Java code throws.
module Wrappers {

  datatype Option<+T> = None | Some(value: T)

  /** The Java exception a failed operation ends with. */
  datatype Error =
    | IllegalArgument(message: string)
    | Runtime(message: string)
    | NullPointer
    | ClassCast
    | Arithmetic
    | DateTimeParse(text: string)
    | NumberFormat(text: string)
    | Sql(message: string)
    | IndexOutOfBounds
    /** GeneralSecurityException or IOException, e.g. from decrypting a password. */
    | Security(message: string)
    /** new RuntimeException(cause). */
    | Wrapped(cause: Error)
    /** An exception rethrown with a note attached by addSuppressed. */
    | Suppressed(error: Error, note: string)

  datatype Result<+T> = Ok(value: T) | Err(error: Error)
  {
    predicate IsFailure() { Err? }

    function PropagateFailure<U>(): Result<U>
      requires Err?
    {
      Err(error)
    }

    function Extract(): T
      requires Ok?
    {
      value
    }
  }

  /** The outcome of an operation that returns nothing (a Java `void` method). */
  datatype Outcome = Success | Failure(error: Error)
  {
    predicate IsFailure() { Failure? }

    function PropagateFailure(): Outcome
      requires Failure?
    {
      this
    }
  }
}
