/** Failure-carrying results used in place of the exceptions the C# code throws. */
module Wrappers {

  /** A value that may be absent: a nullable reference or an optional argument. */
  datatype Option<+T> = None | Some(value: T) {
    predicate IsFailure() {
      None?
    }

    function PropagateFailure<U>(): Option<U>
      requires None?
    {
      None
    }

    function Extract(): T
      requires Some?
    {
      value
    }
  }

  /** Either a value or the exception that was thrown instead. */
  datatype Result<+T, +E> = Ok(value: T) | Err(error: E) {
    predicate IsFailure() {
      Err?
    }

    function PropagateFailure<U>(): Result<U, E>
      requires Err?
    {
      Err(error)
    }

    function Extract(): T
      requires Ok?
    {
      value
    }
  }

  /** Completion of a `void` operation: it returned normally or threw. */
  datatype Outcome<+E> = Pass | Fail(error: E)
}
