/** Exceptions of the C# library, modelled as values. */
module Results {

  /** The exception types the core throws. `Hangs` stands for a loop of the
      source that never returns (it spins on an exhausted stream). */
  datatype Error =
    | IndexOutOfRange
    | ArgumentOutOfRange
    | Argument
    | ArgumentNull
    | InvalidOperation
    | ObjectDisposed
    | Hangs

  /** A value, or the exception thrown while computing it. */
  datatype Result<+T> = Success(value: T) | Failure(error: Error) {
    predicate IsFailure() { Failure? }

    function PropagateFailure<U>(): Result<U>
      requires Failure?
    {
      Failure(error)
    }

    function Extract(): T
      requires Success?
    {
      value
    }
  }

  /** A `void` method that returned normally, or threw. */
  datatype Outcome = Pass | Fail(error: Error) {
    predicate IsFailure() { Fail? }

    function PropagateFailure(): Outcome
      requires Fail?
    {
      this
    }
  }

  datatype Option<+T> = None | Some(value: T)
}
