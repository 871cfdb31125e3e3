/** The kernel's error codes and the result type its fallible operations return. */
module Errors {

  /** The error variants of the kernel crate. */
  datatype Error =
    | TaskFull        // no room for another task (or another queue entry)
    | InvalidPriority // priority outside 0..=MAX_PRIORITY
    | NotFound        // no task with that id
    | NotInitialized  // the scheduler (or timer) state does not exist yet
    | TimerFull       // no room for another timer registration

  /** `Result<T, Error>`. */
  datatype Result<+T> = Ok(value: T) | Err(error: Error) {
    predicate IsFailure() { Err? }
    function PropagateFailure<U>(): Result<U>
      requires Err?
    {
      Err(error)
    }
    function Extract(): T
      requires Ok?
    {
      value
    }
  }

  /** `Option<T>`. */
  datatype Option<+T> = None | Some(value: T)

  /** `Result<(), Error>`. */
  type Status = Result<()>

  const Success: Status := Ok(())
}
