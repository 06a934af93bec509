/** The error taxonomy of the system (optur/errors.py) together with the carriers
    that the model uses in place of raised exceptions and Rust panics. */
module Errors {

  /** Every way an operation of the core can end abnormally. */
  datatype Error =
    | InCompatibleSearchSpace  // InCompatibleSearchSpaceError: a distribution merge conflict
    | NotFound                 // NotFoundError: a missing study or trial
    | UnInitialized            // UnInitializedError: a sampler used without a backend
    | NotImplemented           // NotImplementedError
    | AssertionFailed          // a Python `assert` statement that fails
    | ValueError               // random.randint on an empty range
    | IndexError               // random.choice on an empty sequence
    | Panic                    // a Rust panic: panic!, assert!, unwrap of None, an empty gen_range

  datatype Option<+T> = None | Some(value: T)

  /** The value an operation returns, or the error it raises. */
  datatype Result<+T> = Ok(value: T) | Err(error: Error) {
    predicate IsFailure() { Err? }

    function PropagateFailure<U>(): Result<U>
      requires Err?
    {
      Err(error)
    }

    function Extract(): T
      requires Ok?
    {
      value
    }
  }

  /** The end of an operation that returns nothing. */
  datatype Outcome = Pass | Fail(error: Error) {
    predicate IsFailure() { Fail? }

    function PropagateFailure(): Outcome
      requires Fail?
    {
      this
    }
  }
}
