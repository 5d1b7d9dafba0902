/** Failure-carrying result types shared by every module of the model. */
module Wrappers {

  /** A value that may be absent: JavaScript's `null`/`undefined` where the
      source tests for them. */
  datatype Option<T> = None | Some(value: T)

  /** The outcome of an operation that either returns a value or throws. */
  datatype Result<T, E> = Ok(value: T) | Err(error: E)

  /** The outcome of an external asynchronous call whose resolved value the
      source does not use: it resolves, or it rejects with an error message. */
  datatype Outcome = Done | Failed(message: string)
}
