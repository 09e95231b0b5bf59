/** Failure-carrying results shared by the engine model. */
module Outcome {

  /** A value that may be absent. */
  datatype Option<T> = None | Some(value: T)

  /** The result of an operation that can fail with an error of type `E`. */
  datatype Result<T, E> = Ok(value: T) | Err(error: E)

  /** The result of running a loop that the source writes without a bound:
      either it reaches its exit with `value`, or it never exits. */
  datatype Run<T> = Halts(value: T) | Diverges
}
