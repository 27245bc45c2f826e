/**
 * Option and Result, used across the model: `None` stands for PHP's `false`
 * or `null` "not found" returns, `Err` for a thrown exception.
 */
module Wrappers {
  datatype Option<T> = None | Some(value: T)

  datatype Result<T> = Ok(value: T) | Err(error: string)

  /** The outcome of an operation that returns nothing but may throw. */
  datatype Outcome = Success | Failure(error: string)
}
