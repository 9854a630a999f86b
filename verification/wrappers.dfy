/** Option, Result and Outcome values standing in for the source's `null` slots, thrown errors
    and rejected promises. */
module Wrappers {

  datatype Option<+T> = None | Some(value: T)

  /** An operation that either succeeds with a value or fails with an error. */
  datatype Result<+R, +E> = Ok(value: R) | Err(error: E)

  /** An operation with no result value that either completes or fails with an error,
      as an `async` function's promise resolves or rejects. */
  datatype Outcome<+E> = Pass | Fail(error: E)
}
