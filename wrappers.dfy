/** Optional values and the outcome of an operation that can raise an error. */
module Wrappers {

  /** A value that may be absent (Python's `X | None`). */
  datatype Option<+T> = None | Some(value: T)

  /** Either a value or the message of the error that was raised. */
  datatype Result<+T> = Ok(value: T) | Err(message: string)
}
