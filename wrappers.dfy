/** Failure-carrying return values: Go's `(value, error)` pairs become a Result, an optional value an Option. */
module Wrappers {
  datatype Option<+T> = None | Some(value: T)

  datatype Result<+T, +E> = Ok(value: T) | Err(error: E)
}
