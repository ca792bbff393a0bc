/** Failure-carrying outcomes shared by the authentication and error-formatting models. */
module Wrappers {

  /** A value that may be absent: TypeScript's `T | null | undefined`. */
  datatype Option<+T> = None | Some(value: T)

  /** The outcome of an operation that either returns a value or throws an error. */
  datatype Result<+T, +E> = Ok(value: T) | Err(error: E)
}
