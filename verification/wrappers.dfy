/** Failure-carrying wrappers shared by every backend: a null pointer becomes
    `None`, an error return becomes `Err`. */
module Wrappers {

  /** A value that may be absent. */
  datatype Option<+T> = None | Some(value: T)

  /** A value, or the reason it could not be produced. */
  datatype Result<+T, +E> = Ok(value: T) | Err(error: E)
}
