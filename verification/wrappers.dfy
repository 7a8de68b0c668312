/** `Option` and `Result`, shared by the handler models. */
module Wrappers {

  /** A value that may be absent, as a lookup that can come back empty. */
  datatype Option<+T> = None | Some(value: T)

  /** The outcome of a handler: a value, or the exception that escaped it. */
  datatype Result<+T, +E> = Ok(value: T) | Err(error: E)
}
