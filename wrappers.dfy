/** The two failure-carrying shapes the model uses. */
module Wrappers {

  /** A value that may be absent; `None` plays JavaScript's `undefined`. */
  datatype Option<+T> = None | Some(value: T)

  /** The outcome of an operation that can throw. */
  datatype Result<+T, +E> = Ok(value: T) | Err(error: E)
}
