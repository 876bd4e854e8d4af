/** Option and Result, used for the engine's null results and for the exceptions of the string API. */
module Wrappers {

  /** A value that may be absent: `None` stands for a null reference returned by the engine. */
  datatype Option<+T> = None | Some(value: T)

  /** The outcome of an operation that may throw. */
  datatype Result<+T, +E> = Ok(value: T) | Err(error: E)
}
