/** The outcome shapes shared by every module. */
module Wrappers {

  datatype Option<+T> = None | Some(value: T)

  /** A computation that returns a value or throws an error of kind `E`. */
  datatype Result<+T, +E> = Ok(value: T) | Err(error: E)
}
