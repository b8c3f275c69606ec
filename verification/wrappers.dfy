/** Small failure-compatible wrappers used for values a reply may lack and
    for steps that may fail. */
module Wrappers {

  /** A value that may be absent: a JSON key that is missing, an argument
      that was not supplied. */
  datatype Option<+T> = None | Some(value: T)

  /** The outcome of a step that may raise: its value, or the error it
      raised. */
  datatype Result<+T, +E> = Ok(value: T) | Err(error: E)
}
