/** Failure-compatible wrappers used across the model: `Option` for a value
    that may be absent, `Result` for an operation that may raise. */
module Wrappers {

  datatype Option<+T> = None | Some(value: T)

  datatype Result<+T, +E> = Ok(value: T) | Err(error: E)
}
