/** Failure-carrying datatypes: Python's `None` argument and raised exceptions
    become `Option` and `Result` values in this model. */
module Wrappers {

  /** A value that may be absent (Python's `Optional[...]`). */
  datatype Option<+T> = None | Some(value: T)

  /** Either a computed value or the error a Python call would raise. */
  datatype Result<+T, +E> = Ok(value: T) | Err(error: E)
}
