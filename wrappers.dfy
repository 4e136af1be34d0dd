/** Option and Result, standing for JavaScript's `null` and for a promise that
    either resolves with a value or rejects with an error. */
module Wrappers {

  datatype Option<+T> = None | Some(value: T)

  datatype Result<+T, +E> = Ok(value: T) | Err(error: E)
}
