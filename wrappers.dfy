/** Failure-compatible result types used for the Ruby runtime errors of the exercises. */
module Wrappers {

  datatype Option<T> = None | Some(value: T)

  datatype Result<T, E> = Ok(value: T) | Err(error: E)
}
