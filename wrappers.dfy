/** Option and Result, the two failure-carrying wrappers the model uses
    for "a row or nothing" and "a value or the exception the source raises". */
module Wrappers {

  datatype Option<+T> = None | Some(value: T)

  datatype Result<+T, +E> = Ok(value: T) | Err(error: E)
}
