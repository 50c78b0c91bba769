/** Option and Result, the two failure-carrying types the rest of the model uses
    for Kotlin's nullable values and for Java's thrown exceptions. */
module Wrappers {

  datatype Option<+T> = None | Some(value: T)

  datatype Result<+T, +E> = Ok(value: T) | Err(error: E)
}
