/** Option and Result, the two failure-carrying wrappers the model uses for
    values that may be absent (an `undefined` field, a `nil` attribute) and
    for operations that throw or report an error. */
module Common {

  datatype Option<+T> = None | Some(value: T)

  datatype Result<+T, +E> = Ok(value: T) | Err(error: E)
}
