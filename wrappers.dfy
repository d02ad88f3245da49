/** Option and Result, the two wrappers the model uses for absent values and
    for errors that Python raises as exceptions. */
module Wrappers {

  datatype Option<+T> = None | Some(value: T)

  datatype Result<+T, +E> = Success(value: T) | Failure(error: E)
}
