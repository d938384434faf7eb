/** Option and Result, the two failure-carrying wrappers the model uses for
    Python's None and for exceptions that escape an operation. */
module Wrappers {

  datatype Option<+T> = None | Some(value: T)

  datatype Result<+R, +E> = Success(value: R) | Failure(error: E)
}
