/** Optional values and results with an error, as the rest of the model uses them. */
module Wrappers {

  /** A value that may be absent: Python's `None` or a present value. */
  datatype Option<+T> = None | Some(value: T)

  /** The outcome of a request handler: a response value, or the HTTP error it raises. */
  datatype Result<+R, +E> = Success(value: R) | Failure(error: E)
}
