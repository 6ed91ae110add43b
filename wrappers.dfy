/** Optional values and results with an error, shared by the modules of the alert model. */
module Wrappers {

  /** A value that may be absent: a JSON key that is not there, a `None` in the source. */
  datatype Option<+T> = None | Some(value: T)

  /** The outcome of a step that may raise inside the source's `try` block. */
  datatype Result<+T, +E> = Success(value: T) | Failure(error: E)
}
