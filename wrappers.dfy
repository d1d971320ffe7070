/** Optional values and success/failure results shared by the other modules. */
module Wrappers {

  /** A value that may be absent; `None` plays the part of Python's `None`. */
  datatype Option<+T> = None | Some(value: T)

  /** The outcome of a step that may fail with an error value. */
  datatype Result<+R, +E> = Success(value: R) | Failure(error: E)
}
