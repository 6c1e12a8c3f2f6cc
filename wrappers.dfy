/** Optional values and results with an error, shared by the other modules. */
module Wrappers {

  /** A value that may be missing, as a Python variable that was never assigned. */
  datatype Option<+T> = None | Some(value: T)

  /** The outcome of a step that can abort with an error. */
  datatype Result<+R, +E> = Success(value: R) | Failure(error: E)
}
