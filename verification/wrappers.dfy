/** Optional values and results shared by the label pipeline. */
module Wrappers {

  /** A value that may be absent; `None` plays the role of a missing cell. */
  datatype Option<+T> = None | Some(value: T)

  /** The outcome of an operation that can fail with an error. */
  datatype Result<+R, +E> = Success(value: R) | Failure(error: E)
}
