/** Optional and fallible values shared by the pool and the bridge. */
module Wrappers {

  /** A value that may be absent; `None` stands for Go's nil connection. */
  datatype Option<+T> = None | Some(value: T)

  /** The result of a step that either yields a value or fails with an error. */
  datatype Result<+R, +E> = Success(value: R) | Failure(error: E)
}
