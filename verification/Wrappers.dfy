/** Optional values and error returns. */
module Wrappers {
  datatype Option<+T> = None | Some(value: T)

  /** A returned value, or the error that is raised. */
  datatype Result<+T, +E> = Ok(value: T) | Err(error: E)
}
