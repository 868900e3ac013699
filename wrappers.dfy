/** Optional values and success-or-error results shared by the other modules. */
module Wrappers {

  /** A value that may be absent (`undefined` or `null` in the service's inputs). */
  datatype Option<T> = None | Some(value: T)

  /** The outcome of a service call: a value, or the typed error it throws. */
  datatype Result<T, E> = Ok(value: T) | Err(error: E)
}
