/** Optional values and fallible results, shared by the data model and the player. */
module Wrappers {

  /** Python's `Optional[T]`: either `None` or a value. */
  datatype Option<+T> = None | Some(value: T)

  /** The outcome of a constructor that either returns an object or raises. */
  datatype Result<+T, +E> = Ok(value: T) | Err(error: E)
}
