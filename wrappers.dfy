/** Optional values, standing for nullable pointers and unchecked lookups. */
module Wrappers {
  datatype Option<T> = None | Some(value: T)

  /** An operation that either yields a value or stops on an error. */
  datatype Result<T, E> = Ok(value: T) | Err(error: E)
}
