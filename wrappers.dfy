/** Optional values and results, the shape Go's `(value, error)` pairs take here. */
module Wrappers {

  datatype Option<T> = None | Some(value: T)

  datatype Result<T, E> = Ok(value: T) | Err(error: E)
}
