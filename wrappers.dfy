/** Optional values: a pandas cell that may hold NaN/NA becomes an `Option`. */
module Wrappers {

  datatype Option<+T> = None | Some(value: T)

  /** The outcome of a step that can abort the whole run (a configuration error). */
  datatype Result<+T, +E> = Ok(value: T) | Err(error: E)
}
