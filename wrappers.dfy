/** Optional values (a null cell, NaN) and results (a value or the exception the code raises). */
module Wrappers {
  datatype Option<+T> = None | Some(value: T)

  datatype Result<+T, +E> = Ok(value: T) | Err(error: E)
}
