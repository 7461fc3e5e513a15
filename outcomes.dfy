/** Optional values (Java's null / Optional) and results (a value or the exception thrown). */
module Outcomes {

  datatype Option<+T> = None | Some(value: T)

  datatype Result<+T, +E> = Ok(value: T) | Err(error: E)
}
