/** Optional values and results, shared by the other modules. */
module Wrappers {

  /** An optional value: `None` where the source finds nothing. */
  datatype Option<+T> = None | Some(value: T)

  /** A value or the error the source would raise instead of returning. */
  datatype Result<+T, +E> = Ok(value: T) | Err(error: E)
}
