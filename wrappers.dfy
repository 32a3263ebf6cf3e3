/** Optional values and error-or-value results used throughout the model. */
module Wrappers {

  /** A value that may be absent: a TypeScript `undefined`/`null` field or lookup result. */
  datatype Option<+T> = None | Some(value: T)

  /** Either a value or the error a call raised. */
  datatype Result<+R, +E> = Ok(value: R) | Err(error: E)
}
