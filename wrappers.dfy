/** Optional values and results: the model's stand-ins for C's nullable
    pointers and for the "NULL plus error code" return convention. */
module Wrappers {

  /** A value that may be absent (a C pointer that may be NULL). */
  datatype Option<+T> = None | Some(value: T)

  /** Either a value or the error that prevented producing one. */
  datatype Result<+T, +E> = Ok(value: T) | Err(error: E)
}
