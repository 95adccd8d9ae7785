/** Option and Result values used for the error returns of the modelled Go code. */
module Wrappers {

  /** A value that may be absent: a nil pointer, a missing map entry, a missing key. */
  datatype Option<+T> = None | Some(value: T)

  /** Either a value or the error a Go function returns beside it. */
  datatype Result<+T, +E> = Ok(value: T) | Err(error: E)
}
