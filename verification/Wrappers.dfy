/** Option and Result, used wherever the C code returns a null pointer, a
    boolean failure or an error code; and bytes. */
module Wrappers {
  datatype Option<+T> = None | Some(value: T)

  datatype Result<+T, +E> = Ok(value: T) | Err(error: E)

  type byte = x: int | 0 <= x < 256
}
