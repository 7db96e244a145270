/** Option and Result values for the outcomes of partial operations, and the
    byte type that the encoders work on. */
module Wrappers {

  /** A value that may be absent, as Python's `None`. */
  datatype Option<+T> = None | Some(value: T)

  /** A value or the error that prevented computing it, as a raised exception. */
  datatype Result<+T, +E> = Ok(value: T) | Err(error: E)

  /** An octet, as an element of Python's `bytes`. */
  type byte = x: int | 0 <= x < 256
}
