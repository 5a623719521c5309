/** Option and Result, used for the source's `undefined` values and thrown errors. */
module Wrappers {
  datatype Option<+T> = None | Some(value: T)

  datatype Result<+T, +E> = Ok(value: T) | Err(error: E)
}

/** Octets, as a Node.js `Buffer` holds them. */
module Bytes {
  type byte = x: int | 0 <= x < 256
}
