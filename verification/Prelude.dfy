/** Value types shared by the whole model. */
module Prelude {

  /** One octet of a `Vec<u8>`. */
  type byte = b: int | 0 <= b < 256

  type Bytes = seq<byte>

  datatype Option<+T> = None | Some(value: T)

  datatype Result<+T, +E> = Ok(value: T) | Err(error: E)

  datatype Unit = Unit
}
