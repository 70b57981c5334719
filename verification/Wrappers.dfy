/** Small carrier types shared by the models. */
module Wrappers {
  // A value that may be absent: a C++ pointer or callback that may be null.
  datatype Option<+T> = None | Some(value: T)

  // An unsigned char.
  type Byte = b: int | 0 <= b < 0x100
}
