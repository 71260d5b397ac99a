/** Types shared by every module. */
module Basics {

  datatype Option<+T> = None | Some(value: T)

  /** One octet. */
  type byte = n: int | 0 <= n < 256

  type bytes = seq<byte>
}
