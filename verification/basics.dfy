/** Small shared vocabulary: an optional value (Kotlin's nullable types) and bytes. */
module Basics {

  /** A value that may be absent, standing for a Kotlin `T?`. */
  datatype Option<+T> = None | Some(value: T)

  /** One octet of a file's contents. */
  newtype byte = x: int | 0 <= x < 256

  type Bytes = seq<byte>
}
