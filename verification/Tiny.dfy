/** The small types that several modules share. */
module Tiny {

  datatype Option<+T> = None | Some(value: T)

  type byte = b: int | 0 <= b < 256
}
