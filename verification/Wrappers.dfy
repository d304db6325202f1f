/** Small types every module needs: optional values and file bytes. */
module Wrappers {
  datatype Option<+T> = None | Some(value: T)

  newtype Byte = b: int | 0 <= b < 256

  type Content = seq<Byte>
}
