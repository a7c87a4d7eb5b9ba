/** Octets as the harness handles them (`std::uint8_t`). */
module Bytes {
  newtype Byte = x: int | 0 <= x < 0x100
}
