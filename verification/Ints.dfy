/** The limits of the integer types that the C sources count in. */
module Ints {
  const INT_MAX: int := 0x7FFF_FFFF
  const UINT32_MAX: int := 0xFFFF_FFFF
}
