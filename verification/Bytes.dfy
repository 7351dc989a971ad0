/** Bytes and Go's 64-bit integers, as ranges of integers. */
module Bytes {

  type byte = b: int | 0 <= b < 256

  type int64 = x: int | -0x8000_0000_0000_0000 <= x <= 0x7fff_ffff_ffff_ffff

  type uint64 = x: int | 0 <= x <= 0xffff_ffff_ffff_ffff
}
