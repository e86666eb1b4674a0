/** The fixed-width integer types Aurora-Font uses, as subsets of the unbounded
    integers, and the two's-complement reinterpretation between them. `usize` is the
    64-bit one. */
module Primitives {

  const I64_MIN: int := -0x8000_0000_0000_0000
  const I64_MAX: int := 0x7FFF_FFFF_FFFF_FFFF
  const USIZE_MAX: int := 0xFFFF_FFFF_FFFF_FFFF

  type u8 = x: int | 0 <= x < 0x100
  type u16 = x: int | 0 <= x < 0x1_0000
  type u32 = x: int | 0 <= x < 0x1_0000_0000
  type u64 = x: int | 0 <= x < 0x1_0000_0000_0000_0000
  type usize = x: int | 0 <= x < 0x1_0000_0000_0000_0000
  type i8 = x: int | -0x80 <= x < 0x80
  type i16 = x: int | -0x8000 <= x < 0x8000
  type i32 = x: int | -0x8000_0000 <= x < 0x8000_0000
  type i64 = x: int | -0x8000_0000_0000_0000 <= x < 0x8000_0000_0000_0000

  /** A four-byte table tag, raw bytes that need not be text. */
  type Tag = s: seq<u8> | |s| == 4 witness [0, 0, 0, 0]

  function Min(a: int, b: int): (m: int)
    ensures m <= a && m <= b && (m == a || m == b)
  {
    if a < b then a else b
  }

  /** `v as i8`: the signed value with the same eight bits. */
  function AsI8(v: u8): (r: i8)
    ensures r % 0x100 == v
    ensures r < 0 <==> v >= 0x80
  {
    if v < 0x80 then v else v - 0x100
  }

  /** `v as i16`: the signed value with the same sixteen bits. */
  function AsI16(v: u16): (r: i16)
    ensures r % 0x1_0000 == v
    ensures r < 0 <==> v >= 0x8000
  {
    if v < 0x8000 then v else v - 0x1_0000
  }

  /** `v as i32`: the signed value with the same thirty-two bits. */
  function AsI32(v: u32): (r: i32)
    ensures r % 0x1_0000_0000 == v
    ensures r < 0 <==> v >= 0x8000_0000
  {
    if v < 0x8000_0000 then v else v - 0x1_0000_0000
  }
}
