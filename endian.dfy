/** Byte order (src/io/endian.rs): assembling 16- and 32-bit integers from bytes in either
    order, and the heuristics that guess an order from sample bytes or a byte-order mark. */
module Endian {
  import opened Primitives
  import opened Wrappers

  /** The order of the bytes of a multi-byte integer; big-endian is the default. */
  datatype ByteOrder = BigEndian | LittleEndian {

    /** `is_big`: the first of two bytes is the high one. */
    predicate IsBig(): (b: bool)
      ensures b <==> U16From(this, [0x01, 0x00]) == 0x100
    {
      this == BigEndian
    }

    /** `is_little`: the first of two bytes is the low one. */
    predicate IsLittle(): (b: bool)
      ensures b <==> U16From(this, [0x01, 0x00]) == 0x01
    {
      this == LittleEndian
    }
  }

  /** Every order is big or little, never both. */
  lemma ExactlyOneOrder(order: ByteOrder)
    ensures order.IsBig() != order.IsLittle()
  {
  }

  /** `from_be_bytes` / `from_le_bytes` on two bytes. */
  function U16From(order: ByteOrder, b: seq<u8>): (r: u16)
    requires |b| == 2
    ensures var hi := if order.BigEndian? then b[0] else b[1];
      hi as int * 0x100 <= r < (hi as int + 1) * 0x100
  {
    match order
    case BigEndian => (b[0] as int) * 0x100 + b[1]
    case LittleEndian => (b[1] as int) * 0x100 + b[0]
  }

  /** `from_be_bytes` / `from_le_bytes` on four bytes. */
  function U32From(order: ByteOrder, b: seq<u8>): (r: u32)
    requires |b| == 4
    ensures var hi := if order.BigEndian? then b[0] else b[3];
      hi as int * 0x100_0000 <= r < (hi as int + 1) * 0x100_0000
  {
    match order
    case BigEndian => (((b[0] as int) * 0x100 + b[1]) * 0x100 + b[2]) * 0x100 + b[3]
    case LittleEndian => (((b[3] as int) * 0x100 + b[2]) * 0x100 + b[1]) * 0x100 + b[0]
  }

  /** `hi * 256 + lo` has the digit `lo` below the digits of `hi`. */
  lemma Digit(hi: int, lo: int)
    requires 0 <= lo < 0x100
    ensures (hi * 0x100 + lo) / 0x100 == hi && (hi * 0x100 + lo) % 0x100 == lo
  {
  }

  /** The two bytes are the base-256 digits of the result, most significant first in
      big-endian order, least significant first in little-endian order. */
  lemma U16Digits(order: ByteOrder, b: seq<u8>)
    requires |b| == 2
    ensures var r := U16From(order, b);
      if order == BigEndian then r / 0x100 == b[0] && r % 0x100 == b[1]
      else r / 0x100 == b[1] && r % 0x100 == b[0]
  {
    if order == BigEndian {
      Digit(b[0], b[1]);
    } else {
      Digit(b[1], b[0]);
    }
  }

  /** Peeling base-256 digits off the result from its least significant end yields the
      last byte first in big-endian order and the first byte first in little-endian order. */
  lemma U32Digits(order: ByteOrder, b: seq<u8>)
    requires |b| == 4
    ensures var r := U32From(order, b);
      var d := if order == BigEndian then b else [b[3], b[2], b[1], b[0]];
      r % 0x100 == d[3] && r / 0x100 % 0x100 == d[2] && r / 0x100 / 0x100 % 0x100 == d[1] &&
      r / 0x100 / 0x100 / 0x100 == d[0]
  {
    var d := if order == BigEndian then b else [b[3], b[2], b[1], b[0]];
    var q2 := (d[0] as int) * 0x100 + d[1];
    var q1 := q2 * 0x100 + d[2];
    Digit(d[0], d[1]);
    Digit(q2, d[2]);
    Digit(q1, d[3]);
  }

  /** Different bytes never assemble to the same number: reading is injective in each order. */
  lemma U32FromInjective(order: ByteOrder, b: seq<u8>, c: seq<u8>)
    requires |b| == 4 && |c| == 4 && U32From(order, b) == U32From(order, c)
    ensures b == c
  {
    U32Digits(order, b);
    U32Digits(order, c);
    if order == LittleEndian {
      assert [b[3], b[2], b[1], b[0]] == [c[3], c[2], c[1], c[0]];
    }
  }

  /** Little-endian assembly is big-endian assembly of the reversed bytes. */
  lemma LittleIsReversedBig(b2: seq<u8>, b4: seq<u8>)
    requires |b2| == 2 && |b4| == 4
    ensures U16From(LittleEndian, b2) == U16From(BigEndian, [b2[1], b2[0]])
    ensures U32From(LittleEndian, b4) == U32From(BigEndian, [b4[3], b4[2], b4[1], b4[0]])
  {
  }

  /** The values the library's tests expect for the bytes 00 00 01 00. */
  lemma U32FromTestExample()
    ensures U32From(BigEndian, [0x00, 0x00, 0x01, 0x00]) == 256
    ensures U32From(LittleEndian, [0x00, 0x00, 0x01, 0x00]) == 65536
  {
  }

  /** `read_u16_from_slice`: the first two bytes, if there are two. */
  function ReadU16FromSlice(order: ByteOrder, s: seq<u8>): (r: Option<u16>)
    ensures r.None? <==> |s| < 2
    ensures r.Some? ==> r.value == U16From(order, s[..2])
  {
    if |s| >= 2 then Some(U16From(order, [s[0], s[1]])) else None
  }

  /** `read_u32_from_slice`: the first four bytes, if there are four. */
  function ReadU32FromSlice(order: ByteOrder, s: seq<u8>): (r: Option<u32>)
    ensures r.None? <==> |s| < 4
    ensures r.Some? ==> r.value == U32From(order, s[..4])
  {
    if |s| >= 4 then Some(U32From(order, [s[0], s[1], s[2], s[3]])) else None
  }

  /** `detect_from_u16_data`: little-endian when the first byte is the smaller, big-endian
      when it is the larger, no guess for equal bytes or fewer than two. */
  function DetectFromU16Data(data: seq<u8>): (r: Option<ByteOrder>)
    ensures r.None? <==> |data| < 2 || data[0] == data[1]
    ensures r == Some(LittleEndian) <==> |data| >= 2 && data[0] < data[1]
    ensures r == Some(BigEndian) <==> |data| >= 2 && data[0] > data[1]
  {
    if |data| < 2 then None
    else if data[0] < data[1] then Some(LittleEndian)
    else if data[0] > data[1] then Some(BigEndian)
    else None
  }

  /** The guess is the order in which the first two bytes read as the larger number. */
  lemma DetectU16PicksLargerReading(data: seq<u8>, order: ByteOrder)
    requires |data| >= 2
    ensures DetectFromU16Data(data) == Some(order) <==>
      U16From(order, data[..2]) > U16From(if order == BigEndian then LittleEndian else BigEndian, data[..2])
  {
    var b0, b1 := data[0], data[1];
    assert data[..2] == [b0, b1];
    assert U16From(BigEndian, data[..2]) == (b0 as int) * 0x100 + b1;
    assert U16From(LittleEndian, data[..2]) == (b1 as int) * 0x100 + b0;
  }

  /** `detect_from_u32_data`: compares only the first and the fourth byte. */
  function DetectFromU32Data(data: seq<u8>): (r: Option<ByteOrder>)
    ensures r.None? <==> |data| < 4 || data[0] == data[3]
    ensures r == Some(LittleEndian) <==> |data| >= 4 && data[0] < data[3]
    ensures r == Some(BigEndian) <==> |data| >= 4 && data[0] > data[3]
  {
    if |data| < 4 then None
    else if data[0] < data[3] then Some(LittleEndian)
    else if data[0] > data[3] then Some(BigEndian)
    else None
  }

  /** The sample bytes of the library's own test, in both orders. */
  lemma DetectU32Examples()
    ensures DetectFromU32Data([0x77, 0x1B, 0xA2, 0x4F]) == Some(BigEndian)
    ensures DetectFromU32Data([0x4F, 0xA2, 0x1B, 0x77]) == Some(LittleEndian)
  {
  }

  /** `detect_from_bom`: the UTF-16 and UTF-32 byte-order marks, matched as whole slices. */
  function DetectFromBom(bom: seq<u8>): (r: Option<ByteOrder>)
    ensures r == Some(BigEndian) <==> bom == [0xFE, 0xFF] || bom == [0x00, 0x00, 0xFE, 0xFF]
    ensures r == Some(LittleEndian) <==> bom == [0xFF, 0xFE] || bom == [0xFF, 0xFE, 0x00, 0x00]
  {
    if bom == [0xFE, 0xFF] then Some(BigEndian)
    else if bom == [0xFF, 0xFE] then Some(LittleEndian)
    else if bom == [0xFF, 0xFE, 0x00, 0x00] then Some(LittleEndian)
    else if bom == [0x00, 0x00, 0xFE, 0xFF] then Some(BigEndian)
    else None
  }

  /** A UTF-8 byte-order mark, or a UTF-16 mark followed by more bytes, says nothing. */
  lemma BomMatchesWholeSlice()
    ensures DetectFromBom([0xEF, 0xBB, 0xBF]) == None
    ensures DetectFromBom([0xFE, 0xFF, 0x41]) == None
  {
  }
}
