/** The bounds-checked byte cursor (src/io/stream.rs): a borrowed, immutable byte buffer, a
    read position that never passes its end, and the byte order of multi-byte reads.
    Sequential reads advance the position only when they succeed; peeks and the absolute
    accessors never touch it. Offsets and lengths are added exactly: where Aurora-Font's
    `usize` sum only feeds a bounds check, a wrapped sum fails that check just as the exact
    one does; where it becomes the new position (`skip`), the model requires it to fit. */
module Stream {
  import opened Primitives
  import opened Wrappers
  import opened Errors
  import opened Endian

  /** The bytes left at an absolute offset: none at or past the end. */
  function AvailableAt(len: nat, offset: nat): (a: nat)
    ensures offset < len ==> offset + a == len
    ensures offset >= len ==> a == 0
  {
    if offset < len then len - offset else 0
  }

  /** `std::io::SeekFrom`. */
  datatype SeekFrom = Start(offset: u64) | End(delta: i64) | Current(delta: i64)

  /** The two `InvalidInput` failures of `Seek::seek`. */
  datatype SeekError = OffsetOutOfRange | BeforeStart

  /** `i64::saturating_add`. */
  function SaturatingAddI64(a: i64, b: i64): (r: i64)
    ensures I64_MIN <= a + b <= I64_MAX ==> r == a + b
    ensures a + b > I64_MAX ==> r == I64_MAX
    ensures a + b < I64_MIN ==> r == I64_MIN
  {
    if a + b > I64_MAX then I64_MAX else if a + b < I64_MIN then I64_MIN else a + b
  }

  /** The target `Seek::seek` computes before clamping, or `None` for a start offset
      beyond `i64::MAX`. */
  function SeekTarget(len: i64, position: i64, from: SeekFrom): (t: Option<i64>)
    ensures t.None? <==> from.Start? && from.offset > I64_MAX
    ensures from.Start? && t.Some? ==> t.value == from.offset
    ensures from.End? && len >= 0 ==> t == Some(Min(len + from.delta, I64_MAX))
    ensures from.Current? && position >= 0 ==> t == Some(Min(position + from.delta, I64_MAX))
  {
    match from
    case Start(offset) => if offset > I64_MAX then None else Some(offset)
    case End(delta) => Some(SaturatingAddI64(len, delta))
    case Current(delta) => Some(SaturatingAddI64(position, delta))
  }

  class FontDataStream {
    const data: seq<u8>
    var position: nat
    var endianness: ByteOrder

    /** The position stays within the buffer; a Rust slice is at most `isize::MAX` long. */
    ghost predicate Valid()
      reads this
    {
      position <= |data| <= I64_MAX
    }

    /** `new`: at the start, big-endian. */
    constructor (data: seq<u8>)
      requires |data| <= I64_MAX
      ensures Valid()
      ensures this.data == data && position == 0 && endianness == BigEndian
    {
      this.data := data;
      position := 0;
      endianness := BigEndian;
    }

    /** `with_endianness`: only the byte order changes. */
    method WithEndianness(order: ByteOrder)
      modifies this`endianness
      ensures endianness == order
    {
      endianness := order;
    }

    method ReadU8() returns (r: Result<u8, Error>)
      requires Valid()
      modifies this`position
      ensures Valid()
      ensures var p := old(position);
        if |data| - p >= 1 then r == Ok(data[p]) && position == p + 1
        else r == Err(Io(OutOfBounds(1, |data| - p))) && position == p
      ensures r == old(PeekU8())
    {
      var available := |data| - position;
      if available >= 1 {
        r := Ok(data[position]);
        position := position + 1;
      } else {
        r := Err(Io(OutOfBounds(1, available)));
      }
    }

    method ReadU16() returns (r: Result<u16, Error>)
      requires Valid()
      modifies this`position
      ensures Valid()
      ensures var p := old(position);
        if |data| - p >= 2 then r == Ok(U16From(endianness, data[p..p + 2])) && position == p + 2
        else r == Err(Io(OutOfBounds(2, |data| - p))) && position == p
    {
      var available := |data| - position;
      if available >= 2 {
        var bytes := data[position..position + 2];
        position := position + 2;
        r := Ok(U16From(endianness, bytes));
      } else {
        r := Err(Io(OutOfBounds(2, available)));
      }
    }

    method ReadU32() returns (r: Result<u32, Error>)
      requires Valid()
      modifies this`position
      ensures Valid()
      ensures var p := old(position);
        if |data| - p >= 4 then r == Ok(U32From(endianness, data[p..p + 4])) && position == p + 4
        else r == Err(Io(OutOfBounds(4, |data| - p))) && position == p
    {
      var available := |data| - position;
      if available >= 4 {
        var bytes := data[position..position + 4];
        position := position + 4;
        r := Ok(U32From(endianness, bytes));
      } else {
        r := Err(Io(OutOfBounds(4, available)));
      }
    }

    method ReadI8() returns (r: Result<i8, Error>)
      requires Valid()
      modifies this`position
      ensures Valid()
      ensures var p := old(position);
        if |data| - p >= 1 then r == Ok(AsI8(data[p])) && position == p + 1
        else r == Err(Io(OutOfBounds(1, |data| - p))) && position == p
    {
      var u := ReadU8();
      r := if u.Ok? then Ok(AsI8(u.value)) else Err(u.error);
    }

    method ReadI16() returns (r: Result<i16, Error>)
      requires Valid()
      modifies this`position
      ensures Valid()
      ensures var p := old(position);
        if |data| - p >= 2 then r == Ok(AsI16(U16From(endianness, data[p..p + 2]))) && position == p + 2
        else r == Err(Io(OutOfBounds(2, |data| - p))) && position == p
    {
      var u := ReadU16();
      r := if u.Ok? then Ok(AsI16(u.value)) else Err(u.error);
    }

    method ReadI32() returns (r: Result<i32, Error>)
      requires Valid()
      modifies this`position
      ensures Valid()
      ensures var p := old(position);
        if |data| - p >= 4 then r == Ok(AsI32(U32From(endianness, data[p..p + 4]))) && position == p + 4
        else r == Err(Io(OutOfBounds(4, |data| - p))) && position == p
    {
      var u := ReadU32();
      r := if u.Ok? then Ok(AsI32(u.value)) else Err(u.error);
    }

    /** `skip`: advance, stopping at the end of the buffer. */
    method Skip(bytes: usize)
      requires Valid()
      requires position + bytes <= USIZE_MAX
      modifies this`position
      ensures Valid()
      ensures position == Min(old(position) + bytes, |data|)
    {
      position := Min(position + bytes, |data|);
    }

    method Reset()
      requires Valid()
      modifies this`position
      ensures Valid() && position == 0
    {
      position := 0;
    }

    function Position(): (p: nat)
      reads this
      requires Valid()
      ensures p <= |data|
    {
      position
    }

    function Tell(): (p: nat)
      reads this
      requires Valid()
      ensures p == Position()
    {
      position
    }

    /** `is_eof`: the position has reached the end (it can never pass it). */
    function IsEof(): (b: bool)
      reads this
      requires Valid()
      ensures b <==> position == |data|
      ensures b <==> RemainingBytes() == []
    {
      position >= |data|
    }

    /** `remaining_bytes`: the suffix from the position. */
    function RemainingBytes(): (s: seq<u8>)
      reads this
      requires Valid()
      ensures data[..position] + s == data
    {
      data[position..]
    }

    function Len(): (n: nat)
      ensures n == |data|
    {
      |data|
    }

    function IsEmpty(): (b: bool)
      ensures b <==> Len() == 0
    {
      |data| == 0
    }

    /** `seek`: set the position, clamped to the end of the buffer; never an error. */
    method Seek(target: usize)
      requires Valid()
      modifies this`position
      ensures Valid()
      ensures position == Min(target, |data|)
    {
      position := Min(target, |data|);
    }

    method ReadBytes(length: usize) returns (r: Result<seq<u8>, Error>)
      requires Valid()
      modifies this`position
      ensures Valid()
      ensures var p := old(position);
        if |data| - p >= length then r == Ok(data[p..p + length]) && position == p + length
        else r == Err(Io(OutOfBounds(length, |data| - p))) && position == p
      ensures r == old(PeekBytes(length))
    {
      var available := |data| - position;
      if available >= length {
        var bytes := data[position..position + length];
        position := position + length;
        r := Ok(bytes);
      } else {
        r := Err(Io(OutOfBounds(length, available)));
      }
    }

    /** `peek_u8`: what `ReadU8` would return, without moving. */
    function PeekU8(): (r: Result<u8, Error>)
      reads this
      requires Valid()
      ensures if |data| - position >= 1 then r == Ok(data[position])
              else r == Err(Io(OutOfBounds(1, |data| - position)))
    {
      if position < |data| then Ok(data[position]) else Err(Io(OutOfBounds(1, |data| - position)))
    }

    /** `peek_bytes`: what `ReadBytes` would return, without moving. */
    function PeekBytes(length: usize): (r: Result<seq<u8>, Error>)
      reads this
      requires Valid()
      ensures if |data| - position >= length then r == Ok(data[position..position + length])
              else r == Err(Io(OutOfBounds(length, |data| - position)))
    {
      if position + length <= |data| then Ok(data[position..position + length])
      else Err(Io(OutOfBounds(length, |data| - position)))
    }

    /** `read_at_u8`: the byte at an absolute offset. */
    function ReadAtU8(offset: usize): (r: Result<u8, Error>)
      ensures r.Ok? <==> offset < |data|
      ensures r.Ok? ==> r.value == data[offset]
      ensures r.Err? ==> r.error == Io(OutOfBounds(1, AvailableAt(|data|, offset)))
    {
      if offset < |data| then Ok(data[offset]) else Err(Io(OutOfBounds(1, AvailableAt(|data|, offset))))
    }

    /** `read_at_u16`: the 16-bit value at an absolute offset, in the stream's order. */
    function ReadAtU16(offset: usize): (r: Result<u16, Error>)
      reads this
      ensures r.Ok? <==> offset + 2 <= |data|
      ensures r.Ok? ==> r.value == U16From(endianness, data[offset..offset + 2])
      ensures r.Err? ==> r.error == Io(OutOfBounds(2, AvailableAt(|data|, offset)))
    {
      if offset + 2 <= |data| then Ok(U16From(endianness, data[offset..offset + 2]))
      else Err(Io(OutOfBounds(2, AvailableAt(|data|, offset))))
    }

    /** `read_at_u32`: the 32-bit value at an absolute offset, in the stream's order. */
    function ReadAtU32(offset: usize): (r: Result<u32, Error>)
      reads this
      ensures r.Ok? <==> offset + 4 <= |data|
      ensures r.Ok? ==> r.value == U32From(endianness, data[offset..offset + 4])
      ensures r.Err? ==> r.error == Io(OutOfBounds(4, AvailableAt(|data|, offset)))
    {
      if offset + 4 <= |data| then Ok(U32From(endianness, data[offset..offset + 4]))
      else Err(Io(OutOfBounds(4, AvailableAt(|data|, offset))))
    }

    /** `slice_at`: `length` bytes from an absolute offset. */
    function SliceAt(offset: usize, length: usize): (r: Result<seq<u8>, Error>)
      ensures r.Ok? <==> offset + length <= |data|
      ensures r.Ok? ==> r.value == data[offset..offset + length]
      ensures r.Err? ==> r.error == Io(OutOfBounds(length, AvailableAt(|data|, offset)))
    {
      if offset + length <= |data| then Ok(data[offset..offset + length])
      else Err(Io(OutOfBounds(length, AvailableAt(|data|, offset))))
    }

    /** `slice_range(start..end)`: a reversed range is an invalid offset, never out of
        bounds; an empty range inside the buffer is an empty slice. */
    function SliceRange(start: usize, end: usize): (r: Result<seq<u8>, Error>)
      ensures start > end ==> r == Err(Io(InvalidOffset(start)))
      ensures start <= end <= |data| ==> r == Ok(data[start..end])
      ensures start <= end && end > |data| ==> r == Err(Io(OutOfBounds(end - start, AvailableAt(|data|, start))))
    {
      if start > end then Err(Io(InvalidOffset(start)))
      else if end <= |data| then Ok(data[start..end])
      else Err(Io(OutOfBounds(end - start, AvailableAt(|data|, start))))
    }

    /** A range is the slice of its length at its start. */
    lemma SliceRangeIsSliceAt(start: usize, end: usize)
      requires start <= end
      ensures SliceRange(start, end) == SliceAt(start, end - start)
    {
    }

    /** Peeking reads the slice at the current position. */
    lemma PeekIsSliceAtPosition(length: usize)
      requires Valid()
      ensures PeekBytes(length) == SliceAt(position, length)
      ensures PeekU8() == if position < |data| then Ok(data[position]) else ReadAtU8(position)
    {
    }

    /** The absolute multi-byte reads assemble the slice of their width at the offset, and
        fail exactly as that slice does. */
    lemma ReadAtIsDecodedSlice(offset: usize)
      ensures var s := SliceAt(offset, 2);
        ReadAtU16(offset) == if s.Ok? then Ok(U16From(endianness, s.value)) else Err(s.error)
      ensures var s := SliceAt(offset, 4);
        ReadAtU32(offset) == if s.Ok? then Ok(U32From(endianness, s.value)) else Err(s.error)
    {
    }

    /** `read_tag`: four raw bytes, advancing like `ReadBytes(4)`. */
    method ReadTag() returns (r: Result<Tag, Error>)
      requires Valid()
      modifies this`position
      ensures Valid()
      ensures var p := old(position);
        if |data| - p >= 4 then r == Ok(data[p..p + 4]) && position == p + 4
        else r == Err(Io(OutOfBounds(4, |data| - p))) && position == p
    {
      var bytes := ReadBytes(4);
      if bytes.Err? {
        return Err(bytes.error);
      }
      r := Ok(bytes.value);
    }

    /** `std::io::Read::read`: copies as many bytes as fit in `buf` and remain, into the
        front of `buf`, and advances past them; the rest of `buf` is untouched. */
    method IoRead(buf: array<u8>) returns (n: nat)
      requires Valid()
      modifies this`position, buf
      ensures Valid()
      ensures n == Min(buf.Length, old(|data| - position))
      ensures buf[..n] == data[old(position)..old(position) + n]
      ensures buf[n..] == old(buf[n..])
      ensures position == old(position) + n
    {
      var count := Min(buf.Length, |data| - position);
      forall k | 0 <= k < count {
        buf[k] := data[position + k];
      }
      position := position + count;
      n := count;
    }

    /** `std::io::Seek::seek`: a start offset beyond `i64::MAX` or a negative target is
        refused with the position unchanged; otherwise the position is the target clamped
        to the end of the buffer, and is returned. */
    method IoSeek(from: SeekFrom) returns (r: Result<u64, SeekError>)
      requires Valid()
      modifies this`position
      ensures Valid()
      ensures match SeekTarget(|data|, old(position), from)
        case None => r == Err(OffsetOutOfRange) && position == old(position)
        case Some(t) =>
          if t < 0 then r == Err(BeforeStart) && position == old(position)
          else position == Min(t, |data|) && r == Ok(position)
    {
      var target := SeekTarget(|data|, position, from);
      if target.None? {
        return Err(OffsetOutOfRange);
      }
      var t := target.value;
      if t < 0 {
        return Err(BeforeStart);
      }
      position := Min(t, |data|);
      r := Ok(position);
    }
  }
}
