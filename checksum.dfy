/** Table checksums (src/common/snft.rs), as the section "Calculating Checksums" of the
    OpenType specification's chapter "The OpenType Font File" defines them: the sum, modulo
    2^32, of the table's big-endian 32-bit words, the final word zero-padded, with the
    `head` table's checksumAdjustment field counted as zero. */
module Checksum {
  import opened Primitives
  import opened Endian
  import opened Snft

  const WRAP: int := 0x1_0000_0000

  /** The byte at `i`, or zero past the end: a short final chunk is padded at its end, so
      the missing bytes are the low-order bytes of its big-endian word. */
  function ByteOrZero(s: seq<u8>, i: nat): u8 {
    if i < |s| then s[i] else 0
  }

  /** The big-endian word of the chunk that starts at `i`. */
  function WordAt(s: seq<u8>, i: nat): u32 {
    U32From(BigEndian, [ByteOrZero(s, i), ByteOrZero(s, i + 1), ByteOrZero(s, i + 2), ByteOrZero(s, i + 3)])
  }

  /** The unbounded sum of the words of the chunks at `i`, `i + 4`, `i + 8`, ... */
  function SumFrom(s: seq<u8>, i: nat): nat
    decreases |s| - i
  {
    if i >= |s| then 0 else WordAt(s, i) + SumFrom(s, i + 4)
  }

  /** The table checksum: the sum of the big-endian 32-bit words, modulo 2^32. */
  function Checksum(s: seq<u8>): u32 {
    SumFrom(s, 0) % WRAP
  }

  /** A `head` table as its checksum sees it: checksumAdjustment, bytes 8..12, reads as zero. */
  function ZeroAdjustment(s: seq<u8>): (z: seq<u8>)
    ensures |z| == |s|
    ensures forall i :: 0 <= i < |s| ==> z[i] == if 8 <= i < 12 then 0 else s[i]
  {
    seq(|s|, i requires 0 <= i < |s| => if 8 <= i < 12 then 0 else s[i])
  }

  /** The checksum a record's stored value is compared with. */
  function TableChecksum(tag: Tag, s: seq<u8>): u32 {
    if tag == HEAD_TAG then Checksum(ZeroAdjustment(s)) else Checksum(s)
  }

  lemma ModAdd(x: int, c: int)
    ensures (x % WRAP + c) % WRAP == (x + c) % WRAP
  {
  }

  /** One chunk of the checksum loops: folding the chunk's word into the running sum
      keeps the running sum plus the rest congruent to the whole. */
  lemma ChunkStep(s: seq<u8>, i: nat, sum: int, buf: seq<u8>)
    requires i < |s|
    requires |buf| == 4 && forall m :: 0 <= m < 4 ==> buf[m] == ByteOrZero(s, i + m)
    ensures ((sum + U32From(BigEndian, buf)) % WRAP + SumFrom(s, i + 4)) % WRAP == (sum + SumFrom(s, i)) % WRAP
    ensures SumFrom(s, Min(i + 4, |s|)) == SumFrom(s, i + 4)
  {
    assert buf == [ByteOrZero(s, i), ByteOrZero(s, i + 1), ByteOrZero(s, i + 2), ByteOrZero(s, i + 3)];
    ModAdd(sum + WordAt(s, i), SumFrom(s, i + 4));
  }

  /** A non-zero change smaller than 2^32 always moves a value modulo 2^32. */
  lemma ModMoves(a: int, d: int)
    requires 0 < d < WRAP || -WRAP < d < 0
    ensures (a + d) % WRAP != a % WRAP
  {
  }

  /** `compute_checksum`: chunks of four bytes, each zero-padded at its end and read
      big-endian, summed with wrap-around. */
  method ComputeChecksum(data: seq<u8>) returns (sum: u32)
    ensures sum == Checksum(data)
  {
    sum := 0;
    var i := 0;
    while i < |data|
      invariant i <= |data|
      invariant (sum + SumFrom(data, i)) % WRAP == SumFrom(data, 0) % WRAP
    {
      var end := Min(i + 4, |data|);
      var chunk := data[i..end];
      var buf: seq<u8> := [0, 0, 0, 0];
      for k := 0 to |chunk|
        invariant |buf| == 4
        invariant forall j :: 0 <= j < k ==> buf[j] == chunk[j]
        invariant forall j :: k <= j < 4 ==> buf[j] == 0
      {
        buf := buf[k := chunk[k]];
      }
      ChunkStep(data, i, sum, buf);
      sum := (sum + U32From(BigEndian, buf)) % WRAP;
      i := end;
    }
  }

  /** `compute_table_checksum`: for `head`, the same sum with bytes 8..12 read as zero;
      for every other tag, `compute_checksum`. */
  method ComputeTableChecksum(table: SnftTableEntry, data: seq<u8>) returns (sum: u32)
    ensures sum == TableChecksum(table.tag, data)
  {
    if table.tag == HEAD_TAG {
      ghost var z := ZeroAdjustment(data);
      sum := 0;
      var len := |data|;
      var i := 0;
      while i < len
        invariant (sum + SumFrom(z, i)) % WRAP == SumFrom(z, 0) % WRAP
      {
        var buf: seq<u8> := [0, 0, 0, 0];
        for j := 0 to 4
          invariant |buf| == 4
          invariant forall m :: 0 <= m < j ==> buf[m] == ByteOrZero(z, i + m)
        {
          var idx := i + j;
          if idx < len {
            assert z[idx] == if 8 <= idx < 12 then 0 else data[idx];
            if idx >= 8 && idx < 12 {
              buf := buf[j := 0];
            } else {
              buf := buf[j := data[idx]];
            }
          } else {
            buf := buf[j := 0];
          }
        }
        ChunkStep(z, i, sum, buf);
        sum := (sum + U32From(BigEndian, buf)) % WRAP;
        i := i + 4;
      }
    } else {
      sum := ComputeChecksum(data);
    }
  }

  /** Appending a zero byte to data whose final chunk is short leaves the checksum alone:
      the padding sits at the end of the final word. */
  lemma ChecksumPadsAtEnd(s: seq<u8>)
    requires |s| % 4 != 0
    ensures Checksum(s + [0]) == Checksum(s)
  {
    SumFromPadded(s, 0);
  }

  lemma {:induction false} SumFromPadded(s: seq<u8>, i: nat)
    requires |s| % 4 != 0 && i % 4 == 0
    ensures SumFrom(s + [0], i) == SumFrom(s, i)
    decreases |s| - i
  {
    var t := s + [0];
    if i < |s| {
      assert WordAt(t, i) == WordAt(s, i);
      SumFromPadded(s, i + 4);
    }
  }

  /** A lone byte is the most significant byte of its word. */
  lemma ChecksumOfShortChunk()
    ensures Checksum([0x01]) == 0x0100_0000
    ensures Checksum([0x01, 0x02, 0x03, 0x04, 0x05]) == 0x0102_0304 + 0x0500_0000
  {
    assert SumFrom([0x01], 4) == 0;
    assert SumFrom([0x01, 0x02, 0x03, 0x04, 0x05], 8) == 0;
  }

  /** How much byte `i` weighs in its word. */
  function Weight(i: nat): nat {
    if i % 4 == 0 then 0x100_0000 else if i % 4 == 1 then 0x1_0000 else if i % 4 == 2 then 0x100 else 1
  }

  /** Changing byte `i` to `v` moves the unbounded sum by the change times the byte's weight. */
  lemma {:induction false} SumFromUpdate(s: seq<u8>, i: nat, v: u8, from: nat)
    requires i < |s| && from % 4 == 0
    ensures SumFrom(s[i := v], from) == SumFrom(s, from) + (if from <= i then (v - s[i]) * Weight(i) else 0)
    decreases |s| - from
  {
    var t := s[i := v];
    if from < |s| {
      SumFromUpdate(s, i, v, from + 4);
      if from <= i < from + 4 {
        assert WordAt(t, from) == WordAt(s, from) + (v - s[i]) * Weight(i);
      } else {
        assert WordAt(t, from) == WordAt(s, from);
      }
    }
  }

  /** Any change to a single byte changes the checksum. */
  lemma ChecksumDetectsByteChange(s: seq<u8>, i: nat, v: u8)
    requires i < |s| && v != s[i]
    ensures Checksum(s[i := v]) != Checksum(s)
  {
    SumFromUpdate(s, i, v, 0);
    var x := v - s[i];
    if i % 4 == 0 {
      ModMoves(SumFrom(s, 0), x * 0x100_0000);
    } else if i % 4 == 1 {
      ModMoves(SumFrom(s, 0), x * 0x1_0000);
    } else if i % 4 == 2 {
      ModMoves(SumFrom(s, 0), x * 0x100);
    } else {
      ModMoves(SumFrom(s, 0), x);
    }
  }

  /** The stored checksumAdjustment of a `head` table never affects its checksum. */
  lemma HeadAdjustmentIgnored(s: seq<u8>, t: seq<u8>)
    requires |s| == |t|
    requires forall i :: 0 <= i < |s| && !(8 <= i < 12) ==> s[i] == t[i]
    ensures TableChecksum(HEAD_TAG, s) == TableChecksum(HEAD_TAG, t)
  {
    assert ZeroAdjustment(s) == ZeroAdjustment(t);
  }

  /** Every other byte of a `head` table is checked: changing one changes its checksum. */
  lemma HeadDetectsChangeOutsideAdjustment(s: seq<u8>, i: nat, v: u8)
    requires i < |s| && !(8 <= i < 12) && v != s[i]
    ensures TableChecksum(HEAD_TAG, s[i := v]) != TableChecksum(HEAD_TAG, s)
  {
    assert ZeroAdjustment(s[i := v]) == ZeroAdjustment(s)[i := v];
    ChecksumDetectsByteChange(ZeroAdjustment(s), i, v);
  }
}
