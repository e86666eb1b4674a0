/** Validation of a parsed directory against the bytes it describes (src/common/snft.rs):
    every record's region must lie in the buffer and hold the stored checksum. */
module Validate {
  import opened Primitives
  import opened Wrappers
  import opened Errors
  import opened Stream
  import opened Snft
  import opened Checksum

  /** A record's region ends at `offset + length`, summed without overflow. */
  function TableEnd(e: SnftTableEntry): (end: nat)
    ensures end - e.offset == e.length
  {
    e.offset as nat + e.length as nat
  }

  /** The record's region, cut out of the stream's buffer. */
  function TableSlice(stream: FontDataStream, e: SnftTableEntry): Result<seq<u8>, Error> {
    stream.SliceRange(e.offset, TableEnd(e))
  }

  predicate Mismatch(stream: FontDataStream, e: SnftTableEntry) {
    TableSlice(stream, e).Ok? && TableChecksum(e.tag, TableSlice(stream, e).value) != e.checksum
  }

  function MismatchError(stream: FontDataStream, e: SnftTableEntry): Error
    requires TableSlice(stream, e).Ok?
  {
    Io(ChecksumMismatch(e.tag, e.offset, e.checksum, TableChecksum(e.tag, TableSlice(stream, e).value)))
  }

  /** What validation promises: every region is sliced first, so the first record (in
      directory order) whose region is not in the buffer decides the result, whatever the
      checksums; failing that, the first record whose checksum differs; otherwise success. */
  ghost predicate ValidationOutcome(stream: FontDataStream, tables: seq<SnftTableEntry>, r: Result<(), Error>) {
    if exists k :: 0 <= k < |tables| && TableSlice(stream, tables[k]).Err? then
      exists k :: 0 <= k < |tables| && TableSlice(stream, tables[k]).Err? &&
                  (forall j :: 0 <= j < k ==> TableSlice(stream, tables[j]).Ok?) &&
                  r == Err(TableSlice(stream, tables[k]).error)
    else if exists k :: 0 <= k < |tables| && Mismatch(stream, tables[k]) then
      exists k :: 0 <= k < |tables| && Mismatch(stream, tables[k]) &&
                  (forall j :: 0 <= j < k ==> !Mismatch(stream, tables[j])) &&
                  r == Err(MismatchError(stream, tables[k]))
    else
      r == Ok(())
  }

  /** `validate_snft_tables`, sequential path: slice every record's region, then compare
      checksums in order, stopping at the first problem. */
  method ValidateSnftTables(tables: seq<SnftTableEntry>, stream: FontDataStream) returns (r: Result<(), Error>)
    ensures ValidationOutcome(stream, tables, r)
  {
    var tableSlices: seq<(SnftTableEntry, seq<u8>)> := [];
    for i := 0 to |tables|
      invariant |tableSlices| == i
      invariant forall j :: 0 <= j < i ==>
        TableSlice(stream, tables[j]).Ok? && tableSlices[j] == (tables[j], TableSlice(stream, tables[j]).value)
    {
      var t := tables[i];
      var slice := stream.SliceRange(t.offset, t.offset as nat + t.length as nat);
      if slice.Err? {
        assert TableSlice(stream, tables[i]).Err?;
        return Err(slice.error);
      }
      tableSlices := tableSlices + [(t, slice.value)];
    }
    for i := 0 to |tableSlices|
      invariant forall j :: 0 <= j < i ==> !Mismatch(stream, tables[j])
    {
      var (table, data) := tableSlices[i];
      var computed := ComputeTableChecksum(table, data);
      if computed != table.checksum {
        assert Mismatch(stream, tables[i]);
        return Err(Io(ChecksumMismatch(table.tag, table.offset, table.checksum, computed)));
      }
    }
    r := Ok(());
  }

  /** `validate_checksums`: validation of the directory's own records. */
  method ValidateChecksums(snft: SnftTable, stream: FontDataStream) returns (r: Result<(), Error>)
    ensures ValidationOutcome(stream, snft.tables, r)
  {
    r := ValidateSnftTables(snft.tables, stream);
  }

  /** The outcome is determined: validation has exactly one correct result. */
  lemma ValidationOutcomeIsUnique(stream: FontDataStream, tables: seq<SnftTableEntry>, r1: Result<(), Error>, r2: Result<(), Error>)
    requires ValidationOutcome(stream, tables, r1) && ValidationOutcome(stream, tables, r2)
    ensures r1 == r2
  {
    if exists k :: 0 <= k < |tables| && TableSlice(stream, tables[k]).Err? {
      var k1 :| 0 <= k1 < |tables| && TableSlice(stream, tables[k1]).Err? &&
                (forall j :: 0 <= j < k1 ==> TableSlice(stream, tables[j]).Ok?) &&
                r1 == Err(TableSlice(stream, tables[k1]).error);
      var k2 :| 0 <= k2 < |tables| && TableSlice(stream, tables[k2]).Err? &&
                (forall j :: 0 <= j < k2 ==> TableSlice(stream, tables[j]).Ok?) &&
                r2 == Err(TableSlice(stream, tables[k2]).error);
      assert k1 == k2;
    } else if exists k :: 0 <= k < |tables| && Mismatch(stream, tables[k]) {
      var k1 :| 0 <= k1 < |tables| && Mismatch(stream, tables[k1]) &&
                (forall j :: 0 <= j < k1 ==> !Mismatch(stream, tables[j])) &&
                r1 == Err(MismatchError(stream, tables[k1]));
      var k2 :| 0 <= k2 < |tables| && Mismatch(stream, tables[k2]) &&
                (forall j :: 0 <= j < k2 ==> !Mismatch(stream, tables[j])) &&
                r2 == Err(MismatchError(stream, tables[k2]));
      assert k1 == k2;
    }
  }

  /** Validation succeeds exactly when every region lies in the buffer and every record's
      stored checksum equals the recomputed one. */
  lemma ValidationSucceedsIffAllMatch(stream: FontDataStream, tables: seq<SnftTableEntry>, r: Result<(), Error>)
    requires ValidationOutcome(stream, tables, r)
    ensures r.Ok? <==> forall k :: 0 <= k < |tables| ==>
      TableSlice(stream, tables[k]).Ok? && TableChecksum(tables[k].tag, TableSlice(stream, tables[k]).value) == tables[k].checksum
  {
    if r.Ok? {
      forall k | 0 <= k < |tables|
        ensures TableSlice(stream, tables[k]).Ok?
        ensures TableChecksum(tables[k].tag, TableSlice(stream, tables[k]).value) == tables[k].checksum
      {
        assert !Mismatch(stream, tables[k]);
      }
    } else {
      assert exists k :: 0 <= k < |tables| && (TableSlice(stream, tables[k]).Err? || Mismatch(stream, tables[k]));
    }
  }

  /** A region that is not in the buffer is reported as out of bounds, naming the
      record's length and the bytes left at its offset, never as an invalid offset. */
  lemma TableSliceErrorIsOutOfBounds(stream: FontDataStream, e: SnftTableEntry)
    ensures TableSlice(stream, e).Err? <==> TableEnd(e) > |stream.data|
    ensures TableSlice(stream, e).Err? ==>
      TableSlice(stream, e).error == Io(OutOfBounds(e.length, AvailableAt(|stream.data|, e.offset)))
    ensures TableSlice(stream, e).Ok? ==>
      TableSlice(stream, e).value == stream.data[e.offset..e.offset + e.length]
  {
  }

  /** `t.offset + t.length` as written: a `u32` sum, which wraps in a release build (and
      panics in a debug build) when the region would reach past 4 GiB. */
  function TableEndAsWritten(e: SnftTableEntry): (end: u32)
    ensures e.offset + e.length < WRAP ==> end == TableEnd(e)
    ensures e.offset + e.length >= WRAP ==> end < e.offset
  {
    (e.offset + e.length) % WRAP
  }

  /** A record at offset 16 with length 0xFFFF_FFF8: the wrapped end is 8, so slicing as
      written reports an invalid offset instead of the out-of-bounds region it is. */
  lemma WrappedTableEndMisreported(stream: FontDataStream)
    requires |stream.data| < 0x1_0000_0008
    ensures var e := SnftTableEntry([0x67, 0x6C, 0x79, 0x66], 0, 16, 0xFFFF_FFF8);
      stream.SliceRange(e.offset, TableEndAsWritten(e)) == Err(Io(InvalidOffset(16))) &&
      TableSlice(stream, e) == Err(Io(OutOfBounds(0xFFFF_FFF8, AvailableAt(|stream.data|, 16))))
  {
    var e := SnftTableEntry([0x67, 0x6C, 0x79, 0x66], 0, 16, 0xFFFF_FFF8);
    assert TableEndAsWritten(e) == 8;
  }
}
