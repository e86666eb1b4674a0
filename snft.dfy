/** The sfnt table directory (src/common/snft.rs), following the "Table Directory" section of
    the OpenType specification's chapter "The OpenType Font File": a 12-byte header (version,
    numTables, searchRange, entrySelector, rangeShift) and `numTables` 16-byte table records
    (tag, checksum, offset, length), their lookups, and reading them through a cursor. */
module Snft {
  import opened Primitives
  import opened Wrappers
  import opened Errors
  import opened Endian
  import opened Stream

  // ---------------------------------------------------------------------------------
  // Directory datatypes and lookups

  datatype SnftTableHeader = SnftTableHeader(
    version: u32, numTables: u16, searchRange: u16, entrySelector: u16, rangeShift: u16)

  datatype SnftTableEntry = SnftTableEntry(tag: Tag, checksum: u32, offset: u32, length: u32)

  datatype SnftTable = SnftTable(header: SnftTableHeader, tables: seq<SnftTableEntry>)

  const HEAD_TAG: Tag := [0x68, 0x65, 0x61, 0x64] // "head"

  /** `get_table_by_tag`: the first record, in directory order, carrying `tag`. */
  function GetTableByTag(snft: SnftTable, tag: Tag): (r: Option<SnftTableEntry>)
    ensures r.None? <==> forall i :: 0 <= i < |snft.tables| ==> snft.tables[i].tag != tag
    ensures r.Some? ==> (exists i :: 0 <= i < |snft.tables| && snft.tables[i] == r.value &&
                                     r.value.tag == tag && forall j :: 0 <= j < i ==> snft.tables[j].tag != tag)
  {
    FindByTag(snft.tables, tag)
  }

  function FindByTag(tables: seq<SnftTableEntry>, tag: Tag): (r: Option<SnftTableEntry>)
    ensures r.None? <==> forall i :: 0 <= i < |tables| ==> tables[i].tag != tag
    ensures r.Some? ==> (exists i :: 0 <= i < |tables| && tables[i] == r.value &&
                                     r.value.tag == tag && forall j :: 0 <= j < i ==> tables[j].tag != tag)
  {
    if tables == [] then None
    else if tables[0].tag == tag then Some(tables[0])
    else
      var r := FindByTag(tables[1..], tag);
      assert r.Some? ==> (exists i :: 1 <= i < |tables| && tables[i] == r.value &&
                                       r.value.tag == tag && forall j :: 1 <= j < i ==> tables[j].tag != tag);
      r
  }

  /** `has_table`: some record carries `tag`, exactly when the lookup finds one. */
  function HasTable(snft: SnftTable, tag: Tag): (b: bool)
    ensures b <==> exists i :: 0 <= i < |snft.tables| && snft.tables[i].tag == tag
    ensures b <==> GetTableByTag(snft, tag).Some?
  {
    GetTableByTag(snft, tag).Some?
  }

  function TableCount(snft: SnftTable): (n: nat)
    ensures n == |snft.tables|
  {
    |snft.tables|
  }

  /** `is_empty`: no records at all. */
  function IsEmpty(snft: SnftTable): (b: bool)
    ensures b <==> TableCount(snft) == 0
    ensures b ==> forall tag: Tag :: !HasTable(snft, tag)
    ensures !b ==> HasTable(snft, snft.tables[0].tag)
  {
    |snft.tables| == 0
  }

  /** `list_table_tags`, with each tag kept as its four bytes: one tag per record, in
      directory order, duplicates included. */
  function ListTableTags(snft: SnftTable): (tags: seq<Tag>)
    ensures |tags| == |snft.tables|
    ensures forall i :: 0 <= i < |tags| ==> tags[i] == snft.tables[i].tag
  {
    seq(|snft.tables|, i requires 0 <= i < |snft.tables| => snft.tables[i].tag)
  }

  // ---------------------------------------------------------------------------------
  // The directory as a function of the bytes

  /** The header whose fields sit at `pos`: u32 version at +0, then four u16 at +4, +6, +8
      and +10, each in `order`. */
  function DecodeHeader(data: seq<u8>, pos: nat, order: ByteOrder): SnftTableHeader
    requires pos + 12 <= |data|
  {
    SnftTableHeader(
      U32From(order, data[pos..pos + 4]),
      U16From(order, data[pos + 4..pos + 6]),
      U16From(order, data[pos + 6..pos + 8]),
      U16From(order, data[pos + 8..pos + 10]),
      U16From(order, data[pos + 10..pos + 12]))
  }

  /** The record whose fields sit at `pos`: the raw tag at +0, then u32 checksum, offset and
      length at +4, +8 and +12. */
  function DecodeEntry(data: seq<u8>, pos: nat, order: ByteOrder): SnftTableEntry
    requires pos + 16 <= |data|
  {
    SnftTableEntry(
      data[pos..pos + 4],
      U32From(order, data[pos + 4..pos + 8]),
      U32From(order, data[pos + 8..pos + 12]),
      U32From(order, data[pos + 12..pos + 16]))
  }

  /** The first `n` records of a directory whose records start at `base`. */
  function DecodeEntries(data: seq<u8>, base: nat, order: ByteOrder, n: nat): seq<SnftTableEntry>
    requires base + 16 * n <= |data|
  {
    if n == 0 then [] else DecodeEntries(data, base, order, n - 1) + [DecodeEntry(data, base + 16 * (n - 1), order)]
  }

  /** What a parse yields and where the cursor ends up. */
  datatype Parsed<T> = Parsed(result: Result<T, Error>, next: nat)

  /** Reading the header at `pos` field by field: with fewer than 12 bytes left, the first
      field that does not fit fails, after the fields before it were consumed. */
  function ParseHeader(data: seq<u8>, pos: nat, order: ByteOrder): Parsed<SnftTableHeader>
    requires pos <= |data|
  {
    var a := |data| - pos;
    if a >= 12 then Parsed(Ok(DecodeHeader(data, pos, order)), pos + 12)
    else if a < 4 then Parsed(Err(Io(OutOfBounds(4, a))), pos)
    else
      var consumed := 4 + (a - 4) / 2 * 2;
      Parsed(Err(Io(OutOfBounds(2, a - consumed))), pos + consumed)
  }

  /** Reading a record at `pos`: four 4-byte fields, the first that does not fit fails. */
  function ParseEntry(data: seq<u8>, pos: nat, order: ByteOrder): Parsed<SnftTableEntry>
    requires pos <= |data|
  {
    var a := |data| - pos;
    if a >= 16 then Parsed(Ok(DecodeEntry(data, pos, order)), pos + 16)
    else Parsed(Err(Io(OutOfBounds(4, a % 4))), pos + a / 4 * 4)
  }

  /** The whole directory at `pos`: the header, then its `numTables` records back to back;
      a truncated directory fails inside the first record that does not fit. */
  /** `n` records back to back from `base`: all of them when they fit, otherwise the
      error of the first record that does not, with the cursor where that record stopped. */
  function ParseRecords(data: seq<u8>, base: nat, order: ByteOrder, n: nat): Parsed<seq<SnftTableEntry>>
    requires base <= |data|
  {
    if base + 16 * n <= |data| then Parsed(Ok(DecodeEntries(data, base, order, n)), base + 16 * n)
    else
      var failing := ParseEntry(data, base + 16 * ((|data| - base) / 16), order);
      Parsed(Err(failing.result.error), failing.next)
  }

  /** The whole directory at `pos`: the header, then its `numTables` records back to back;
      a truncated directory fails inside the first record that does not fit. */
  function ParseSnft(data: seq<u8>, pos: nat, order: ByteOrder): Parsed<SnftTable>
    requires pos <= |data|
  {
    var h := ParseHeader(data, pos, order);
    if h.result.Err? then Parsed(Err(h.result.error), h.next)
    else
      var header := h.result.value;
      var records := ParseRecords(data, pos + 12, order, header.numTables as nat);
      if records.result.Err? then Parsed(Err(records.result.error), records.next)
      else Parsed(Ok(SnftTable(header, records.result.value)), records.next)
  }

  lemma {:induction false} DecodeEntriesAt(data: seq<u8>, base: nat, order: ByteOrder, n: nat, i: nat)
    requires base + 16 * n <= |data|
    requires i < n
    ensures |DecodeEntries(data, base, order, n)| == n
    ensures DecodeEntries(data, base, order, n)[i] == DecodeEntry(data, base + 16 * i, order)
  {
    DecodeEntriesLength(data, base, order, n);
    if i < n - 1 {
      DecodeEntriesAt(data, base, order, n - 1, i);
    }
  }

  lemma {:induction false} DecodeEntriesLength(data: seq<u8>, base: nat, order: ByteOrder, n: nat)
    requires base + 16 * n <= |data|
    ensures |DecodeEntries(data, base, order, n)| == n
  {
    if n > 0 {
      DecodeEntriesLength(data, base, order, n - 1);
    }
  }

  /** A directory parses exactly when its header and all its records fit; it then holds
      the header verbatim and one record per declared table, in file order, and the cursor
      has moved past `12 + 16 * numTables` bytes. */
  lemma ParseSnftSucceeds(data: seq<u8>, pos: nat, order: ByteOrder)
    requires pos <= |data|
    ensures var p := ParseSnft(data, pos, order);
      p.result.Ok? <==>
        pos + 12 <= |data| && pos + 12 + 16 * DecodeHeader(data, pos, order).numTables <= |data|
    ensures var p := ParseSnft(data, pos, order);
      p.result.Ok? ==>
        var t := p.result.value;
        t.header == DecodeHeader(data, pos, order) &&
        |t.tables| == t.header.numTables as nat &&
        p.next == pos + 12 + 16 * |t.tables| &&
        forall i :: 0 <= i < |t.tables| ==> t.tables[i] == DecodeEntry(data, pos + 12 + 16 * i, order)
  {
    if pos + 12 <= |data| {
      var header := DecodeHeader(data, pos, order);
      var n := header.numTables as nat;
      assert ParseHeader(data, pos, order) == Parsed(Ok(header), pos + 12);
      if pos + 12 + 16 * n <= |data| {
        var tables := DecodeEntries(data, pos + 12, order, n);
        assert ParseSnft(data, pos, order) == Parsed(Ok(SnftTable(header, tables)), pos + 12 + 16 * n);
        DecodeEntriesLength(data, pos + 12, order, n);
        forall i | 0 <= i < n
          ensures tables[i] == DecodeEntry(data, pos + 12 + 16 * i, order)
        {
          DecodeEntriesAt(data, pos + 12, order, n, i);
        }
      } else {
        assert ParseRecords(data, pos + 12, order, n).result.Err?;
      }
    } else {
      assert ParseHeader(data, pos, order).result.Err?;
    }
  }


  /** A failed parse never returns part of a directory, and its error is exact: the read
      that failed asked for more bytes than remained where the cursor stopped, and the
      error names those remaining bytes. */
  lemma ParseSnftFailureIsExact(data: seq<u8>, pos: nat, order: ByteOrder)
    requires pos <= |data|
    ensures var p := ParseSnft(data, pos, order);
      p.result.Err? ==>
        pos <= p.next <= |data| &&
        p.result.error.Io? && p.result.error.io.OutOfBounds? &&
        p.result.error.io.available == |data| - p.next &&
        p.result.error.io.requested > p.result.error.io.available &&
        p.result.error.io.requested in {2, 4}
  {
  }

  /** A directory whose header fits but whose records do not fails inside record `k`, the
      first one that is not wholly in the buffer, at one of that record's 4-byte fields. */
  lemma TruncatedDirectoryFailsAtFirstShortRecord(data: seq<u8>, pos: nat, order: ByteOrder)
    requires pos + 12 <= |data|
    requires pos + 12 + 16 * DecodeHeader(data, pos, order).numTables > |data|
    ensures var p := ParseSnft(data, pos, order);
      var base := pos + 12;
      p.result.Err? &&
      exists k :: 0 <= k < DecodeHeader(data, pos, order).numTables &&
        base + 16 * k <= |data| < base + 16 * (k + 1) &&
        base + 16 * k <= p.next < base + 16 * (k + 1) && (p.next - base) % 4 == 0 &&
        p.result.error == Io(OutOfBounds(4, |data| - p.next))
  {
    var base := pos + 12;
    var k := (|data| - base) / 16;
    assert base + 16 * k <= |data| < base + 16 * (k + 1);
  }

  /** Re-deriving the tags of a parsed directory gives one tag per declared table, in file
      order, each the four bytes at the start of its record. */
  lemma ListedTagsAreRecordTags(data: seq<u8>, pos: nat, order: ByteOrder)
    requires pos <= |data|
    requires ParseSnft(data, pos, order).result.Ok?
    ensures var t := ParseSnft(data, pos, order).result.value;
      var tags := ListTableTags(t);
      |tags| == t.header.numTables as nat &&
      forall i :: 0 <= i < |tags| ==> tags[i] == data[pos + 12 + 16 * i..pos + 12 + 16 * i + 4]
  {
    ParseSnftSucceeds(data, pos, order);
  }

  lemma ReadStep(data: seq<u8>, base: nat, order: ByteOrder, i: nat, tables: seq<SnftTableEntry>,
                  entry: Result<SnftTableEntry, Error>)
    requires base + 16 * i <= |data|
    requires tables == DecodeEntries(data, base, order, i)
    requires entry == ParseEntry(data, base + 16 * i, order).result && entry.Ok?
    ensures ParseEntry(data, base + 16 * i, order).next == base + 16 * (i + 1) <= |data|
    ensures tables + [entry.value] == DecodeEntries(data, base, order, i + 1)
  {
  }

  lemma RecordsStopAt(data: seq<u8>, base: nat, order: ByteOrder, n: nat, i: nat)
    requires base + 16 * i <= |data|
    requires ParseEntry(data, base + 16 * i, order).result.Err?
    requires i < n
    ensures var e := ParseEntry(data, base + 16 * i, order);
      ParseRecords(data, base, order, n) == Parsed(Err(e.result.error), e.next)
  {
    assert (|data| - base) / 16 == i;
  }

  // ---------------------------------------------------------------------------------
  // Reading the directory through the cursor

  /** `read_snft_header`: version, numTables, searchRange, entrySelector, rangeShift, in
      that order, each with the stream's byte order. */
  method ReadSnftHeader(stream: FontDataStream) returns (r: Result<SnftTableHeader, Error>)
    requires stream.Valid()
    modifies stream`position
    ensures stream.Valid()
    ensures var p := ParseHeader(stream.data, old(stream.position), stream.endianness);
      r == p.result && stream.position == p.next
  {
    var version :- stream.ReadU32();
    var numTables :- stream.ReadU16();
    var searchRange :- stream.ReadU16();
    var entrySelector :- stream.ReadU16();
    var rangeShift :- stream.ReadU16();
    r := Ok(SnftTableHeader(version, numTables, searchRange, entrySelector, rangeShift));
  }

  /** `read_snft_table_entry`: the raw tag, then checksum, offset and length. */
  method ReadSnftTableEntry(stream: FontDataStream) returns (r: Result<SnftTableEntry, Error>)
    requires stream.Valid()
    modifies stream`position
    ensures stream.Valid()
    ensures var p := ParseEntry(stream.data, old(stream.position), stream.endianness);
      r == p.result && stream.position == p.next
  {
    var tag :- stream.ReadBytes(4);
    var checksum :- stream.ReadU32();
    var offset :- stream.ReadU32();
    var length :- stream.ReadU32();
    r := Ok(SnftTableEntry(tag, checksum, offset, length));
  }

  /** `read_snft`: the header, then `numTables` records pushed in the order read; any
      failed read ends the parse with its error and no directory. */
  method ReadSnft(stream: FontDataStream) returns (r: Result<SnftTable, Error>)
    requires stream.Valid()
    modifies stream`position
    ensures stream.Valid()
    ensures var p := ParseSnft(stream.data, old(stream.position), stream.endianness);
      r == p.result && stream.position == p.next
  {
    var header :- ReadSnftHeader(stream);
    var tables :- ReadRecords(stream, header.numTables);
    r := Ok(SnftTable(header, tables));
  }

  /** The loop of `read_snft`: `n` records pushed in the order read, stopping at the first
      failed read with its error. */
  method ReadRecords(stream: FontDataStream, n: u16) returns (r: Result<seq<SnftTableEntry>, Error>)
    requires stream.Valid()
    modifies stream`position
    ensures stream.Valid()
    ensures var p := ParseRecords(stream.data, old(stream.position), stream.endianness, n as nat);
      r == p.result && stream.position == p.next
  {
    ghost var base, data, order := stream.position, stream.data, stream.endianness;
    var tables := [];
    var i := 0;
    while i < n
      invariant 0 <= i <= n
      invariant stream.Valid() && stream.endianness == order
      invariant base + 16 * i <= |data|
      invariant stream.position == base + 16 * i
      invariant tables == DecodeEntries(data, base, order, i)
    {
      var entry := ReadSnftTableEntry(stream);
      if entry.Err? {
        RecordsStopAt(data, base, order, n as nat, i as nat);
        return Err(entry.error);
      }
      ReadStep(data, base, order, i as nat, tables, entry);
      tables := tables + [entry.value];
      i := i + 1;
    }
    assert ParseRecords(data, base, order, n as nat) == Parsed(Ok(tables), base + 16 * n as nat);
    r := Ok(tables);
  }
}
