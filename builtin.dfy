/** The built-in sink (src/optional/builtin.rs): a font that collects the table records of
    every directory it is given. */
module Builtin {
  import opened Primitives
  import opened Wrappers
  import opened Errors
  import opened Snft
  import opened Sink

  /** Stands for Rust's `Infallible`: the built-in sink has no error of its own. */
  datatype Infallible = Infallible

  /** The contents of a `Font`, as the value the generic decoder threads through. */
  datatype FontValue = FontValue(snftTables: seq<SnftTableEntry>, svgData: Option<seq<u8>>)

  /** The built-in sink's operations on font values: `consume_snft` appends the records,
      `finish` hands the font back, and the error conversion is the crate's
      `From<Infallible>`. */
  function BuiltinSink(): (sink: FontSink<FontValue, FontValue, Infallible>)
    ensures forall f: FontValue, snft: SnftTable ::
      (sink.consumeSnft(f, snft).Ok? &&
       |sink.consumeSnft(f, snft).value.snftTables| == |f.snftTables| + |snft.tables| &&
       sink.consumeSnft(f, snft).value.snftTables[..|f.snftTables|] == f.snftTables &&
       sink.consumeSnft(f, snft).value.snftTables[|f.snftTables|..] == snft.tables &&
       sink.consumeSnft(f, snft).value.svgData == f.svgData)
    ensures forall f: FontValue :: sink.finish(f) == Ok(f)
    ensures sink.into(Infallible) == Io(InvalidData)
  {
    FontSink(
      (f: FontValue, snft: SnftTable) => Ok(FontValue(f.snftTables + snft.tables, f.svgData)),
      (f: FontValue) => Ok(f),
      (e: Infallible) => Io(InvalidData))
  }

  class Font {
    var snftTables: seq<SnftTableEntry>
    var svgData: Option<seq<u8>>

    function Value(): FontValue
      reads this
    {
      FontValue(snftTables, svgData)
    }

    /** `Font::new`: no records and no SVG data. */
    constructor ()
      ensures snftTables == [] && svgData == None
    {
      snftTables := [];
      svgData := None;
    }

    /** `consume_snft`: the directory's records go after the ones already held, in their
        order; the SVG data is untouched, and nothing can fail. */
    method ConsumeSnft(snft: SnftTable) returns (r: Result<(), Infallible>)
      modifies this
      ensures r == Ok(())
      ensures snftTables == old(snftTables) + snft.tables
      ensures old(snftTables) <= snftTables
      ensures svgData == old(svgData)
      ensures Ok(Value()) == BuiltinSink().consumeSnft(old(Value()), snft)
    {
      snftTables := snftTables + snft.tables;
      r := Ok(());
    }

    /** `finish`: the font itself, unchanged. */
    method Finish() returns (r: Result<Font, Infallible>)
      ensures r == Ok(this)
      ensures Ok(Value()) == BuiltinSink().finish(Value())
    {
      r := Ok(this);
    }
  }

  /** Consuming never fails, and consuming directories one after another collects their
      records in order. */
  lemma {:induction false} BuiltinConsumeCollects(f: FontValue, snfts: seq<SnftTable>)
    ensures ConsumeAll(f, snfts) == Ok(FontValue(f.snftTables + AllRecords(snfts), f.svgData))
  {
    if snfts != [] {
      var last := snfts[|snfts| - 1];
      var init := snfts[..|snfts| - 1];
      assert snfts == init + [last];
      BuiltinConsumeCollects(f, init);
      var g := FontValue(f.snftTables + AllRecords(init), f.svgData);
      assert BuiltinSink().consumeSnft(g, last) == Ok(FontValue(g.snftTables + last.tables, f.svgData));
      assert AllRecords(snfts) == AllRecords(init) + last.tables;
      assert f.snftTables + AllRecords(init) + last.tables == f.snftTables + AllRecords(snfts);
    } else {
      assert f.snftTables + [] == f.snftTables;
    }
  }

  /** Feeding the built-in sink a sequence of directories, in order. */
  function ConsumeAll(f: FontValue, snfts: seq<SnftTable>): Result<FontValue, Infallible> {
    if snfts == [] then Ok(f)
    else
      var r := ConsumeAll(f, snfts[..|snfts| - 1]);
      if r.Err? then r else BuiltinSink().consumeSnft(r.value, snfts[|snfts| - 1])
  }

  /** The records of a sequence of directories, one directory after another. */
  function AllRecords(snfts: seq<SnftTable>): seq<SnftTableEntry> {
    if snfts == [] then [] else AllRecords(snfts[..|snfts| - 1]) + snfts[|snfts| - 1].tables
  }

  /** A fresh font that consumes one directory and finishes yields exactly that
      directory's records and no SVG data. */
  lemma BuiltinDecodeYieldsRecords(snft: SnftTable)
    ensures var c := BuiltinSink().consumeSnft(FontValue([], None), snft);
      c.Ok? && Finished(BuiltinSink(), c.value) == Ok(FontValue(snft.tables, None))
  {
    assert [] + snft.tables == snft.tables;
  }
}
