/** The high-level decoder (src/optional/decode.rs): classify the file, then drive a sink. */
module OptionalDecode {
  import opened Wrappers
  import opened Errors
  import opened Stream
  import opened Snft
  import opened CommonDecode
  import opened Sink

  /** `decode_into`: the file kind is classified without moving the cursor, and then
      - a classification error is returned at once, before the sink sees anything;
      - `wOFF` and `wOF2` are `InvalidFormat`, with no parse and no sink call;
      - `svg ` slices the whole buffer and goes straight to `finish`;
      - every other kind, `Unknown` included, parses a directory from the cursor's position,
        hands it once to `consume_snft`, and then returns what `finish` returns.
      A failing parse or `consume_snft` ends the decode with its error before any later
      call. `calls` lists the sink calls made, in order. */
  method DecodeInto<S, O, E>(stream: FontDataStream, sink: FontSink<S, O, E>, state: S)
    returns (r: Result<O, Error>, calls: seq<SinkCall>)
    requires stream.Valid()
    modifies stream`position
    ensures stream.Valid()
    ensures DecodeFontType(stream).Err? ==>
      r == Err(DecodeFontType(stream).error) && calls == [] && stream.position == old(stream.position)
    ensures DecodeFontType(stream) == Ok(Woff) || DecodeFontType(stream) == Ok(Wof2) ==>
      r == Err(InvalidFormat) && calls == [] && stream.position == old(stream.position)
    ensures DecodeFontType(stream) == Ok(Svg) ==>
      r == Finished(sink, state) && calls == [FinishCall] && stream.position == old(stream.position)
    ensures DecodeFontType(stream).Ok? && DecodeFontType(stream).value !in {Woff, Wof2, Svg} ==>
      var p := ParseSnft(stream.data, old(stream.position), stream.endianness);
      stream.position == p.next &&
      (p.result.Err? ==> r == Err(p.result.error) && calls == []) &&
      (p.result.Ok? ==>
        var c := sink.consumeSnft(state, p.result.value);
        (c.Err? ==> r == Err(sink.into(c.error)) && calls == [ConsumeSnftCall(p.result.value)]) &&
        (c.Ok? ==> r == Finished(sink, c.value) && calls == [ConsumeSnftCall(p.result.value), FinishCall]))
  {
    calls := [];
    var kind :- DecodeFontType(stream);
    if kind == Woff || kind == Wof2 {
      return Err(InvalidFormat), [];
    }
    if kind == Svg {
      var bytes := stream.SliceRange(0, stream.Len());
      assert bytes.Ok?;
      return Finished(sink, state), [FinishCall];
    }
    // Sfnt, True, Typ1, Otto and the default arm for Unknown all do the same.
    var snft :- ReadSnft(stream);
    var consumed := sink.consumeSnft(state, snft);
    calls := [ConsumeSnftCall(snft)];
    if consumed.Err? {
      return Err(sink.into(consumed.error)), calls;
    }
    r := Finished(sink, consumed.value);
    calls := calls + [FinishCall];
  }
}
