/** The shape of a decoding sink (src/optional/sink.rs): something that takes a parsed
    table directory and is then finished into an output. Each sink is given here by its two
    operations over an explicit state value `S` (the sink's `&mut self`, threaded through),
    its output type `O`, its error type `E`, and the `Into<Error>` conversion of its errors. */
module Sink {
  import opened Wrappers
  import opened Errors
  import opened Snft

  datatype FontSink<!S, O, !E> = FontSink(
    consumeSnft: (S, SnftTable) -> Result<S, E>,
    finish: S -> Result<O, E>,
    into: E -> Error)

  /** The calls a decode makes on its sink, in order. */
  datatype SinkCall = ConsumeSnftCall(snft: SnftTable) | FinishCall

  /** `sink.finish().map_err(|e| e.into())`. */
  function Finished<S, O, E>(sink: FontSink<S, O, E>, state: S): (r: Result<O, Error>)
    ensures r.Ok? <==> sink.finish(state).Ok?
    ensures r.Ok? ==> r.value == sink.finish(state).value
    ensures r.Err? ==> r.error == sink.into(sink.finish(state).error)
  {
    match sink.finish(state)
    case Ok(o) => Ok(o)
    case Err(e) => Err(sink.into(e))
  }
}
