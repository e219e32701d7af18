/** Batching in the Build Event Service: how much may wait to be handed over. */
module BesBatches {
  import opened Base
  import opened FrameCodec
  import opened Capture
  import opened Bes
  import opened BesSafety

  /** Fewer than 64 frames of less than a mebibyte in all, and the size is known. */
  predicate Small(batch: Batch) {
    && |batch.frames| < 64 && TotalLength(batch.frames) < 1024 * 1024
    && batch.bytes == TotalLength(batch.frames)
  }

  lemma {:induction false} JoinedSize(batch: Batch, framed: Bytes)
    requires Small(batch)
    ensures SatAdd(batch.bytes, |framed|) == SatAdd(0, TotalLength(batch.frames + [framed]))
  {
    var one: seq<Bytes> := [framed];
    TotalAppend(batch.frames, one);
    assert one[1..] == [];
  }

  /** An admitted event waits, and nothing is handed over, unless it is the 64th or
      brings the waiting bytes to a mebibyte; then nothing is left waiting. */
  lemma {:induction false} BatchesExactly(parse: Parser, s: Session, typeUrl: string, value: Bytes)
    requires Small(s.batch) && TypeUrlAllowed(typeUrl) && FramePayload(value, s.stats).Ok?
    ensures
      var r := OnBazelEvent(parse, s, s.expected, typeUrl, value);
      var frames := s.batch.frames + [EncodeFrame(value)];
      if |frames| == 64 || TotalLength(frames) >= 1024 * 1024 then
        && r.batch == EMPTY
        && r.link == Flush(parse, s.link, Batch(frames, s.batch.responses + [s.expected], r.batch.bytes))
      else
        r.link == s.link && r.batch == Batch(frames, s.batch.responses + [s.expected], TotalLength(frames))
  {
    JoinedSize(s.batch, EncodeFrame(value));
    BazelEventShape(parse, s, typeUrl, value);
  }

  lemma {:induction false} StepSmall(parse: Parser, s: Session, input: Input)
    requires Small(s.batch)
    ensures Small(Step(parse, s, input).batch)
  {
    if input.Message? && Screen(s.identity, s.expected, s.requestCount, s.sawFinished, input.request).None? {
      BodySmall(parse, s, input.request.value.event.value);
    }
  }

  lemma {:induction false} BodySmall(parse: Parser, s: Session, body: Body)
    requires Small(s.batch)
    ensures Small(OnBody(parse, s, body).batch)
  {
    if body.BazelEvent? && TypeUrlAllowed(body.typeUrl) && FramePayload(body.value, s.stats).Ok? {
      BatchesExactly(parse, s, body.typeUrl, body.value);
    }
  }

  /** Whatever the client sends, less than a full batch is ever left waiting. */
  lemma {:induction false} RunStaysSmall(parse: Parser, s: Session, inputs: seq<Input>)
    requires Small(s.batch)
    ensures Small(Run(parse, s, inputs).batch)
    decreases |inputs|
  {
    if inputs != [] {
      StepSmall(parse, s, inputs[0]);
      RunStaysSmall(parse, Step(parse, s, inputs[0]), inputs[1..]);
    }
  }
}
