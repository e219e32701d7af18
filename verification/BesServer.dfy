/** `capture_stream` as it runs: a loop over requests that updates its variables,
    hands batches to the receiver's pipeline and sends acknowledgements. Every
    method is proved to take the step that the state machine takes. */
module BesServer {
  import opened Base
  import opened Framing
  import opened Varint
  import opened FrameCodec
  import opened Capture
  import Bes
  import opened BesSafety

  /** `frame_bep_payload`, with the prefix encoded in place. */
  method FrameBepPayload(payload: Bytes, stats: Bes.Stats) returns (r: Result<Bytes, Bes.BesError>)
    ensures r == Bes.FramePayload(payload, stats)
  {
    if |payload| > DEFAULT_LIMITS.maxFrame {
      return Err(Bes.FrameTooLarge);
    }
    var nextBytes := SatAdd(stats.bepBytes, |payload|);
    if nextBytes > DEFAULT_LIMITS.maxStream {
      return Err(Bes.StreamBytesExceeded);
    }
    if stats.eventCount >= DEFAULT_LIMITS.maxEvents {
      return Err(Bes.EventCountExceeded);
    }
    var prefix := new Byte[10](_ => 0);
    var length := EncodeVarint(|payload|, prefix);
    return Ok(prefix[..length] + payload);
  }

  /** The receiving task of the capture channel. */
  class BesReceiver {
    const pipeline: CapturePipeline
    var open: bool
    var error: Option<PipelineError>

    ghost predicate Valid()
      reads this, pipeline, pipeline.decoder
    {
      pipeline.Valid() && pipeline.decoder.limits == DEFAULT_LIMITS && (open ==> error.None?)
    }

    ghost function View(): Bes.Receiver
      reads this, pipeline, pipeline.decoder
    {
      Bes.Receiver(pipeline.View(error), open)
    }

    constructor (pipeline: CapturePipeline)
      requires pipeline.Valid() && pipeline.decoder.limits == DEFAULT_LIMITS
      ensures Valid() && this.pipeline == pipeline && open
      ensures View() == Bes.Receiver(pipeline.View(None), true)
    {
      this.pipeline := pipeline;
      open, error := true, None;
    }

    /** Ingests the frames of one event until one of them is refused. */
    method Accept(frames: seq<Bytes>) returns (ok: bool)
      requires Valid() && open
      modifies this, pipeline, pipeline.decoder
      ensures Valid()
      ensures (View(), ok) == Bes.Handle(pipeline.parse, old(View()), Bes.Frames(frames))
    {
      var i := 0;
      while i < |frames| && error.None?
        invariant i <= |frames| && Valid() && open == error.None?
        invariant IngestedAll(pipeline.parse, DEFAULT_LIMITS, pipeline.View(error), frames[i..])
               == IngestedAll(pipeline.parse, DEFAULT_LIMITS, old(pipeline.View(None)), frames)
      {
        assert frames[i..][1..] == frames[i + 1..];
        error := pipeline.Ingest(frames[i]);
        open := error.None?;
        i := i + 1;
      }
      return open;
    }

    /** The end of the stream: finish the pipeline and stop listening. */
    method End() returns (ok: bool)
      requires Valid() && open
      modifies this, pipeline
      ensures Valid()
      ensures (View(), ok) == Bes.Handle(pipeline.parse, old(View()), Bes.Finish)
    {
      var output := pipeline.Finish();
      open := false;
      match output {
        case Ok(_) =>
          ok := true;
        case Err(e) =>
          error, ok := Some(e), false;
      }
    }
  }

  /** A session after its finish, given the link that handing it over leaves. */
  lemma FinishedAs(parse: Parser, s: Bes.Session, ended: Bes.Link, sequence: int)
    requires ended == Bes.Respond(Bes.Forward(parse, Bes.Flush(parse, s.link, s.batch), Bes.Finish), sequence)
    ensures Bes.OnFinished(parse, s, sequence, 1) ==
      s.(link := ended, batch := Bes.EMPTY, events := s.events + [None], sawFinished := true)
  {
  }

  class CaptureSession {
    const parse: Parser
    const identity: Bes.StreamId
    const receiver: BesReceiver
    var expectedSequence: int
    var requestCount: nat
    var stats: Bes.Stats
    var sawFinished: bool
    var pendingFrames: seq<Bytes>
    var pendingResponses: seq<int>
    var pendingBatchBytes: nat
    var events: seq<Option<Bytes>>
    var handoffs: seq<Bes.Handoff>
    var client: seq<bool>
    var wire: seq<Bes.Wire>

    ghost predicate Valid()
      reads this, receiver, receiver.pipeline, receiver.pipeline.decoder
    {
      receiver.Valid() && receiver.pipeline.parse == parse
    }

    ghost function Link(error: Option<Bes.BesError>): Bes.Link
      reads this, receiver, receiver.pipeline, receiver.pipeline.decoder
    {
      Bes.Link(receiver.View(), handoffs, client, wire, error)
    }

    ghost function View(error: Option<Bes.BesError>, completed: bool): Bes.Session
      reads this, receiver, receiver.pipeline, receiver.pipeline.decoder
    {
      Bes.Session(identity, expectedSequence, requestCount, stats, sawFinished,
                  Bes.Batch(pendingFrames, pendingResponses, pendingBatchBytes), events, completed, Link(error))
    }

    constructor (
      parse: Parser, identity: Bes.StreamId, receiver: BesReceiver, handoffs: seq<Bes.Handoff>, client: seq<bool>)
      requires receiver.Valid() && receiver.pipeline.parse == parse
      ensures Valid() && this.receiver == receiver && this.parse == parse
      ensures View(None, false) == Bes.Session(identity, 1, 0, Bes.Stats(0, 0), false, Bes.EMPTY, [], false,
                                               Bes.Link(receiver.View(), handoffs, client, [], None))
    {
      this.parse, this.identity, this.receiver := parse, identity, receiver;
      this.handoffs, this.client := handoffs, client;
      expectedSequence, requestCount, stats, sawFinished := 1, 0, Bes.Stats(0, 0), false;
      pendingFrames, pendingResponses, pendingBatchBytes, events, wire := [], [], 0, [], [];
    }

    method ForwardCaptureEvent(d: Bes.Delivery) returns (error: Option<Bes.BesError>)
      requires Valid()
      modifies this`handoffs, this`wire, receiver, receiver.pipeline, receiver.pipeline.decoder
      ensures Valid()
      ensures Link(error) == Bes.Forward(parse, old(Link(None)), d)
    {
      var answer := if handoffs == [] then Bes.Answered else handoffs[0];
      handoffs := if handoffs == [] then [] else handoffs[1..];
      if answer.ChannelClosed? || !receiver.open {
        return Some(Bes.ReceiverClosed);
      }
      var ok;
      match d {
        case Frames(frames) => ok := receiver.Accept(frames);
        case Finish => ok := receiver.End();
      }
      if answer.AnswerLost? {
        return Some(Bes.AcknowledgementClosed);
      }
      if !ok {
        return Some(Bes.ReceiverRejected);
      }
      wire := wire + [if d.Frames? then Bes.Accepted(d.frames) else Bes.FinishAccepted];
      return None;
    }

    method SendResponse(sequence: int) returns (error: Option<Bes.BesError>)
      modifies this`client, this`wire
      ensures Link(error) == Bes.Respond(old(Link(None)), sequence)
    {
      var accepts := client == [] || client[0];
      client := if client == [] then [] else client[1..];
      if !accepts {
        return Some(Bes.ClientStopped);
      }
      wire := wire + [Bes.Acknowledged(sequence)];
      return None;
    }

    method SendResponses(responses: seq<int>) returns (error: Option<Bes.BesError>)
      modifies this`client, this`wire
      ensures Link(error) == Bes.RespondAll(old(Link(None)), responses)
    {
      error := None;
      var i := 0;
      while i < |responses| && error.None?
        invariant i <= |responses|
        invariant Bes.RespondAll(Link(error), responses[i..]) == Bes.RespondAll(old(Link(None)), responses)
      {
        assert responses[i..][1..] == responses[i + 1..];
        error := SendResponse(responses[i]);
        i := i + 1;
      }
      if error.Some? {
        RespondNothing(Link(error), responses[i..]);
      }
    }

    method FlushCaptureBatch() returns (error: Option<Bes.BesError>)
      requires Valid()
      requires pendingFrames == [] ==> pendingResponses == []
      modifies this`handoffs, this`wire, this`client, this`pendingFrames, this`pendingResponses
      modifies receiver, receiver.pipeline, receiver.pipeline.decoder
      ensures Valid()
      ensures Link(error) == Bes.Flush(parse, old(Link(None)), old(View(None, false)).batch)
      ensures error.None? ==> pendingFrames == [] && pendingResponses == []
    {
      if pendingFrames == [] {
        return None;
      }
      var frames := pendingFrames;
      pendingFrames := [];
      error := ForwardCaptureEvent(Bes.Frames(frames));
      if error.Some? {
        RespondNothing(Link(error), pendingResponses);
        return;
      }
      var responses := pendingResponses;
      pendingResponses := [];
      error := SendResponses(responses);
    }

    /** Flushes the batch and starts a new one. */
    method FlushBatch() returns (error: Option<Bes.BesError>)
      requires Valid()
      requires pendingFrames == [] ==> pendingResponses == []
      modifies this`handoffs, this`wire, this`client, this`pendingFrames, this`pendingResponses, this`pendingBatchBytes
      modifies receiver, receiver.pipeline, receiver.pipeline.decoder
      ensures Valid()
      ensures Link(error) == Bes.Flush(parse, old(Link(None)), old(View(None, false)).batch)
      ensures error.None? ==> pendingFrames == [] && pendingResponses == [] && pendingBatchBytes == 0
    {
      error := FlushCaptureBatch();
      if error.None? {
        pendingBatchBytes := 0;
      }
    }

    method JoinBatch(value: Bytes, frame: Bytes)
      requires Valid()
      modifies this`pendingBatchBytes, this`pendingFrames, this`pendingResponses, this`events, this`stats
      ensures Valid()
      ensures View(None, false) == Bes.Join(old(View(None, false)), expectedSequence, value, frame)
    {
      pendingBatchBytes := SatAdd(pendingBatchBytes, |frame|);
      pendingFrames := pendingFrames + [frame];
      pendingResponses := pendingResponses + [expectedSequence];
      events := events + [Some(value)];
      stats := Bes.Stats(SatAdd(stats.eventCount, 1), SatAdd(stats.bepBytes, |value|));
    }

    /** An event carrying BEP bytes. */
    method OnBazelEvent(typeUrl: string, value: Bytes) returns (error: Option<Bes.BesError>)
      requires Valid()
      requires pendingFrames == [] ==> pendingResponses == []
      modifies this, receiver, receiver.pipeline, receiver.pipeline.decoder
      ensures Valid()
      ensures
        var spec := old(Bes.OnBazelEvent(parse, View(None, false), expectedSequence, typeUrl, value));
        Link(error) == spec.link && (error.None? ==> View(None, false) == spec)
    {
      if !Bes.TypeUrlAllowed(typeUrl) {
        return Some(Bes.UnexpectedTypeUrl);
      }
      var framed := FrameBepPayload(value, stats);
      if framed.Err? {
        return Some(framed.error);
      }
      JoinBatch(value, framed.value);
      error := None;
      if |pendingFrames| >= Bes.CAPTURE_BATCH_MAX_EVENTS || pendingBatchBytes >= Bes.CAPTURE_BATCH_MAX_BYTES {
        error := FlushBatch();
      }
    }

    /** Flushes, hands over the end of the stream and acknowledges it. */
    method EndStream() returns (error: Option<Bes.BesError>)
      requires Valid()
      requires pendingFrames == [] ==> pendingResponses == []
      modifies this`handoffs, this`wire, this`client, this`pendingFrames, this`pendingResponses, this`pendingBatchBytes
      modifies receiver, receiver.pipeline, receiver.pipeline.decoder
      ensures Valid()
      ensures Link(error) == Bes.Respond(
        Bes.Forward(parse, Bes.Flush(parse, old(Link(None)), old(View(None, false)).batch), Bes.Finish),
        expectedSequence)
      ensures error.None? ==> pendingFrames == [] && pendingResponses == [] && pendingBatchBytes == 0
    {
      error := FlushBatch();
      if error.None? {
        error := ForwardCaptureEvent(Bes.Finish);
      }
      if error.None? {
        error := SendResponse(expectedSequence);
      }
    }

    /** Flushes and acknowledges a request that carried nothing to capture. */
    method Skip() returns (error: Option<Bes.BesError>)
      requires Valid()
      requires pendingFrames == [] ==> pendingResponses == []
      modifies this`handoffs, this`wire, this`client, this`pendingFrames, this`pendingResponses, this`pendingBatchBytes
      modifies receiver, receiver.pipeline, receiver.pipeline.decoder
      ensures Valid()
      ensures Link(error) ==
        Bes.Respond(Bes.Flush(parse, old(Link(None)), old(View(None, false)).batch), expectedSequence)
      ensures error.None? ==> pendingFrames == [] && pendingResponses == [] && pendingBatchBytes == 0
    {
      error := FlushBatch();
      if error.None? {
        error := SendResponse(expectedSequence);
      }
    }

    /** The end of the component stream. */
    method OnFinished(kind: int) returns (error: Option<Bes.BesError>)
      requires Valid()
      requires pendingFrames == [] ==> pendingResponses == []
      modifies this, receiver, receiver.pipeline, receiver.pipeline.decoder
      ensures Valid()
      ensures
        var spec := old(Bes.OnFinished(parse, View(None, false), expectedSequence, kind));
        Link(error) == spec.link && (error.None? ==> View(None, false) == spec)
    {
      if kind != 1 {
        return Some(Bes.UnsupportedFinish);
      }
      ghost var before := View(None, false);
      error := EndStream();
      ghost var ended := Link(error);
      FinishedAs(parse, before, ended, expectedSequence);
      events := events + [None];
      sawFinished := true;
      assert Link(error) == ended;
    }

    /** Any other event. */
    method OnOtherEvent() returns (error: Option<Bes.BesError>)
      requires Valid()
      requires pendingFrames == [] ==> pendingResponses == []
      modifies this, receiver, receiver.pipeline, receiver.pipeline.decoder
      ensures Valid()
      ensures
        var spec := old(Bes.OnOtherEvent(parse, View(None, false), expectedSequence));
        Link(error) == spec.link && (error.None? ==> View(None, false) == spec)
    {
      error := Skip();
      events := events + [None];
    }

    /** What the body of a request asks for. */
    method OnBody(body: Bes.Body) returns (error: Option<Bes.BesError>)
      requires Valid()
      requires pendingFrames == [] ==> pendingResponses == []
      modifies this, receiver, receiver.pipeline, receiver.pipeline.decoder
      ensures Valid()
      ensures
        var spec := old(Bes.OnBody(parse, View(None, false), body));
        Link(error) == spec.link && (error.None? ==> View(None, false) == spec)
    {
      match body {
        case BazelEvent(typeUrl, value) => error := OnBazelEvent(typeUrl, value);
        case ComponentStreamFinished(kind) => error := OnFinished(kind);
        case NoBody => error := OnOtherEvent();
      }
    }

    /** One request: the checks, then what its body asks for. */
    method OnRequest(request: Bes.Request) returns (error: Option<Bes.BesError>)
      requires Valid()
      requires pendingFrames == [] ==> pendingResponses == []
      modifies this, receiver, receiver.pipeline, receiver.pipeline.decoder
      ensures Valid()
      ensures
        var spec := old(Bes.OnRequest(parse, View(None, false), request));
        Link(error) == spec.link && (error.None? ==> View(None, false) == spec)
    {
      var refused := Bes.Screen(identity, expectedSequence, requestCount, sawFinished, request);
      if refused.Some? {
        return refused;
      }
      error := OnBody(request.value.event.value);
      if error.None? && expectedSequence == Bes.I64_MAX {
        return Some(Bes.SequenceOverflow);
      }
      expectedSequence, requestCount := expectedSequence + 1, requestCount + 1;
    }

    /** The end of the input. */
    method OnEnd() returns (error: Option<Bes.BesError>)
      requires Valid()
      requires pendingFrames == [] ==> pendingResponses == []
      modifies this, receiver, receiver.pipeline, receiver.pipeline.decoder
      ensures Valid()
      ensures
        var spec := old(Bes.OnEnd(parse, View(None, false)));
        Link(error) == spec.link && (error.None? ==> View(None, true) == spec)
    {
      error := FlushBatch();
      if error.None? && !sawFinished {
        error := Some(Bes.EndedWithoutFinish);
      }
    }

    /** One turn of the loop. */
    method Turn(input: Bes.Input) returns (error: Option<Bes.BesError>)
      requires Valid()
      requires pendingFrames == [] ==> pendingResponses == []
      modifies this, receiver, receiver.pipeline, receiver.pipeline.decoder
      ensures Valid()
      ensures
        var spec := old(Bes.Step(parse, View(None, false), input));
        Link(error) == spec.link && (error.None? ==> View(None, input.EndOfStream?) == spec)
    {
      error := None;
      match input {
        case Message(request) => error := OnRequest(request);
        case Idled =>
          if pendingFrames != [] {
            error := FlushBatch();
          }
        case ReceiveFailed => error := Some(Bes.ReceiveError);
        case EndOfStream => error := OnEnd();
      }
    }

    /** The loop of `capture_stream`. The result is missing while the stream has
        neither ended nor failed. */
    method Loop(inputs: seq<Bes.Input>) returns (result: Option<Result<Bes.Stats, Bes.BesError>>)
      requires Valid() && Live(View(None, false))
      modifies this, receiver, receiver.pipeline, receiver.pipeline.decoder
      ensures
        var end := Bes.Run(parse, old(View(None, false)), inputs);
        match result
        case None => Link(None) == end.link && !end.completed
        case Some(Ok(stats)) => Link(None) == end.link && end.completed && stats == end.stats
        case Some(Err(e)) => Link(Some(e)) == end.link
    {
      ghost var start := View(None, false);
      var i := 0;
      while i < |inputs|
        invariant i <= |inputs| && Valid() && Live(View(None, false))
        invariant Bes.Run(parse, View(None, false), inputs[i..]) == Bes.Run(parse, start, inputs)
      {
        StepKeeps(parse, View(None, false), inputs[i]);
        ghost var next := Bes.Step(parse, View(None, false), inputs[i]);
        assert inputs[i..][1..] == inputs[i + 1..];
        var error := Turn(inputs[i]);
        if error.Some? || inputs[i].EndOfStream? {
          StoppedStaysStopped(parse, next, inputs[i + 1..]);
          return Some(if error.Some? then Err(error.value) else Ok(stats));
        }
        i := i + 1;
      }
      return None;
    }
  }

  /** What `capture_stream` answers for the session it ended in. */
  ghost predicate Answers(result: Option<Result<Bes.Stats, Bes.BesError>>, end: Bes.Session) {
    match result
    case None => end.link.error.None? && !end.completed
    case Some(Ok(stats)) => end.link.error.None? && end.completed && stats == end.stats
    case Some(Err(e)) => end.link.error == Some(e)
  }

  /** `capture_stream`: the first request fixes the identity of the stream and is
      then the first of its inputs. */
  method RunCapture(
    parse: Parser, receiver: BesReceiver, handoffs: seq<Bes.Handoff>, client: seq<bool>,
    first: Bes.Request, inputs: seq<Bes.Input>) returns (result: Option<Result<Bes.Stats, Bes.BesError>>)
    requires receiver.Valid() && receiver.pipeline.parse == parse
    requires inputs != [] && inputs[0] == Bes.Message(first)
    requires Opened(Bes.Open(first, Bes.Link(receiver.View(), handoffs, client, [], None)))
    modifies receiver, receiver.pipeline, receiver.pipeline.decoder
    ensures Answers(result,
      old(Bes.Run(parse, Bes.Open(first, Bes.Link(receiver.View(), handoffs, client, [], None)), inputs)))
  {
    ghost var start := Bes.Open(first, Bes.Link(receiver.View(), handoffs, client, [], None));
    OpenedIsLive(start);
    if start.link.error.Some? {
      StoppedStaysStopped(parse, start, inputs);
    }
    if first.None? {
      return Some(Err(Bes.MissingOrderedEvent));
    }
    if first.value.streamId.None? {
      return Some(Err(Bes.MissingStreamId));
    }
    var id := first.value.streamId.value;
    if |id.buildId| > Bes.MAX_STREAM_ID_FIELD_BYTES || |id.invocationId| > Bes.MAX_STREAM_ID_FIELD_BYTES {
      return Some(Err(Bes.StreamIdTooLong));
    }
    var session := new CaptureSession(parse, id, receiver, handoffs, client);
    result := session.Loop(inputs);
  }
}
