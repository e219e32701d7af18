/** The loopback Build Event Service: `capture_stream` as a state machine.

    A session is what the loop keeps in its variables together with its link: the
    receiver at the other end of the capture channel, which is the appending
    pipeline of `read_bes_bep`, and scripts for the channel and for the client.
    Handing an event over waits for its acknowledgement, so a hand-over is one
    step. `wire` records, in order, what the receiver accepted and what was
    acknowledged to Bazel. */
module Bes {
  import opened Base
  import opened Framing
  import opened FrameCodec
  import opened Capture

  const MAX_STREAM_ID_FIELD_BYTES: nat := 128
  const MAX_TYPE_URL_BYTES: nat := 256
  const BAZEL_EVENT_TYPE_SUFFIX := "/build_event_stream.BuildEvent"
  const CAPTURE_BATCH_MAX_EVENTS: nat := 64
  const CAPTURE_BATCH_MAX_BYTES: nat := 1024 * 1024
  const I64_MAX: int := 0x7FFF_FFFF_FFFF_FFFF

  datatype StreamId = StreamId(buildId: string, invocationId: string, component: int)

  datatype Body =
    | BazelEvent(typeUrl: string, value: Bytes)
    | ComponentStreamFinished(kind: int)
    | NoBody

  datatype OrderedEvent = OrderedEvent(streamId: Option<StreamId>, sequence: int, event: Option<Body>)

  type Request = Option<OrderedEvent>

  /** What the loop waits for. `Idled` is the scheduler giving up on more input. */
  datatype Input = Message(request: Request) | Idled | EndOfStream | ReceiveFailed

  datatype Stats = Stats(eventCount: nat, bepBytes: nat)

  datatype BesError =
    | MissingOrderedEvent | MissingStreamId | StreamIdTooLong | StreamIdChanged
    | TooManyRequests | OutOfSequence | SequenceOverflow | MissingEvent | AfterFinished
    | UnexpectedTypeUrl | UnsupportedFinish
    | FrameTooLarge | StreamBytesExceeded | EventCountExceeded
    | ReceiverClosed | AcknowledgementClosed | ReceiverRejected | ClientStopped
    | ReceiveError | EndedWithoutFinish

  /** How a hand-over to the receiver goes: it is processed and answered, the
      channel is already closed, or the answer is lost. */
  datatype Handoff = Answered | ChannelClosed | AnswerLost

  datatype Delivery = Frames(frames: seq<Bytes>) | Finish

  /** The receiver: its pipeline, and whether it still listens. */
  datatype Receiver = Receiver(st: State<Pipe>, open: bool)

  datatype Wire = Accepted(frames: seq<Bytes>) | FinishAccepted | Acknowledged(sequence: int)

  /** What lies around the loop: the receiver, how coming hand-overs and
      acknowledgements turn out, and what has gone over the wire. An error ends
      the RPC: once there is one, nothing more happens. */
  datatype Link = Link(
    receiver: Receiver,
    handoffs: seq<Handoff>,
    client: seq<bool>,
    wire: seq<Wire>,
    error: Option<BesError>)

  /** Frames waiting to be handed over, the sequence numbers to acknowledge once
      they are, and their size. */
  datatype Batch = Batch(frames: seq<Bytes>, responses: seq<int>, bytes: nat)

  const EMPTY := Batch([], [], 0)

  /** What the loop keeps. `events` is what each request so far has carried. */
  datatype Session = Session(
    identity: StreamId,
    expected: int,
    requestCount: nat,
    stats: Stats,
    sawFinished: bool,
    batch: Batch,
    events: seq<Option<Bytes>>,
    completed: bool,
    link: Link)
  {
    predicate Running() {
      link.error.None? && !completed
    }

    function Fail(e: BesError): Session {
      this.(link := link.(error := Some(e)))
    }
  }

  /** `read_bes_bep` on one event: every frame through the pipeline until one is
      refused, or the end of the pipeline. After an error, and after the end, it
      stops listening. */
  function Handle(parse: Parser, r: Receiver, d: Delivery): (Receiver, bool) {
    match d
    case Frames(frames) =>
      var st := IngestedAll(parse, DEFAULT_LIMITS, r.st, frames);
      (Receiver(st, st.seen.core.error.None?), st.seen.core.error.None?)
    case Finish =>
      (Receiver(Closed(r.st), false), Close(r.st).error.None?)
  }

  /** `forward_capture_event`: send, then wait for the acknowledgement. */
  function Forward(parse: Parser, link: Link, d: Delivery): Link {
    if link.error.Some? then link else
    var answer := if link.handoffs == [] then Answered else link.handoffs[0];
    var handoffs := if link.handoffs == [] then [] else link.handoffs[1..];
    if answer.ChannelClosed? || !link.receiver.open then
      link.(handoffs := handoffs, error := Some(ReceiverClosed))
    else
      var (receiver, ok) := Handle(parse, link.receiver, d);
      if answer.AnswerLost? then
        link.(handoffs := handoffs, receiver := receiver, error := Some(AcknowledgementClosed))
      else if !ok then
        link.(handoffs := handoffs, receiver := receiver, error := Some(ReceiverRejected))
      else
        var accepted := if d.Frames? then Accepted(d.frames) else FinishAccepted;
        link.(handoffs := handoffs, receiver := receiver, wire := link.wire + [accepted])
  }

  /** One acknowledgement to Bazel. */
  function Respond(link: Link, sequence: int): Link {
    if link.error.Some? then link else
    var client := if link.client == [] then [] else link.client[1..];
    if link.client == [] || link.client[0]
    then link.(client := client, wire := link.wire + [Acknowledged(sequence)])
    else link.(client := client, error := Some(ClientStopped))
  }

  function RespondAll(link: Link, sequences: seq<int>): Link
    decreases |sequences|
  {
    if sequences == [] then link else RespondAll(Respond(link, sequences[0]), sequences[1..])
  }

  /** `flush_capture_batch`: the frames first, their acknowledgements after. */
  function Flush(parse: Parser, link: Link, batch: Batch): Link {
    if batch.frames == [] then link
    else RespondAll(Forward(parse, link, Frames(batch.frames)), batch.responses)
  }

  /** `frame_bep_payload`: the frame, if the payload is within what is left. */
  function FramePayload(payload: Bytes, stats: Stats): Result<Bytes, BesError> {
    if |payload| > DEFAULT_LIMITS.maxFrame then Err(FrameTooLarge)
    else if SatAdd(stats.bepBytes, |payload|) > DEFAULT_LIMITS.maxStream then Err(StreamBytesExceeded)
    else if stats.eventCount >= DEFAULT_LIMITS.maxEvents then Err(EventCountExceeded)
    else Ok(EncodeFrame(payload))
  }

  predicate EndsWith(s: string, suffix: string) {
    |suffix| <= |s| && s[|s| - |suffix|..] == suffix
  }

  predicate TypeUrlAllowed(url: string) {
    |url| <= MAX_TYPE_URL_BYTES && (url == "" || EndsWith(url, BAZEL_EVENT_TYPE_SUFFIX))
  }

  /** An admitted event joins the batch. */
  function Join(s: Session, sequence: int, value: Bytes, framed: Bytes): Session {
    s.(batch := Batch(s.batch.frames + [framed], s.batch.responses + [sequence], SatAdd(s.batch.bytes, |framed|)),
       events := s.events + [Some(value)],
       stats := Stats(SatAdd(s.stats.eventCount, 1), SatAdd(s.stats.bepBytes, |value|)))
  }

  predicate BatchFull(batch: Batch) {
    |batch.frames| >= CAPTURE_BATCH_MAX_EVENTS || batch.bytes >= CAPTURE_BATCH_MAX_BYTES
  }

  function FlushSession(parse: Parser, s: Session): Session {
    s.(link := Flush(parse, s.link, s.batch), batch := EMPTY)
  }

  function OnBazelEvent(parse: Parser, s: Session, sequence: int, typeUrl: string, value: Bytes): Session {
    if !TypeUrlAllowed(typeUrl) then s.Fail(UnexpectedTypeUrl) else
    match FramePayload(value, s.stats)
    case Err(e) => s.Fail(e)
    case Ok(framed) =>
      var joined := Join(s, sequence, value, framed);
      if BatchFull(joined.batch) then FlushSession(parse, joined) else joined
  }

  /** The end of the component stream: flush, hand over the end, acknowledge. */
  function OnFinished(parse: Parser, s: Session, sequence: int, kind: int): Session {
    if kind != 1 then s.Fail(UnsupportedFinish) else
    s.(link := Respond(Forward(parse, Flush(parse, s.link, s.batch), Finish), sequence),
       batch := EMPTY, events := s.events + [None], sawFinished := true)
  }

  /** Any other event carries nothing to capture. */
  function OnOtherEvent(parse: Parser, s: Session, sequence: int): Session {
    s.(link := Respond(Flush(parse, s.link, s.batch), sequence),
       batch := EMPTY, events := s.events + [None])
  }

  /** The checks every request passes before its body is looked at. */
  function Screen(id: StreamId, expected: int, count: nat, finished: bool, request: Request): Option<BesError> {
    if request.None? then Some(MissingOrderedEvent)
    else if count >= DEFAULT_LIMITS.maxEvents + 1 then Some(TooManyRequests)
    else if request.value.streamId.None? then Some(MissingStreamId)
    else if request.value.streamId.value != id then Some(StreamIdChanged)
    else if request.value.sequence != expected then Some(OutOfSequence)
    else if request.value.event.None? then Some(MissingEvent)
    else if finished then Some(AfterFinished)
    else None
  }

  function OnBody(parse: Parser, s: Session, body: Body): Session {
    match body
    case BazelEvent(typeUrl, value) => OnBazelEvent(parse, s, s.expected, typeUrl, value)
    case ComponentStreamFinished(kind) => OnFinished(parse, s, s.expected, kind)
    case NoBody => OnOtherEvent(parse, s, s.expected)
  }

  /** A session after one more request. */
  function Counted(s: Session): Session {
    s.(expected := s.expected + 1, requestCount := s.requestCount + 1)
  }

  function OnRequest(parse: Parser, s: Session, request: Request): Session {
    var refused := Screen(s.identity, s.expected, s.requestCount, s.sawFinished, request);
    if refused.Some? then s.Fail(refused.value) else
    var s' := OnBody(parse, s, request.value.event.value);
    if s'.link.error.None? && s'.expected == I64_MAX then s'.Fail(SequenceOverflow)
    else Counted(s')
  }

  /** The end of the input: flush, and insist on having seen the finish. */
  function OnEnd(parse: Parser, s: Session): Session {
    var flushed := FlushSession(parse, s);
    if flushed.link.error.Some? then flushed
    else if !flushed.sawFinished then flushed.Fail(EndedWithoutFinish)
    else flushed.(completed := true)
  }

  /** One turn of the loop. */
  function Step(parse: Parser, s: Session, input: Input): Session {
    if !s.Running() then s else
    match input
    case Message(request) => OnRequest(parse, s, request)
    case Idled => if s.batch.frames == [] then s else FlushSession(parse, s)
    case ReceiveFailed => s.Fail(ReceiveError)
    case EndOfStream => OnEnd(parse, s)
  }

  /** `capture_stream` from the session that its first request opens: that
      request, then whatever the stream brings. */
  function Run(parse: Parser, s: Session, inputs: seq<Input>): Session
    decreases |inputs|
  {
    if inputs == [] then s else Run(parse, Step(parse, s, inputs[0]), inputs[1..])
  }

  /** The session that a first request opens; its identity holds for the RPC. */
  function Open(first: Request, link: Link): Session {
    var s := Session(StreamId("", "", 0), 1, 0, Stats(0, 0), false, EMPTY, [], false, link);
    if first.None? then s.Fail(MissingOrderedEvent)
    else if first.value.streamId.None? then s.Fail(MissingStreamId)
    else
      var id := first.value.streamId.value;
      if |id.buildId| > MAX_STREAM_ID_FIELD_BYTES || |id.invocationId| > MAX_STREAM_ID_FIELD_BYTES
      then s.Fail(StreamIdTooLong)
      else s.(identity := id)
  }
}
