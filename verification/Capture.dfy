/** The capture pipeline: bytes go through the decoder, each exact frame through
    the durable writer, and only then to the reduction subscriber. An attempt
    that ends with exit code 39 (remote cache evicted) is set aside, and the next
    `Started` frame restarts the evidence.

    Payload parsing is the parameter `parse`; the accumulator behind a subscriber
    is the list of payloads it has observed, of which any accumulator is a
    function. `log` records the effects of the pipeline in program order. */
module Capture {
  import opened Base
  import opened Framing
  import opened Writer

  datatype Kind = Started | Finished(exitCode: Option<int>) | OtherEvent

  type Parser = Bytes -> Option<Kind>

  const DEFAULT_LIMITS := Limits(64 * 1024 * 1024, 128 * 1024 * 1024, 1_000_000)

  predicate IsStarted(parse: Parser, payload: Bytes) {
    parse(payload) == Some(Started)
  }

  predicate IsEvicted(parse: Parser, payload: Bytes) {
    parse(payload) == Some(Finished(Some(39)))
  }

  datatype Subscriber = Subscriber(observed: seq<Bytes>, decodedBytes: nat, eventCount: nat) {
    function Observe(payload: Bytes): Subscriber {
      Subscriber(observed + [payload], SatAdd(decodedBytes, |payload|), SatAdd(eventCount, 1))
    }

    function Outcome(): StreamOutcome {
      StreamOutcome(eventCount, decodedBytes, None)
    }
  }

  const FRESH := Subscriber([], 0, 0)

  datatype PipelineError = ExceedsRetainedBytes | DiffersFromRetainedBytes | IoFailed

  datatype Effect =
    | Committed(raw: Bytes)
    | CommitFailed(raw: Bytes)
    | RetryBegun
    | RetryFailed
    | Observed(payload: Bytes, framed: Bytes)
    | AttemptSaved

  /** Everything the visitor closure mutates except the raw buffer. */
  datatype Core = Core(
    durable: DurableWriter,
    reduction: Subscriber,
    saved: Option<Subscriber>,
    expectingRetry: bool,
    log: seq<Effect>,
    error: Option<PipelineError>)
  {
    function Commit(raw: Bytes): Core {
      var (written, ok) := durable.Commit(raw);
      if ok then this.(durable := written, log := log + [Committed(raw)])
      else this.(durable := written, log := log + [CommitFailed(raw)], error := Some(IoFailed))
    }

    function BeginRetry(): Core {
      var (emptied, ok) := durable.BeginRetry();
      if ok then this.(durable := emptied, saved := None, expectingRetry := false, log := log + [RetryBegun])
      else this.(durable := emptied, log := log + [RetryFailed], error := Some(IoFailed))
    }

    function Observe(payload: Bytes, framed: Bytes): Core {
      this.(reduction := reduction.Observe(payload), log := log + [Observed(payload, framed)])
    }

    function SaveAttempt(): Core {
      this.(saved := Some(reduction), reduction := FRESH, expectingRetry := true, log := log + [AttemptSaved])
    }

    /** Make a frame durable and only then observe it. */
    function Record(parse: Parser, payload: Bytes, framed: Bytes): Core {
      if error.Some? then this else
      var committed := Commit(framed);
      if committed.error.Some? then committed else
      var observed := committed.Observe(payload, framed);
      if IsEvicted(parse, payload) then observed.SaveAttempt() else observed
    }

    /** One frame: restart the evidence if a retry begins, then record the frame.
        Nothing happens after an error. */
    function Absorb(parse: Parser, payload: Bytes, framed: Bytes): Core {
      if error.Some? then this
      else if expectingRetry && IsStarted(parse, payload) then BeginRetry().Record(parse, payload, framed)
      else Record(parse, payload, framed)
    }
  }

  /** The visitor's state: the core and the bytes received but not committed. */
  datatype Pipe = Pipe(core: Core, raw: Bytes)

  function OnFrame(parse: Parser, p: Pipe, payload: Bytes, framed: Bytes): (Pipe, Control) {
    if p.core.error.Some? then
      (p, Continue)
    else if |p.raw| < |framed| then
      (p.(core := p.core.(error := Some(ExceedsRetainedBytes))), Continue)
    else if p.raw[..|framed|] != framed then
      (p.(core := p.core.(error := Some(DiffersFromRetainedBytes))), Continue)
    else
      var core := p.core.Absorb(parse, payload, p.raw[..|framed|]);
      if core.error.Some? then (p.(core := core), Continue)
      else (Pipe(core, p.raw[|framed|..]), if IsEvicted(parse, payload) then ResetAfterFrame else Continue)
  }

  function PipeHooks(parse: Parser): Hooks<Pipe> {
    Hooks((payload: Bytes) => parse(payload).Some?,
          (p: Pipe, payload: Bytes, framed: Bytes) => OnFrame(parse, p, payload, framed))
  }

  /** Commits whatever raw bytes are held, and keeps them if that fails. */
  function CommitHeld(p: Pipe): Pipe {
    if p.raw == [] then p else
    var core := p.core.Commit(p.raw);
    if core.error.Some? then p.(core := core) else Pipe(core, [])
  }

  /** `CapturePipeline::ingest`; the error, if any, is in the core. */
  function Ingested(parse: Parser, lim: Limits, st: State<Pipe>, input: Bytes): State<Pipe> {
    if input == [] then
      st
    else if st.terminal.Some? then
      st.(seen := st.seen.(core := st.seen.core.Commit(input)))
    else
      var pushed := Push(lim, PipeHooks(parse), st.(seen := st.seen.(raw := st.seen.raw + input)), input);
      if pushed.seen.core.error.Some? || pushed.terminal.None? then pushed
      else pushed.(seen := CommitHeld(pushed.seen))
  }

  /** A source hands over its chunks until one of them is refused. */
  function IngestedAll(parse: Parser, lim: Limits, st: State<Pipe>, chunks: seq<Bytes>): State<Pipe>
    decreases |chunks|
  {
    if chunks == [] || st.seen.core.error.Some? then st
    else IngestedAll(parse, lim, Ingested(parse, lim, st, chunks[0]), chunks[1..])
  }

  datatype Output = Output(
    observed: seq<Bytes>,
    outcome: StreamOutcome,
    durableBytes: nat,
    hashed: Bytes)

  /** The held bytes committed and flushed: the last effects of a pipeline. */
  function Close(st: State<Pipe>): Core {
    var core := CommitHeld(st.seen).core;
    if core.error.Some? then core else
    var (flushed, ok) := core.durable.Flush();
    if ok then core.(durable := flushed) else core.(durable := flushed, error := Some(IoFailed))
  }

  /** A pipeline after its last effects. */
  function Closed(st: State<Pipe>): State<Pipe> {
    st.(seen := Pipe(Close(st), CommitHeld(st.seen).raw))
  }

  /** The attempt a finished pipeline reports: the one set aside when no event
      followed it, otherwise the current one with the decoder's outcome. */
  function Report(st: State<Pipe>, core: Core): (Subscriber, StreamOutcome) {
    if core.expectingRetry && core.reduction.eventCount == 0 then
      var attempt := if core.saved.Some? then core.saved.value else core.reduction;
      (attempt, attempt.Outcome())
    else
      (core.reduction, Outcome(st))
  }

  /** `CapturePipeline::finish`. */
  function Conclude(st: State<Pipe>): Result<Output, PipelineError> {
    var core := Close(st);
    match core.error
    case Some(e) => Err(e)
    case None =>
      var (attempt, outcome) := Report(st, core);
      Ok(Output(attempt.observed, outcome, core.durable.bytes, core.durable.hashed))
  }

  function Start(durable: DurableWriter): State<Pipe> {
    Initial(Pipe(Core(durable, FRESH, None, false, [], None), []))
  }

  class CapturePipeline {
    const decoder: IncrementalStreamDecoder
    const parse: Parser
    var durable: DurableWriter
    var reduction: Subscriber
    var savedAttempt: Option<Subscriber>
    var expectingRetry: bool
    var pendingRaw: Bytes
    var log: seq<Effect>

    ghost predicate Valid()
      reads this, decoder
    {
      decoder.Valid()
    }

    ghost function View(error: Option<PipelineError>): State<Pipe>
      reads this, decoder
    {
      decoder.View(Pipe(Core(durable, reduction, savedAttempt, expectingRetry, log, error), pendingRaw))
    }

    constructor (parse: Parser, limits: Limits, durable: DurableWriter)
      ensures Valid() && fresh(decoder)
      ensures this.parse == parse && decoder.limits == limits
      ensures View(None) == Start(durable)
    {
      decoder := new IncrementalStreamDecoder(limits);
      this.parse := parse;
      this.durable := durable;
      reduction, savedAttempt, expectingRetry, pendingRaw, log := FRESH, None, false, [], [];
    }

    /** Writes the visitor's state back into the fields it borrowed. */
    method Restore(p: Pipe)
      modifies this
      ensures durable == p.core.durable && reduction == p.core.reduction
      ensures savedAttempt == p.core.saved && expectingRetry == p.core.expectingRetry
      ensures log == p.core.log && pendingRaw == p.raw
    {
      durable, reduction := p.core.durable, p.core.reduction;
      savedAttempt, expectingRetry := p.core.saved, p.core.expectingRetry;
      log, pendingRaw := p.core.log, p.raw;
    }

    method Commit(raw: Bytes) returns (error: Option<PipelineError>)
      modifies this`durable, this`log
      ensures var core := old(View(None)).seen.core.Commit(raw);
        durable == core.durable && log == core.log && error == core.error
    {
      var (written, ok) := durable.Commit(raw);
      durable := written;
      log := log + [if ok then Committed(raw) else CommitFailed(raw)];
      error := if ok then None else Some(IoFailed);
    }

    method Ingest(input: Bytes) returns (error: Option<PipelineError>)
      requires Valid()
      modifies this, decoder
      ensures Valid()
      ensures View(error) == Ingested(parse, decoder.limits, old(View(None)), input)
      ensures error == View(error).seen.core.error
    {
      if input == [] {
        return None;
      }
      if decoder.terminalError.Some? {
        error := Commit(input);
        return;
      }
      pendingRaw := pendingRaw + input;
      var before := Pipe(Core(durable, reduction, savedAttempt, expectingRetry, log, None), pendingRaw);
      var p := decoder.PushFrames(PipeHooks(parse), input, before);
      Restore(p);
      error := p.core.error;
      if error.None? && decoder.terminalError.Some? && pendingRaw != [] {
        error := Commit(pendingRaw);
        if error.None? {
          pendingRaw := [];
        }
      }
    }

    method Finish() returns (r: Result<Output, PipelineError>)
      requires Valid()
      modifies this
      ensures Valid()
      ensures r == Conclude(old(View(None)))
      ensures View(Close(old(View(None))).error) == old(Closed(View(None)))
    {
      if pendingRaw != [] {
        var error := Commit(pendingRaw);
        if error.Some? {
          return Err(error.value);
        }
        pendingRaw := [];
      }
      var (flushed, ok) := durable.Flush();
      durable := flushed;
      if !ok {
        return Err(IoFailed);
      }
      var decoderOutcome := decoder.Finish();
      if expectingRetry && reduction.eventCount == 0 {
        var attempt := if savedAttempt.Some? then savedAttempt.value else reduction;
        return Ok(Output(attempt.observed, attempt.Outcome(), durable.bytes, durable.hashed));
      }
      return Ok(Output(reduction.observed, decoderOutcome, durable.bytes, durable.hashed));
    }
  }
}
