/** Durable before reduced: over every run, whatever the chunks and wherever a
    system call fails, an event is observed only directly after the exact bytes of
    its frame were committed, and nothing at all happens after a failure. */
module Durability {
  import opened Base
  import opened Framing
  import opened Writer
  import opened Capture
  import opened Runs

  predicate Failed(e: Effect) {
    e.CommitFailed? || e.RetryFailed?
  }

  /** Every observation directly follows the commit of the same frame. */
  predicate CommitsFirst(log: seq<Effect>) {
    forall k :: 0 <= k < |log| && log[k].Observed? ==> 0 < k && log[k - 1] == Committed(log[k].framed)
  }

  /** No effect follows a failed one. */
  predicate StopsAtFailure(log: seq<Effect>) {
    forall k :: 0 <= k < |log| - 1 ==> !Failed(log[k])
  }

  predicate EndsInFailure(log: seq<Effect>) {
    log != [] && Failed(log[|log| - 1])
  }

  function ObservedStep(before: seq<Bytes>, e: Effect): seq<Bytes> {
    match e
    case Observed(payload, _) => before + [payload]
    case AttemptSaved => []
    case _ => before
  }

  /** The payloads observed since an attempt was last set aside. */
  function ObservedSince(log: seq<Effect>): seq<Bytes> {
    if log == [] then [] else ObservedStep(ObservedSince(log[..|log| - 1]), log[|log| - 1])
  }

  function CommittedStep(before: Bytes, e: Effect, appends: bool): Bytes {
    match e
    case Committed(raw) => before + raw
    case RetryBegun => if appends then [] else before
    case _ => before
  }

  /** The bytes committed, for a writer that appends only since the last retry. */
  function CommittedSince(log: seq<Effect>, appends: bool): Bytes {
    if log == [] then [] else CommittedStep(CommittedSince(log[..|log| - 1], appends), log[|log| - 1], appends)
  }

  /** The log is in order and accounts for what was observed and made durable;
      a write that failed left everything committed before it in place. */
  predicate Sound(c: Core) {
    var committed := CommittedSince(c.log, c.durable.Append?);
    && CommitsFirst(c.log)
    && StopsAtFailure(c.log)
    && (c.error == Some(IoFailed) <==> EndsInFailure(c.log))
    && c.reduction.observed == ObservedSince(c.log)
    && c.durable.hashed == committed
    && (!EndsInFailure(c.log) ==> c.durable.Consistent())
    && (EndsInFailure(c.log) && c.log[|c.log| - 1].CommitFailed? && c.durable.Append? ==>
          committed <= c.durable.file.data)
  }

  lemma {:induction false} LogSnoc(log: seq<Effect>, e: Effect, appends: bool)
    requires CommitsFirst(log) && StopsAtFailure(log) && !EndsInFailure(log)
    requires e.Observed? ==> log != [] && log[|log| - 1] == Committed(e.framed)
    ensures CommitsFirst(log + [e]) && StopsAtFailure(log + [e])
    ensures EndsInFailure(log + [e]) == Failed(e)
    ensures ObservedSince(log + [e]) == ObservedStep(ObservedSince(log), e)
    ensures CommittedSince(log + [e], appends) == CommittedStep(CommittedSince(log, appends), e, appends)
  {
    assert (log + [e])[..|log|] == log;
  }

  lemma CommitSound(c: Core, raw: Bytes)
    requires Sound(c) && c.error.None?
    ensures Sound(c.Commit(raw))
    ensures c.Commit(raw).error in {None, Some(IoFailed)}
    ensures c.Commit(raw).error.None? ==>
      c.Commit(raw).log == c.log + [Committed(raw)] && c.Commit(raw).reduction == c.reduction
  {
    var appends := c.durable.Append?;
    CommitAppends(c.durable, raw);
    LogSnoc(c.log, Committed(raw), appends);
    LogSnoc(c.log, CommitFailed(raw), appends);
  }

  lemma BeginRetrySound(c: Core)
    requires Sound(c) && c.error.None?
    ensures Sound(c.BeginRetry())
  {
    var appends := c.durable.Append?;
    if c.BeginRetry().error.None? {
      LogSnoc(c.log, RetryBegun, appends);
    } else {
      LogSnoc(c.log, RetryFailed, appends);
    }
  }

  lemma ObserveSound(c: Core, payload: Bytes, framed: Bytes)
    requires Sound(c) && c.error.None?
    requires c.log != [] && c.log[|c.log| - 1] == Committed(framed)
    ensures Sound(c.Observe(payload, framed))
    ensures Sound(c.Observe(payload, framed).SaveAttempt())
  {
    var appends := c.durable.Append?;
    LogSnoc(c.log, Observed(payload, framed), appends);
    LogSnoc(c.log + [Observed(payload, framed)], AttemptSaved, appends);
  }

  lemma RecordSound(parse: Parser, c: Core, payload: Bytes, framed: Bytes)
    requires Sound(c)
    ensures Sound(c.Record(parse, payload, framed))
  {
    if c.error.None? {
      CommitSound(c, framed);
      if c.Commit(framed).error.None? {
        ObserveSound(c.Commit(framed), payload, framed);
      }
    }
  }

  lemma AbsorbSound(parse: Parser, c: Core, payload: Bytes, framed: Bytes)
    requires Sound(c)
    ensures Sound(c.Absorb(parse, payload, framed))
  {
    if c.error.None? {
      BeginRetrySound(c);
      RecordSound(parse, c, payload, framed);
      RecordSound(parse, c.BeginRetry(), payload, framed);
    }
  }

  lemma FrameSound(parse: Parser, lim: Limits, st: State<Pipe>, payload: Bytes, framed: Bytes)
    requires Sound(st.seen.core)
    ensures Sound(Visit(lim, PipeHooks(parse), st, payload, framed).seen.core)
  {
    if |framed| <= |st.seen.raw| {
      AbsorbSound(parse, st.seen.core, payload, st.seen.raw[..|framed|]);
    }
  }

  lemma {:induction false} DrainSound(parse: Parser, lim: Limits, st: State<Pipe>, s: Bytes)
    requires Sound(st.seen.core)
    ensures Sound(Drain(lim, PipeHooks(parse), st, s).seen.core)
    decreases |s|
  {
    match Inspect(s, lim.maxFrame) {
      case Ok(Complete(prefix, length)) =>
        var total := SatAdd(prefix, length);
        FrameSound(parse, lim, st.(pending := []), s[prefix..total], s[..total]);
        var next := Visit(lim, PipeHooks(parse), st.(pending := []), s[prefix..total], s[..total]);
        if next.terminal.None? {
          DrainSound(parse, lim, next, s[total..]);
        }
      case _ =>
    }
  }

  lemma IngestSound(parse: Parser, lim: Limits, st: State<Pipe>, input: Bytes)
    requires Sound(st.seen.core) && st.seen.core.error.None?
    ensures Sound(Ingested(parse, lim, st, input).seen.core)
  {
    if st.terminal.Some? {
      CommitSound(st.seen.core, input);
    } else {
      var fed := st.(seen := st.seen.(raw := st.seen.raw + input));
      DrainSound(parse, lim, fed, fed.pending + input);
      var pushed := Push(lim, PipeHooks(parse), fed, input);
      if pushed.seen.core.error.None? {
        CommitSound(pushed.seen.core, pushed.seen.raw);
      }
    }
  }

  /** Every run: at each point a pipeline can be in, its log is sound. */
  lemma {:induction false} RunsAreSound(parse: Parser, lim: Limits, st: State<Pipe>, chunks: seq<Bytes>)
    requires Sound(st.seen.core)
    ensures Sound(IngestedAll(parse, lim, st, chunks).seen.core)
    decreases |chunks|
  {
    if chunks != [] && st.seen.core.error.None? {
      IngestSound(parse, lim, st, chunks[0]);
      RunsAreSound(parse, lim, Ingested(parse, lim, st, chunks[0]), chunks[1..]);
    }
  }

  /** Durable before reduced, for every run of a new pipeline: each observed frame
      was committed immediately before, no effect follows a failed one, and the
      log accounts for everything observed and everything made durable. */
  lemma {:induction false} DurableBeforeReduced(parse: Parser, lim: Limits, w: DurableWriter, chunks: seq<Bytes>)
    requires FreshWriter(w)
    ensures Sound(IngestedAll(parse, lim, Start(w), chunks).seen.core)
  {
    RunsAreSound(parse, lim, Start(w), chunks);
  }
}
