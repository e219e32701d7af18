/** Acknowledgement safety of the Build Event Service, over every run: whatever
    the client sends, whenever the batch is flushed, and wherever the channel, the
    client or the evidence file fails. */
module BesSafety {
  import opened Base
  import opened Framing
  import opened FrameCodec
  import opened Writer
  import opened Capture
  import opened Trace
  import opened Runs
  import opened Durability
  import opened Bes

  // -------------------------------------------------- whole frames, one by one

  function Framed(payloads: seq<Bytes>): (frames: seq<Bytes>)
    ensures |frames| == |payloads|
  {
    if payloads == [] then [] else [EncodeFrame(payloads[0])] + Framed(payloads[1..])
  }

  /** Everything ever committed, retries or not. */
  function Committed(st: State<Pipe>): Bytes {
    CommittedSince(st.seen.core.log, false)
  }

  /** A pipeline between whole frames: no error, and nothing held back. */
  predicate Idle(st: State<Pipe>) {
    st.seen.core.error.None? && st.seen.raw == [] && st.pending == []
  }

  /** No framing or limit error, only possibly an undecodable event. */
  predicate Clean<V>(st: State<V>) {
    st.terminal in {None, Some(DecodeFailed)}
  }

  lemma {:induction false} CommittedSnoc(log: seq<Effect>, e: Effect)
    ensures CommittedSince(log + [e], false) == CommittedStep(CommittedSince(log, false), e, false)
  {
    assert (log + [e])[..|log|] == log;
  }

  lemma CommitCommits(c: Core, raw: Bytes)
    requires c.error.None?
    ensures
      var c' := c.Commit(raw);
      CommittedSince(c'.log, false) ==
        if c'.error.None? then CommittedSince(c.log, false) + raw else CommittedSince(c.log, false)
  {
    CommittedSnoc(c.log, Capture.Committed(raw));
    CommittedSnoc(c.log, CommitFailed(raw));
  }

  lemma OthersCommitNothing(c: Core, payload: Bytes, framed: Bytes)
    ensures CommittedSince(c.BeginRetry().log, false) == CommittedSince(c.log, false)
    ensures CommittedSince(c.Observe(payload, framed).log, false) == CommittedSince(c.log, false)
    ensures CommittedSince(c.SaveAttempt().log, false) == CommittedSince(c.log, false)
  {
    CommittedSnoc(c.log, RetryBegun);
    CommittedSnoc(c.log, RetryFailed);
    CommittedSnoc(c.log, Observed(payload, framed));
    CommittedSnoc(c.log, AttemptSaved);
  }

  /** The log after a frame was recorded. */
  function RecordedLog(log: seq<Effect>, payload: Bytes, framed: Bytes, evicted: bool): seq<Effect> {
    var observed := log + [Capture.Committed(framed)] + [Observed(payload, framed)];
    if evicted then observed + [AttemptSaved] else observed
  }

  lemma RecordLogs(parse: Parser, c: Core, payload: Bytes, framed: Bytes)
    requires c.error.None?
    ensures
      var c' := c.Record(parse, payload, framed);
      c'.log == if c'.error.None? then RecordedLog(c.log, payload, framed, IsEvicted(parse, payload))
                else c.log + [CommitFailed(framed)]
  {
    var committed := c.Commit(framed);
    if committed.error.None? {
      assert committed.log == c.log + [Capture.Committed(framed)];
    }
  }

  lemma {:induction false} RecordedCommits(log: seq<Effect>, payload: Bytes, framed: Bytes, evicted: bool)
    ensures CommittedSince(RecordedLog(log, payload, framed, evicted), false) == CommittedSince(log, false) + framed
  {
    var committed := log + [Capture.Committed(framed)];
    var observed := committed + [Observed(payload, framed)];
    CommittedSnoc(log, Capture.Committed(framed));
    CommittedSnoc(committed, Observed(payload, framed));
    CommittedSnoc(observed, AttemptSaved);
  }

  lemma RecordCommits(parse: Parser, c: Core, payload: Bytes, framed: Bytes)
    requires c.error.None?
    ensures
      var c' := c.Record(parse, payload, framed);
      CommittedSince(c'.log, false) ==
        if c'.error.None? then CommittedSince(c.log, false) + framed else CommittedSince(c.log, false)
  {
    RecordLogs(parse, c, payload, framed);
    RecordedCommits(c.log, payload, framed, IsEvicted(parse, payload));
    CommittedSnoc(c.log, CommitFailed(framed));
  }

  /** Absorbing a frame commits exactly its bytes, or nothing. */
  lemma AbsorbCommits(parse: Parser, c: Core, payload: Bytes, framed: Bytes)
    requires c.error.None?
    ensures
      var c' := c.Absorb(parse, payload, framed);
      CommittedSince(c'.log, false) ==
        if c'.error.None? then CommittedSince(c.log, false) + framed else CommittedSince(c.log, false)
  {
    OthersCommitNothing(c, payload, framed);
    RecordCommits(parse, c, payload, framed);
    if c.BeginRetry().error.None? {
      RecordCommits(parse, c.BeginRetry(), payload, framed);
    }
  }

  /** One whole frame into an idle pipeline: its bytes are committed and nothing
      is held back, or the ingest fails having committed nothing. */
  lemma IngestWholeFrame(parse: Parser, lim: Limits, st: State<Pipe>, p: Bytes)
    requires Idle(st)
    requires |p| <= lim.maxFrame && |p| <= ISIZE_MAX
    ensures
      var next := Ingested(parse, lim, st, EncodeFrame(p));
      && next.pending == []
      && (next.seen.core.error.None? ==> Idle(next) && Committed(next) == Committed(st) + EncodeFrame(p))
      && (next.seen.core.error.Some? ==> Committed(next) == Committed(st))
  {
    CommitCommits(st.seen.core, EncodeFrame(p));
    if st.terminal.None? {
      VisitWholeFrame(parse, lim, st, p);
    }
  }

  lemma VisitWholeFrame(parse: Parser, lim: Limits, st: State<Pipe>, p: Bytes)
    requires Idle(st) && st.terminal.None?
    requires |p| <= lim.maxFrame && |p| <= ISIZE_MAX
    ensures
      var f := EncodeFrame(p);
      var fed := st.(seen := st.seen.(raw := st.seen.raw + f));
      var pushed := Push(lim, PipeHooks(parse), fed, f);
      && pushed.pending == []
      && (pushed.terminal.Some? ==> pushed.seen == Pipe(st.seen.core, f))
      && (pushed.terminal.None? ==>
            && Committed(pushed) == (if pushed.seen.core.error.None? then Committed(st) + f else Committed(st))
            && (pushed.seen.core.error.None? ==> Idle(pushed)))
  {
    var f := EncodeFrame(p);
    var fed := st.(seen := Pipe(st.seen.core, f));
    assert st.seen.raw + f == f && f + [] == f;
    PushEncoded(lim, PipeHooks(parse), fed, p);
    VisitShape(lim, PipeHooks(parse), fed, p, f);
    FrameMatches(parse, fed.seen, p, f, []);
    AbsorbCommits(parse, st.seen.core, p, f);
  }

  /** ... and the decoder's account grows by at most that frame, so that what was
      admitted never exceeds a limit. */
  lemma IngestAccounts(parse: Parser, lim: Limits, st: State<Pipe>, p: Bytes)
    requires Idle(st) && Clean(st)
    requires |p| <= lim.maxFrame && |p| <= ISIZE_MAX
    requires st.decodedBytes + |p| <= lim.maxStream && st.eventCount < lim.maxEvents
    ensures
      var next := Ingested(parse, lim, st, EncodeFrame(p));
      && Clean(next)
      && next.decodedBytes <= st.decodedBytes + |p|
      && next.eventCount <= st.eventCount + 1
  {
    if st.terminal.None? {
      var fed := st.(seen := st.seen.(raw := st.seen.raw + EncodeFrame(p)));
      PushEncoded(lim, PipeHooks(parse), fed, p);
    }
  }

  /** A batch of frames. */
  lemma {:induction false} IngestBatch(parse: Parser, st: State<Pipe>, payloads: seq<Bytes>, bytes: nat, count: nat)
    requires Idle(st) && Clean(st) && st.decodedBytes <= bytes && st.eventCount <= count
    requires forall p :: p in payloads ==> |p| <= DEFAULT_LIMITS.maxFrame
    requires bytes + TotalLength(payloads) <= DEFAULT_LIMITS.maxStream
    requires count + |payloads| <= DEFAULT_LIMITS.maxEvents
    ensures
      var end := IngestedAll(parse, DEFAULT_LIMITS, st, Framed(payloads));
      && Clean(end) && end.pending == []
      && Committed(st) <= Committed(end)
      && (end.seen.core.error.None? ==>
            && Idle(end)
            && Committed(end) == Committed(st) + Flatten(Framed(payloads))
            && end.decodedBytes <= bytes + TotalLength(payloads)
            && end.eventCount <= count + |payloads|)
    decreases |payloads|
  {
    if payloads != [] {
      var p, more := payloads[0], payloads[1..];
      assert p in payloads && Framed(payloads)[1..] == Framed(more);
      IngestWholeFrame(parse, DEFAULT_LIMITS, st, p);
      IngestAccounts(parse, DEFAULT_LIMITS, st, p);
      var next := Ingested(parse, DEFAULT_LIMITS, st, EncodeFrame(p));
      if next.seen.core.error.None? {
        IngestBatch(parse, next, more, bytes + |p|, count + 1);
        Assoc(Committed(st), EncodeFrame(p), Flatten(Framed(more)));
      }
    }
  }

  // ---------------------------------------------------------- the wire, in order

  /** The BEP payloads among the requests, in order. */
  function Payloads(events: seq<Option<Bytes>>): seq<Bytes> {
    if events == [] then [] else
    var last := events[|events| - 1];
    Payloads(events[..|events| - 1]) + (if last.Some? then [last.value] else [])
  }

  function AcceptedFrames(wire: seq<Wire>): seq<Bytes> {
    if wire == [] then [] else
    var before, last := AcceptedFrames(wire[..|wire| - 1]), wire[|wire| - 1];
    if last.Accepted? then before + last.frames else before
  }

  /** How many acknowledgements went out. */
  function AckCount(wire: seq<Wire>): nat {
    if wire == [] then 0 else
    AckCount(wire[..|wire| - 1]) + (if wire[|wire| - 1].Acknowledged? then 1 else 0)
  }

  datatype Phase = Streaming | AfterEnd | OutOfOrder

  /** Frames are handed over while streaming, then the end once, then nothing. */
  function PhaseOf(wire: seq<Wire>): Phase {
    if wire == [] then Streaming else
    var before := PhaseOf(wire[..|wire| - 1]);
    match wire[|wire| - 1]
    case Acknowledged(_) => before
    case Accepted(_) => if before.Streaming? then Streaming else OutOfOrder
    case FinishAccepted => if before.Streaming? then AfterEnd else OutOfOrder
  }

  /** What may go over the wire next: the acknowledgement of the next request,
      once the frames of every BEP event up to it have been accepted; or frames
      of requests, in order. */
  predicate MayFollow(wire: seq<Wire>, next: Wire, events: seq<Option<Bytes>>) {
    match next
    case Acknowledged(n) =>
      && n == AckCount(wire) + 1 <= |events|
      && Framed(Payloads(events[..n])) <= AcceptedFrames(wire)
    case Accepted(frames) => AcceptedFrames(wire) + frames <= Framed(Payloads(events))
    case FinishAccepted => true
  }

  predicate WireSafe(wire: seq<Wire>, events: seq<Option<Bytes>>) {
    wire != [] ==>
      && WireSafe(wire[..|wire| - 1], events)
      && MayFollow(wire[..|wire| - 1], wire[|wire| - 1], events)
  }

  /** At every position of a safe wire, what is there was allowed to follow. */
  lemma {:induction false} WireSafeAt(wire: seq<Wire>, events: seq<Option<Bytes>>, k: nat)
    requires WireSafe(wire, events) && k < |wire|
    ensures MayFollow(wire[..k], wire[k], events)
  {
    WireSafePrefix(wire, events, k + 1);
    TakeTake(wire, k, k + 1);
    assert wire[..k + 1][k] == wire[k];
  }

  lemma {:induction false} WireSafePrefix(wire: seq<Wire>, events: seq<Option<Bytes>>, k: nat)
    requires WireSafe(wire, events) && k <= |wire|
    ensures WireSafe(wire[..k], events)
    decreases |wire|
  {
    var n := |wire| - 1;
    if k <= n {
      TakeTake(wire, k, n);
      WireSafePrefix(wire[..n], events, k);
    } else {
      assert wire[..k] == wire;
    }
  }

  predicate OnlyEnd(wire: seq<Wire>, i: nat)
    requires i < |wire|
  {
    && wire[i].FinishAccepted?
    && forall j :: 0 <= j < |wire| && j != i ==> !wire[j].FinishAccepted? && (i < j ==> wire[j].Acknowledged?)
  }

  /** After the end of the stream only acknowledgements follow, and there is one
      end. */
  lemma {:induction false} EndIsLast(wire: seq<Wire>) returns (i: nat)
    requires PhaseOf(wire) == AfterEnd
    ensures i < |wire| && OnlyEnd(wire, i)
  {
    var n := |wire| - 1;
    if wire[n].FinishAccepted? {
      i := n;
      NoEndYet(wire[..n]);
    } else {
      i := EndIsLast(wire[..n]);
    }
    assert forall j :: 0 <= j < n ==> wire[j] == wire[..n][j];
  }

  lemma {:induction false} NoEndYet(wire: seq<Wire>)
    requires PhaseOf(wire) == Streaming
    ensures forall j :: 0 <= j < |wire| ==> !wire[j].FinishAccepted?
  {
    if wire != [] {
      NoEndYet(wire[..|wire| - 1]);
    }
  }

  lemma {:induction false} PayloadsSnoc(events: seq<Option<Bytes>>, e: Option<Bytes>)
    ensures Payloads(events + [e]) == Payloads(events) + (if e.Some? then [e.value] else [])
  {
    assert (events + [e])[..|events|] == events;
  }

  lemma {:induction false} PayloadsPrefix(events: seq<Option<Bytes>>, n: nat)
    requires n <= |events|
    ensures Payloads(events[..n]) <= Payloads(events)
  {
    if n < |events| {
      var init := events[..|events| - 1];
      assert init[..n] == events[..n];
      PayloadsPrefix(init, n);
    } else {
      assert events[..n] == events;
    }
  }

  lemma {:induction false} FramedAppend(a: seq<Bytes>, b: seq<Bytes>)
    ensures Framed(a + b) == Framed(a) + Framed(b)
  {
    if a == [] {
      assert a + b == b;
    } else {
      FramedAppend(a[1..], b);
      assert (a + b)[0] == a[0] && (a + b)[1..] == a[1..] + b;
      Assoc([EncodeFrame(a[0])], Framed(a[1..]), Framed(b));
    }
  }

  lemma {:induction false} FramedPrefix(a: seq<Bytes>, b: seq<Bytes>)
    requires a <= b
    ensures Framed(a) <= Framed(b)
  {
    assert b == a + b[|a|..];
    FramedAppend(a, b[|a|..]);
  }

  lemma {:induction false} FramedUpto(events: seq<Option<Bytes>>, n: nat)
    requires n <= |events|
    ensures Framed(Payloads(events[..n])) <= Framed(Payloads(events))
  {
    PayloadsPrefix(events, n);
    FramedPrefix(Payloads(events[..n]), Payloads(events));
  }

  lemma {:induction false} WireSnoc(wire: seq<Wire>, e: Wire)
    ensures AcceptedFrames(wire + [e]) ==
      if e.Accepted? then AcceptedFrames(wire) + e.frames else AcceptedFrames(wire)
    ensures AckCount(wire + [e]) == AckCount(wire) + (if e.Acknowledged? then 1 else 0)
    ensures PhaseOf(wire + [e]) ==
      if e.Acknowledged? then PhaseOf(wire)
      else if !PhaseOf(wire).Streaming? then OutOfOrder
      else if e.Accepted? then Streaming else AfterEnd
  {
    assert (wire + [e])[..|wire|] == wire;
  }

  lemma {:induction false} WireSafeSnoc(wire: seq<Wire>, e: Wire, events: seq<Option<Bytes>>)
    requires WireSafe(wire, events) && MayFollow(wire, e, events)
    ensures WireSafe(wire + [e], events)
  {
    assert (wire + [e])[..|wire|] == wire;
  }

  lemma {:induction false} WireSafeMoreEvents(wire: seq<Wire>, events: seq<Option<Bytes>>, e: Option<Bytes>)
    requires WireSafe(wire, events)
    ensures WireSafe(wire, events + [e])
  {
    if wire != [] {
      WireSafeMoreEvents(wire[..|wire| - 1], events, e);
      MayFollowMoreEvents(wire[..|wire| - 1], wire[|wire| - 1], events, e);
    }
  }

  lemma {:induction false} MayFollowMoreEvents(
    wire: seq<Wire>, next: Wire, events: seq<Option<Bytes>>, e: Option<Bytes>)
    requires MayFollow(wire, next, events)
    ensures MayFollow(wire, next, events + [e])
  {
    match next
    case Acknowledged(n) =>
      assert (events + [e])[..n] == events[..n];
    case Accepted(frames) =>
      FramedUpto(events + [e], |events|);
      assert (events + [e])[..|events|] == events;
    case FinishAccepted =>
  }

  // ------------------------------------------------------------------- the link

  /** What holds of a link at every moment, whatever has failed: the wire is
      safe, every accepted byte is committed, and the receiver's decoder holds
      nothing back and has met no framing error and no limit. */
  predicate LinkSafe(link: Link, events: seq<Option<Bytes>>) {
    WireSafe(link.wire, events) && Backed(link.wire, link.receiver.st)
  }

  predicate Backed(wire: seq<Wire>, st: State<Pipe>) {
    && Flatten(AcceptedFrames(wire)) <= Committed(st)
    && st.pending == []
    && Clean(st)
  }

  /** The receiver holds nothing back, has committed exactly what it accepted,
      and its decoder's account is covered by the payloads accepted. */
  predicate ReceiverIdle(link: Link, payloads: seq<Bytes>) {
    var m := |AcceptedFrames(link.wire)|;
    && Idle(link.receiver.st)
    && Committed(link.receiver.st) == Flatten(AcceptedFrames(link.wire))
    && m <= |payloads|
    && link.receiver.st.decodedBytes <= TotalLength(payloads[..m])
    && link.receiver.st.eventCount <= m
  }

  /** The receiver listens until the end has been handed over. */
  predicate Ended(link: Link, finished: bool) {
    && PhaseOf(link.wire) == (if finished then AfterEnd else Streaming)
    && (link.receiver.open <==> !finished)
  }

  /** The first `acked` requests are acknowledged and every frame is accepted. */
  predicate Drained(link: Link, events: seq<Option<Bytes>>, acked: nat, finished: bool) {
    && LinkSafe(link, events)
    && (link.error.None? ==>
          && ReceiverIdle(link, Payloads(events))
          && Ended(link, finished)
          && AckCount(link.wire) == acked
          && AcceptedFrames(link.wire) == Framed(Payloads(events)))
  }

  lemma {:induction false} NextAckMayFollow(wire: seq<Wire>, events: seq<Option<Bytes>>)
    requires AckCount(wire) < |events| && AcceptedFrames(wire) == Framed(Payloads(events))
    ensures MayFollow(wire, Acknowledged(AckCount(wire) + 1), events)
  {
    FramedUpto(events, AckCount(wire) + 1);
  }

  lemma AckedWire(wire: seq<Wire>, events: seq<Option<Bytes>>)
    requires AckCount(wire) < |events| && WireSafe(wire, events)
    requires AcceptedFrames(wire) == Framed(Payloads(events))
    ensures
      var more := wire + [Acknowledged(AckCount(wire) + 1)];
      && WireSafe(more, events) && AckCount(more) == AckCount(wire) + 1
      && AcceptedFrames(more) == AcceptedFrames(wire) && PhaseOf(more) == PhaseOf(wire)
  {
    NextAckMayFollow(wire, events);
    WireSafeSnoc(wire, Acknowledged(AckCount(wire) + 1), events);
    WireSnoc(wire, Acknowledged(AckCount(wire) + 1));
  }

  lemma {:induction false} AckedWireIs(wire: seq<Wire>, more: seq<Wire>, events: seq<Option<Bytes>>)
    requires AckCount(wire) < |events| && WireSafe(wire, events)
    requires AcceptedFrames(wire) == Framed(Payloads(events))
    requires more == wire + [Acknowledged(AckCount(wire) + 1)]
    ensures WireSafe(more, events) && AckCount(more) == AckCount(wire) + 1
    ensures AcceptedFrames(more) == AcceptedFrames(wire) && PhaseOf(more) == PhaseOf(wire)
  {
    AckedWire(wire, events);
  }

  /** How an acknowledgement can end. */
  lemma RespondShape(link: Link, n: int)
    requires link.error.None?
    ensures
      var r := Respond(link, n);
      && r.receiver == link.receiver
      && r.wire == (if r.error.None? then link.wire + [Acknowledged(n)] else link.wire)
  {
  }

  /** A link keeps its account as long as its receiver does not move. */
  lemma {:induction false} SettledLink(
    link: Link, r: Link, events: seq<Option<Bytes>>, acked: nat, more: nat, finished: bool)
    requires link.error.None? && Drained(link, events, acked, finished)
    requires r.receiver == link.receiver && WireSafe(r.wire, events)
    requires AcceptedFrames(r.wire) == AcceptedFrames(link.wire) && PhaseOf(r.wire) == PhaseOf(link.wire)
    requires r.error.None? ==> AckCount(r.wire) == more
    ensures Drained(r, events, more, finished)
  {
  }

  lemma AckedLink(link: Link, r: Link, events: seq<Option<Bytes>>, acked: nat, finished: bool)
    requires acked < |events| && link.error.None? && Drained(link, events, acked, finished)
    requires r.receiver == link.receiver && r.wire == link.wire + [Acknowledged(acked + 1)]
    ensures Drained(r, events, acked + 1, finished)
  {
    DrainedWire(link, events, acked, finished);
    AckedWireIs(link.wire, r.wire, events);
    SettledLink(link, r, events, acked, acked + 1, finished);
  }

  lemma {:induction false} DrainedWire(link: Link, events: seq<Option<Bytes>>, acked: nat, finished: bool)
    requires link.error.None? && Drained(link, events, acked, finished)
    ensures AckCount(link.wire) == acked && WireSafe(link.wire, events)
    ensures AcceptedFrames(link.wire) == Framed(Payloads(events))
  {
  }

  lemma RespondKeeps(link: Link, events: seq<Option<Bytes>>, acked: nat, finished: bool)
    requires acked < |events|
    requires Drained(link, events, acked, finished)
    ensures Drained(Respond(link, acked + 1), events, acked + 1, finished)
  {
    var r := Respond(link, acked + 1);
    if link.error.None? {
      RespondShape(link, acked + 1);
      if r.error.None? {
        AckedLink(link, r, events, acked, finished);
      } else {
        SettledLink(link, r, events, acked, acked + 1, finished);
      }
    }
  }

  lemma {:induction false} RespondAllKeeps(
    link: Link, events: seq<Option<Bytes>>, acked: nat, ns: seq<int>, finished: bool)
    requires acked + |ns| == |events|
    requires forall i :: 0 <= i < |ns| ==> ns[i] == acked + 1 + i
    requires Drained(link, events, acked, finished)
    ensures Drained(RespondAll(link, ns), events, |events|, finished)
    decreases |ns|
  {
    if ns != [] {
      RespondKeeps(link, events, acked, finished);
      RespondAllKeeps(Respond(link, ns[0]), events, acked + 1, ns[1..], finished);
    }
  }

  /** Payloads that the admission check lets through. */
  predicate WithinLimits(payloads: seq<Bytes>) {
    && |payloads| <= DEFAULT_LIMITS.maxEvents
    && TotalLength(payloads) <= DEFAULT_LIMITS.maxStream
    && forall p :: p in payloads ==> |p| <= DEFAULT_LIMITS.maxFrame
  }

  /** Requests not yet acknowledged are exactly those whose frames are pending. */
  predicate Pending(link: Link, events: seq<Option<Bytes>>, batch: Batch, finished: bool) {
    && LinkSafe(link, events)
    && (link.error.None? ==>
          && ReceiverIdle(link, Payloads(events))
          && Ended(link, finished)
          && |batch.frames| == |batch.responses|
          && AckCount(link.wire) + |batch.responses| == |events|
          && (forall i :: 0 <= i < |batch.responses| ==> batch.responses[i] == AckCount(link.wire) + 1 + i)
          && AcceptedFrames(link.wire) + batch.frames == Framed(Payloads(events))
          && (finished ==> batch.frames == []))
  }

  /** The pending frames are those of the payloads not yet accepted. */
  lemma {:induction false} PendingPayloads(accepted: seq<Bytes>, frames: seq<Bytes>, payloads: seq<Bytes>)
    requires accepted + frames == Framed(payloads)
    ensures
      var m := |accepted|;
      && m <= |payloads|
      && frames == Framed(payloads[m..])
      && TotalLength(payloads) == TotalLength(payloads[..m]) + TotalLength(payloads[m..])
  {
    var m := |accepted|;
    assert |payloads| == |accepted + frames|;
    assert payloads[..m] + payloads[m..] == payloads;
    FramedAppend(payloads[..m], payloads[m..]);
    TotalAppend(payloads[..m], payloads[m..]);
    assert frames == (accepted + frames)[m..];
  }

  /** The receiver takes a batch through its pipeline, or refuses part of it. */
  lemma {:induction false} ReceiverTakesBatch(parse: Parser, link: Link, events: seq<Option<Bytes>>, batch: Batch)
    requires Pending(link, events, batch, false) && link.error.None?
    requires WithinLimits(Payloads(events))
    ensures
      var st := IngestedAll(parse, DEFAULT_LIMITS, link.receiver.st, batch.frames);
      var ps := Payloads(events);
      && Clean(st) && st.pending == []
      && Flatten(AcceptedFrames(link.wire)) <= Committed(st)
      && (st.seen.core.error.None? ==>
            && Idle(st)
            && Committed(st) == Flatten(Framed(ps))
            && st.decodedBytes <= TotalLength(ps) && st.eventCount <= |ps|)
  {
    var m := |AcceptedFrames(link.wire)|;
    var ps := Payloads(events);
    PendingPayloads(AcceptedFrames(link.wire), batch.frames, ps);
    assert forall p :: p in ps[m..] ==> p in ps;
    IngestBatch(parse, link.receiver.st, ps[m..], TotalLength(ps[..m]), m);
    FlattenAppend(AcceptedFrames(link.wire), batch.frames);
  }

  /** How a hand-over can end. */
  lemma ForwardShape(parse: Parser, link: Link, d: Delivery)
    requires link.error.None?
    ensures
      var h := Forward(parse, link, d);
      var (receiver, ok) := Handle(parse, link.receiver, d);
      && (h.error.None? ==>
            && ok && h.receiver == receiver && link.receiver.open
            && h.wire == link.wire + [if d.Frames? then Accepted(d.frames) else FinishAccepted])
      && (h.error.Some? ==> h.wire == link.wire && (h.receiver == link.receiver || h.receiver == receiver))
  {
  }

  /** Why a hand-over fails: nobody listens, the answer is lost, or the receiver refuses. */
  lemma HandoverFaults(parse: Parser, link: Link, d: Delivery)
    requires link.error.None?
    ensures
      var h := Forward(parse, link, d);
      var closed := !link.receiver.open || (link.handoffs != [] && link.handoffs[0].ChannelClosed?);
      var lost := link.handoffs != [] && link.handoffs[0].AnswerLost?;
      && (h.error == Some(ReceiverClosed) <==> closed)
      && (h.error == Some(AcknowledgementClosed) <==> !closed && lost)
      && (h.error == Some(ReceiverRejected) <==> !closed && !lost && !Handle(parse, link.receiver, d).1)
      && (h.error.Some? ==> h.error.value in {ReceiverClosed, AcknowledgementClosed, ReceiverRejected})
  {
  }

  /** An acknowledgement fails exactly when the client has stopped. */
  lemma ResponseFaults(link: Link, n: int)
    requires link.error.None?
    ensures Respond(link, n).error ==
      if link.client != [] && !link.client[0] then Some(ClientStopped) else None
  {
  }

  /** Handing a batch over makes it accepted, in full or not at all. */
  lemma {:induction false} ForwardBatch(parse: Parser, link: Link, events: seq<Option<Bytes>>, batch: Batch)
    requires Pending(link, events, batch, false) && link.error.None?
    requires WithinLimits(Payloads(events))
    ensures Drained(Forward(parse, link, Frames(batch.frames)), events, AckCount(link.wire), false)
  {
    var ps := Payloads(events);
    ReceiverTakesBatch(parse, link, events, batch);
    ForwardShape(parse, link, Frames(batch.frames));
    WireSnoc(link.wire, Accepted(batch.frames));
    WireSafeSnoc(link.wire, Accepted(batch.frames), events);
    assert ps[..|ps|] == ps;
  }

  /** Flushing hands over everything pending and then acknowledges it. */
  lemma {:induction false} FlushKeeps(
    parse: Parser, link: Link, events: seq<Option<Bytes>>, batch: Batch, finished: bool)
    requires Pending(link, events, batch, finished)
    requires WithinLimits(Payloads(events))
    ensures Drained(Flush(parse, link, batch), events, |events|, finished)
  {
    if link.error.Some? {
      StoppedLink(parse, link, batch);
    } else if batch.frames == [] {
      assert AcceptedFrames(link.wire) + [] == AcceptedFrames(link.wire);
    } else {
      var acked := AckCount(link.wire);
      ForwardBatch(parse, link, events, batch);
      RespondAllKeeps(Forward(parse, link, Frames(batch.frames)), events, acked, batch.responses, finished);
    }
  }

  lemma StoppedLink(parse: Parser, link: Link, batch: Batch)
    requires link.error.Some?
    ensures Flush(parse, link, batch) == link
  {
    RespondNothing(link, batch.responses);
  }

  lemma {:induction false} RespondNothing(link: Link, ns: seq<int>)
    requires link.error.Some?
    ensures RespondAll(link, ns) == link
    decreases |ns|
  {
    if ns != [] {
      RespondNothing(link, ns[1..]);
    }
  }

  /** An idle pipeline has nothing left to commit when it ends. */
  lemma ClosingIdle(parse: Parser, r: Receiver)
    requires Idle(r.st)
    ensures
      var (r', ok) := Handle(parse, r, Finish);
      && SameDecoder(r'.st, r.st) && Committed(r'.st) == Committed(r.st)
      && !r'.open
      && (ok ==> Idle(r'.st))
  {
  }

  /** Handing over the end of the stream closes the receiver and changes nothing
      that was accepted or committed. */
  lemma FinishKeeps(parse: Parser, link: Link, events: seq<Option<Bytes>>, acked: nat)
    requires Drained(link, events, acked, false)
    ensures Drained(Forward(parse, link, Finish), events, acked, true)
  {
    if link.error.None? {
      ForwardShape(parse, link, Finish);
      ClosingIdle(parse, link.receiver);
      WireSnoc(link.wire, FinishAccepted);
      WireSafeSnoc(link.wire, FinishAccepted, events);
    }
  }

  /** A request without a payload, taken while no frame is pending. */
  lemma {:induction false} SkipKeeps(link: Link, events: seq<Option<Bytes>>, acked: nat, finished: bool)
    requires Drained(link, events, acked, finished)
    ensures Drained(link, events + [None], acked, finished)
    ensures Payloads(events + [None]) == Payloads(events)
  {
    PayloadsSnoc(events, None);
    WireSafeMoreEvents(link.wire, events, None);
    assert Payloads(events) + [] == Payloads(events);
  }

  // ---------------------------------------------------------------- the session

  /** Between turns: what is pending is known, and the statistics are those of
      the payloads received, which are within the limits. */
  predicate Live(s: Session) {
    && Pending(s.link, s.events, s.batch, s.sawFinished)
    && (s.link.error.None? ==>
          && WithinLimits(Payloads(s.events))
          && s.stats == Stats(|Payloads(s.events)|, TotalLength(Payloads(s.events)))
          && s.expected == |s.events| + 1
          && s.requestCount == |s.events|)
    && (s.completed ==> s.sawFinished && s.batch == EMPTY)
  }

  lemma DrainedIsPending(link: Link, events: seq<Option<Bytes>>, finished: bool)
    requires Drained(link, events, |events|, finished)
    ensures Pending(link, events, EMPTY, finished)
  {
    assert AcceptedFrames(link.wire) + [] == AcceptedFrames(link.wire);
  }

  lemma PendingJoin(link: Link, events: seq<Option<Bytes>>, batch: Batch, value: Bytes, bytes: nat)
    requires Pending(link, events, batch, false) && link.error.None?
    ensures Pending(link, events + [Some(value)],
                    Batch(batch.frames + [EncodeFrame(value)], batch.responses + [|events| + 1], bytes), false)
  {
    var ps, m := Payloads(events), |AcceptedFrames(link.wire)|;
    PayloadsSnoc(events, Some(value));
    FramedAppend(ps, [value]);
    WireSafeMoreEvents(link.wire, events, Some(value));
    assert Framed([value]) == [EncodeFrame(value)];
    assert (ps + [value])[..m] == ps[..m];
    Assoc(AcceptedFrames(link.wire), batch.frames, [EncodeFrame(value)]);
  }

  lemma {:induction false} LimitsJoin(payloads: seq<Bytes>, value: Bytes)
    requires WithinLimits(payloads)
    requires FramePayload(value, Stats(|payloads|, TotalLength(payloads))).Ok?
    ensures WithinLimits(payloads + [value])
    ensures TotalLength(payloads + [value]) == TotalLength(payloads) + |value|
  {
    TotalAppend(payloads, [value]);
    assert TotalLength([value]) == |value|;
  }

  lemma {:induction false} JoinStats(events: seq<Option<Bytes>>, stats: Stats, value: Bytes)
    requires WithinLimits(Payloads(events)) && FramePayload(value, stats).Ok?
    requires stats == Stats(|Payloads(events)|, TotalLength(Payloads(events)))
    ensures
      var ps := Payloads(events + [Some(value)]);
      && WithinLimits(ps)
      && Stats(SatAdd(stats.eventCount, 1), SatAdd(stats.bepBytes, |value|)) == Stats(|ps|, TotalLength(ps))
  {
    LimitsJoin(Payloads(events), value);
    PayloadsSnoc(events, Some(value));
  }

  lemma JoinKeeps(s: Session, value: Bytes)
    requires Live(s) && s.link.error.None? && !s.sawFinished
    requires FramePayload(value, s.stats).Ok?
    ensures
      var j := Join(s, s.expected, value, EncodeFrame(value));
      Live(Counted(j))
  {
    PendingJoin(s.link, s.events, s.batch, value, SatAdd(s.batch.bytes, |EncodeFrame(value)|));
    JoinStats(s.events, s.stats, value);
  }

  /** With everything handed over, a request without a payload is acknowledged. */
  lemma {:induction false} AckSkipped(link: Link, events: seq<Option<Bytes>>, finished: bool)
    requires Drained(link, events, |events|, finished)
    ensures Pending(Respond(link, |events| + 1), events + [None], EMPTY, finished)
    ensures Payloads(events + [None]) == Payloads(events)
  {
    var more, n := events + [None], |events|;
    SkipKeeps(link, events, n, finished);
    RespondKeeps(link, more, n, finished);
    DrainedIsPending(Respond(link, n + 1), more, finished);
  }

  lemma LiveNext(s: Session, r: Session, link: Link, finished: bool)
    requires Live(s) && s.Running()
    requires Pending(link, s.events + [None], EMPTY, finished)
    requires Payloads(s.events + [None]) == Payloads(s.events)
    requires r == Counted(s.(link := link, batch := EMPTY, events := s.events + [None], sawFinished := finished))
    ensures Live(r)
  {
  }

  /** Everything pending handed over, then the acknowledgement. */
  lemma {:induction false} OtherLink(
    parse: Parser, link: Link, events: seq<Option<Bytes>>, batch: Batch, finished: bool, n: int)
    requires Pending(link, events, batch, finished) && n == |events| + 1
    requires WithinLimits(Payloads(events))
    ensures Pending(Respond(Flush(parse, link, batch), n), events + [None], EMPTY, finished)
    ensures Payloads(events + [None]) == Payloads(events)
  {
    FlushKeeps(parse, link, events, batch, finished);
    AckSkipped(Flush(parse, link, batch), events, finished);
  }

  lemma OtherKeeps(parse: Parser, s: Session)
    requires Live(s) && s.Running()
    ensures Live(Counted(OnOtherEvent(parse, s, s.expected)))
  {
    var r := Counted(OnOtherEvent(parse, s, s.expected));
    OtherLink(parse, s.link, s.events, s.batch, s.sawFinished, s.expected);
    LiveNext(s, r, r.link, s.sawFinished);
  }

  /** Everything pending handed over, then the end, then its acknowledgement. */
  lemma {:induction false} FinishedLink(
    parse: Parser, link: Link, events: seq<Option<Bytes>>, batch: Batch, n: int)
    requires Pending(link, events, batch, false) && n == |events| + 1
    requires WithinLimits(Payloads(events))
    ensures Pending(Respond(Forward(parse, Flush(parse, link, batch), Finish), n), events + [None], EMPTY, true)
    ensures Payloads(events + [None]) == Payloads(events)
  {
    var flushed := Flush(parse, link, batch);
    FlushKeeps(parse, link, events, batch, false);
    FinishKeeps(parse, flushed, events, |events|);
    AckSkipped(Forward(parse, flushed, Finish), events, true);
  }

  lemma FinishedKeeps(parse: Parser, s: Session)
    requires Live(s) && s.Running() && !s.sawFinished
    ensures Live(Counted(OnFinished(parse, s, s.expected, 1)))
  {
    var r := Counted(OnFinished(parse, s, s.expected, 1));
    FinishedLink(parse, s.link, s.events, s.batch, s.expected);
    LiveNext(s, r, r.link, true);
  }

  /** Giving up changes nothing that has happened. */
  lemma FailKeeps(s: Session, e: BesError)
    requires Live(s)
    ensures Live(s.Fail(e)) && Live(Counted(s.Fail(e)))
  {
  }

  lemma FlushSessionKeeps(parse: Parser, s: Session)
    requires Live(s)
    ensures Live(FlushSession(parse, s))
  {
    if s.link.error.Some? {
      StoppedLink(parse, s.link, s.batch);
    } else {
      FlushKeeps(parse, s.link, s.events, s.batch, s.sawFinished);
      DrainedIsPending(Flush(parse, s.link, s.batch), s.events, s.sawFinished);
    }
  }

  lemma BazelEventKeeps(parse: Parser, s: Session, value: Bytes)
    requires Live(s) && s.Running() && !s.sawFinished
    requires FramePayload(value, s.stats).Ok?
    ensures
      var joined := Join(s, s.expected, value, EncodeFrame(value));
      Live(Counted(joined)) && Live(Counted(FlushSession(parse, joined)))
  {
    var joined := Join(s, s.expected, value, EncodeFrame(value));
    JoinKeeps(s, value);
    FlushSessionKeeps(parse, Counted(joined));
    assert FlushSession(parse, Counted(joined)) == Counted(FlushSession(parse, joined));
  }

  lemma BazelEventShape(parse: Parser, s: Session, typeUrl: string, value: Bytes)
    requires TypeUrlAllowed(typeUrl) && FramePayload(value, s.stats).Ok?
    ensures
      var joined := Join(s, s.expected, value, EncodeFrame(value));
      OnBazelEvent(parse, s, s.expected, typeUrl, value) ==
        if BatchFull(joined.batch) then FlushSession(parse, joined) else joined
  {
  }

  lemma BazelBodyKeeps(parse: Parser, s: Session, typeUrl: string, value: Bytes)
    requires Live(s) && s.Running() && !s.sawFinished
    ensures Live(Counted(OnBazelEvent(parse, s, s.expected, typeUrl, value)))
  {
    var framed := FramePayload(value, s.stats);
    if TypeUrlAllowed(typeUrl) && framed.Ok? {
      BazelEventShape(parse, s, typeUrl, value);
      BazelEventKeeps(parse, s, value);
    } else {
      FailKeeps(s, if !TypeUrlAllowed(typeUrl) then UnexpectedTypeUrl else framed.error);
    }
  }

  lemma BodyKeeps(parse: Parser, s: Session, body: Body)
    requires Live(s) && s.Running() && !s.sawFinished
    ensures Live(Counted(OnBody(parse, s, body)))
  {
    match body
    case BazelEvent(typeUrl, value) => BazelBodyKeeps(parse, s, typeUrl, value);
    case ComponentStreamFinished(kind) =>
      if kind == 1 {
        FinishedKeeps(parse, s);
      } else {
        FailKeeps(s, UnsupportedFinish);
      }
    case NoBody =>
      OtherKeeps(parse, s);
  }

  lemma RequestKeeps(parse: Parser, s: Session, request: Request)
    requires Live(s) && s.Running()
    ensures Live(OnRequest(parse, s, request))
  {
    var refused := Screen(s.identity, s.expected, s.requestCount, s.sawFinished, request);
    if refused.Some? {
      FailKeeps(s, refused.value);
    } else {
      BodyKeeps(parse, s, request.value.event.value);
    }
  }

  lemma EndKeeps(parse: Parser, s: Session)
    requires Live(s) && s.Running()
    ensures Live(OnEnd(parse, s))
  {
    var flushed := FlushSession(parse, s);
    FlushSessionKeeps(parse, s);
    FailKeeps(flushed, EndedWithoutFinish);
  }

  lemma StepKeeps(parse: Parser, s: Session, input: Input)
    requires Live(s)
    ensures Live(Step(parse, s, input))
  {
    if s.Running() {
      match input
      case Message(request) => RequestKeeps(parse, s, request);
      case Idled => FlushSessionKeeps(parse, s);
      case EndOfStream => EndKeeps(parse, s);
      case ReceiveFailed => FailKeeps(s, ReceiveError);
    }
  }

  // ------------------------------------------------------------------ every run

  lemma {:induction false} RunKeeps(parse: Parser, s: Session, inputs: seq<Input>)
    requires Live(s)
    ensures Live(Run(parse, s, inputs))
    decreases |inputs|
  {
    if inputs != [] {
      StepKeeps(parse, s, inputs[0]);
      RunKeeps(parse, Step(parse, s, inputs[0]), inputs[1..]);
    }
  }

  /** A session that has just been opened, over a link with any future. */
  predicate Opened(s: Session) {
    var w := s.link.receiver.st.seen.core.durable;
    && s.expected == 1 && s.requestCount == 0 && s.stats == Stats(0, 0) && s.events == []
    && !s.sawFinished && s.batch == EMPTY && !s.completed
    && s.link.wire == [] && s.link.receiver.open
    && FreshWriter(w) && w.Append? && s.link.receiver.st == Start(w)
  }

  lemma OpenedIsLive(s: Session)
    requires Opened(s)
    ensures Live(s)
  {
  }

  /** Acknowledgement safety: at every position of the wire of any run, an
      acknowledgement carries the next sequence number and comes after the receiver
      accepted the frames of every BEP event up to it, in order; and every accepted
      byte has been committed by the receiver's pipeline, whose decoder holds nothing
      back and has reported neither a malformed or truncated frame nor an exceeded
      limit. */
  lemma {:induction false} AcknowledgementSafety(parse: Parser, s: Session, inputs: seq<Input>)
    requires Opened(s)
    ensures
      var end := Run(parse, s, inputs);
      var wire := end.link.wire;
      && (forall k :: 0 <= k < |wire| ==> MayFollow(wire[..k], wire[k], end.events))
      && Backed(wire, end.link.receiver.st)
  {
    OpenedIsLive(s);
    RunKeeps(parse, s, inputs);
    var end := Run(parse, s, inputs);
    forall k | 0 <= k < |end.link.wire| ensures MayFollow(end.link.wire[..k], end.link.wire[k], end.events) {
      WireSafeAt(end.link.wire, end.events, k);
    }
  }

  /** A capture that completes has acknowledged every request, handed over every
      payload followed by one end of stream, committed all of it, and reports
      statistics that are the count and size of those payloads. */
  lemma {:induction false} CompletedCapture(parse: Parser, s: Session, inputs: seq<Input>)
    requires Opened(s)
    ensures
      var end := Run(parse, s, inputs);
      var ps := Payloads(end.events);
      end.completed && end.link.error.None? ==>
        && end.stats == Stats(|ps|, TotalLength(ps))
        && AckCount(end.link.wire) == |end.events|
        && AcceptedFrames(end.link.wire) == Framed(ps)
        && Committed(end.link.receiver.st) == Flatten(Framed(ps))
        && PhaseOf(end.link.wire) == AfterEnd
  {
    OpenedIsLive(s);
    RunKeeps(parse, s, inputs);
    var end := Run(parse, s, inputs);
    assert AcceptedFrames(end.link.wire) + [] == AcceptedFrames(end.link.wire);
  }

  /** What each message of the input carries. */
  function Carried(inputs: seq<Input>): seq<Option<Bytes>> {
    if inputs == [] then []
    else if !inputs[0].Message? then Carried(inputs[1..])
    else [CarriedBy(inputs[0].request)] + Carried(inputs[1..])
  }

  function CarriedBy(request: Request): Option<Bytes> {
    if request.Some? && request.value.event.Some? && request.value.event.value.BazelEvent?
    then Some(request.value.event.value.value) else None
  }

  lemma StepEvents(parse: Parser, s: Session, input: Input)
    ensures
      var r := Step(parse, s, input);
      || r.events == s.events + Carried([input])
      || (r.events == s.events && !r.Running())
  {
    CarriedOne(input);
    assert s.events + [] == s.events;
    if s.Running() && input.Message? {
      RequestEvents(parse, s, input.request);
    }
  }

  lemma {:induction false} CarriedOne(input: Input)
    ensures Carried([input]) == if input.Message? then [CarriedBy(input.request)] else []
  {
    assert [input][1..] == [];
  }

  lemma RequestEvents(parse: Parser, s: Session, request: Request)
    ensures
      var r := OnRequest(parse, s, request);
      r.events == s.events + [CarriedBy(request)] || (r.events == s.events && r.link.error.Some?)
  {
  }

  /** The events of a run are what its messages carried, up to where it stopped. */
  lemma {:induction false} EventsFollowInputs(parse: Parser, s: Session, inputs: seq<Input>)
    ensures s.events <= Run(parse, s, inputs).events <= s.events + Carried(inputs)
    decreases |inputs|
  {
    if inputs != [] {
      var next, rest := Step(parse, s, inputs[0]), inputs[1..];
      StepEvents(parse, s, inputs[0]);
      assert Carried(inputs) == Carried([inputs[0]]) + Carried(rest);
      if next.events == s.events + Carried([inputs[0]]) {
        EventsFollowInputs(parse, next, rest);
        Assoc(s.events, Carried([inputs[0]]), Carried(rest));
      } else {
        StoppedStaysStopped(parse, next, rest);
      }
    }
  }

  /** Nothing happens after an error or the end. */
  lemma {:induction false} StoppedStaysStopped(parse: Parser, s: Session, inputs: seq<Input>)
    requires !s.Running()
    ensures Run(parse, s, inputs) == s
    decreases |inputs|
  {
    if inputs != [] {
      StoppedStaysStopped(parse, s, inputs[1..]);
    }
  }
}
