/** What a finished run leaves behind and reports, in terms of the frames of its
    input: which attempt the evidence file holds and which one is reported. */
module Evidence {
  import opened Base
  import opened Framing
  import opened Writer
  import opened Capture
  import opened Trace
  import opened Runs

  /** The number of frames up to and including the last evicting one. */
  function LastEviction(parse: Parser, t: seq<Frame>): (k: nat)
    ensures k <= |t|
  {
    if t == [] then 0
    else if parse(t[|t| - 1].payload) == Some(Finished(Some(39))) then |t|
    else LastEviction(parse, t[..|t| - 1])
  }

  lemma {:induction false} LastEvictionIs(parse: Parser, t: seq<Frame>)
    ensures LastEviction(parse, t) > 0 ==> IsEvicted(parse, t[LastEviction(parse, t) - 1].payload)
    ensures forall i :: LastEviction(parse, t) <= i < |t| ==> !IsEvicted(parse, t[i].payload)
  {
    if t != [] && !IsEvicted(parse, t[|t| - 1].payload) {
      LastEvictionIs(parse, t[..|t| - 1]);
    }
  }

  /** An attempt was evicted and nothing has started since. */
  predicate Expecting(parse: Parser, t: seq<Frame>) {
    var k := LastEviction(parse, t);
    k > 0 && forall i :: k <= i < |t| ==> parse(t[i].payload) != Some(Started)
  }

  /** Frame `i` starts an expected retry. */
  predicate StartsRetry(parse: Parser, t: seq<Frame>, i: nat)
    requires i < |t|
  {
    parse(t[i].payload) == Some(Started) && Expecting(parse, t[..i])
  }

  /** The last frame that started an expected retry, or 0 when none did. */
  function LastRetry(parse: Parser, t: seq<Frame>): (r: nat)
    ensures r <= |t| && (t != [] ==> r < |t|)
  {
    if t == [] then 0
    else if StartsRetry(parse, t, |t| - 1) then |t| - 1
    else LastRetry(parse, t[..|t| - 1])
  }

  lemma {:induction false} LastRetryIs(parse: Parser, t: seq<Frame>)
    ensures LastRetry(parse, t) > 0 ==> StartsRetry(parse, t, LastRetry(parse, t))
    ensures forall i :: LastRetry(parse, t) < i < |t| ==> !StartsRetry(parse, t, i)
  {
    if t != [] && !StartsRetry(parse, t, |t| - 1) {
      var init := t[..|t| - 1];
      LastRetryIs(parse, init);
      forall i | 0 <= i < |init| ensures StartsRetry(parse, t, i) == StartsRetry(parse, init, i) {
        assert init[..i] == t[..i];
      }
    }
  }

  /** A subscriber that has observed exactly these frames. */
  function Observer(t: seq<Frame>): Subscriber {
    if t == [] then FRESH else Observer(t[..|t| - 1]).Observe(t[|t| - 1].payload)
  }

  /** The frames of the attempt that the last eviction set aside. */
  function Evicted(parse: Parser, t: seq<Frame>): seq<Frame> {
    var k := LastEviction(parse, t);
    if k == 0 then [] else t[LastEviction(parse, t[..k - 1])..k]
  }

  /** The frames since the last eviction. */
  function Current(parse: Parser, t: seq<Frame>): seq<Frame> {
    t[LastEviction(parse, t)..]
  }

  /** The frames an appended evidence file holds. */
  function Kept(parse: Parser, t: seq<Frame>): seq<Frame> {
    t[LastRetry(parse, t)..]
  }

  /** How one more frame moves the last eviction. */
  lemma {:induction false} EvictionSnoc(parse: Parser, t: seq<Frame>, last: Frame)
    ensures LastEviction(parse, t + [last]) ==
      if IsEvicted(parse, last.payload) then |t| + 1 else LastEviction(parse, t)
  {
    assert (t + [last])[..|t|] == t;
  }

  lemma ExpectingSnoc(parse: Parser, t: seq<Frame>, last: Frame)
    ensures Expecting(parse, t + [last]) ==
      (IsEvicted(parse, last.payload) || (Expecting(parse, t) && !IsStarted(parse, last.payload)))
  {
    EvictionSnoc(parse, t, last);
    var t' := t + [last];
    assert t'[|t|] == last && forall i :: 0 <= i < |t| ==> t'[i] == t[i];
  }

  lemma CurrentSnoc(parse: Parser, t: seq<Frame>, last: Frame)
    ensures Current(parse, t + [last]) ==
      if IsEvicted(parse, last.payload) then [] else Current(parse, t) + [last]
  {
    EvictionSnoc(parse, t, last);
    var k := LastEviction(parse, t);
    assert (t + [last])[k..] == t[k..] + [last];
  }

  lemma EvictedSnoc(parse: Parser, t: seq<Frame>, last: Frame)
    ensures Evicted(parse, t + [last]) ==
      if IsEvicted(parse, last.payload) then Current(parse, t) + [last] else Evicted(parse, t)
  {
    EvictionSnoc(parse, t, last);
    var t', k := t + [last], LastEviction(parse, t);
    if IsEvicted(parse, last.payload) {
      assert t'[..|t|] == t;
      assert t'[k..|t| + 1] == t[k..] + [last];
    } else if k > 0 {
      assert t'[..k - 1] == t[..k - 1];
      var k0 := LastEviction(parse, t[..k - 1]);
      assert t'[k0..k] == t[k0..k];
    }
  }

  /** How one more frame changes the kept evidence. */
  lemma KeptSnoc(parse: Parser, t: seq<Frame>, last: Frame)
    ensures Kept(parse, t + [last]) ==
      if Expecting(parse, t) && IsStarted(parse, last.payload) then [last] else Kept(parse, t) + [last]
  {
    var t' := t + [last];
    assert t'[..|t|] == t;
    var r := LastRetry(parse, t);
    assert t'[r..] == t[r..] + [last];
  }

  lemma {:induction false} ObserverSnoc(t: seq<Frame>, last: Frame)
    ensures Observer(t + [last]) == Observer(t).Observe(last.payload)
  {
    assert (t + [last])[..|t|] == t;
  }

  /** The attempts that the frames absorbed so far determine: whether a retry is
      awaited, the current attempt and the one set aside. */
  predicate TracksAttempts(parse: Parser, c: Core, t: seq<Frame>) {
    && c.expectingRetry == Expecting(parse, t)
    && c.reduction == Observer(Current(parse, t))
    && (c.expectingRetry ==> c.saved == Some(Observer(Evicted(parse, t))))
  }

  /** The evidence those frames leave: all of them hashed, or, in an appended
      file, exactly the ones from the last retry on. */
  predicate TracksEvidence(parse: Parser, appends: bool, d: DurableWriter, t: seq<Frame>) {
    && d.Append? == appends
    && d.Consistent()
    && d.hashed == (if appends then Raw(Kept(parse, t)) else Raw(t))
  }

  /** What a frame absorbed without an error did, step by step. */
  lemma AbsorbSteps(parse: Parser, c: Core, payload: Bytes, framed: Bytes)
    requires c.error.None? && c.durable.Consistent()
    ensures
      var c' := c.Absorb(parse, payload, framed);
      var retries := c.expectingRetry && IsStarted(parse, payload);
      var observed := c.reduction.Observe(payload);
      c'.error.None? ==>
        && c'.durable.Append? == c.durable.Append?
        && c'.durable.Consistent()
        && c'.durable.hashed == (if retries && c.durable.Append? then [] else c.durable.hashed) + framed
        && c'.expectingRetry == (IsEvicted(parse, payload) || (c.expectingRetry && !retries))
        && c'.reduction == (if IsEvicted(parse, payload) then FRESH else observed)
        && (IsEvicted(parse, payload) ==> c'.saved == Some(observed))
        && (!IsEvicted(parse, payload) && !retries ==> c'.saved == c.saved)
  {
    CommitAppends(c.durable, framed);
    if c.BeginRetry().error.None? {
      CommitAppends(c.BeginRetry().durable, framed);
    }
  }

  lemma AttemptsSnoc(parse: Parser, c: Core, t: seq<Frame>, last: Frame)
    requires TracksAttempts(parse, c, t) && c.error.None? && c.durable.Consistent()
    ensures
      var c' := c.Absorb(parse, last.payload, last.framed);
      c'.error.None? ==> TracksAttempts(parse, c', t + [last])
  {
    AbsorbSteps(parse, c, last.payload, last.framed);
    CurrentSnoc(parse, t, last);
    EvictedSnoc(parse, t, last);
    ExpectingSnoc(parse, t, last);
    ObserverSnoc(Current(parse, t), last);
  }

  lemma EvidenceSnoc(parse: Parser, appends: bool, c: Core, t: seq<Frame>, last: Frame)
    requires TracksEvidence(parse, appends, c.durable, t) && c.error.None?
    requires c.expectingRetry == Expecting(parse, t)
    ensures
      var c' := c.Absorb(parse, last.payload, last.framed);
      c'.error.None? ==> TracksEvidence(parse, appends, c'.durable, t + [last])
  {
    AbsorbSteps(parse, c, last.payload, last.framed);
    KeptSnoc(parse, t, last);
    RawSnoc(if appends then Kept(parse, t) else t, last);
    RawSnoc([], last);
    assert [] + [last] == [last];
  }

  /** A core that has absorbed these frames, and only these, without an error. */
  predicate Tracks(parse: Parser, appends: bool, c: Core, t: seq<Frame>) {
    TracksAttempts(parse, c, t) && TracksEvidence(parse, appends, c.durable, t)
  }

  lemma TracksSnoc(parse: Parser, appends: bool, c: Core, t: seq<Frame>, last: Frame)
    requires Tracks(parse, appends, c, t)
    ensures
      var c' := c.Absorb(parse, last.payload, last.framed);
      c'.error.None? ==> Tracks(parse, appends, c', t + [last])
  {
    if c.Absorb(parse, last.payload, last.framed).error.None? {
      AttemptsSnoc(parse, c, t, last);
      EvidenceSnoc(parse, appends, c, t, last);
    }
  }

  lemma {:induction false} AbsorbTracks(parse: Parser, appends: bool, core: Core, t: seq<Frame>)
    requires Tracks(parse, appends, core, [])
    requires AbsorbAll(parse, core, t).error.None?
    ensures Tracks(parse, appends, AbsorbAll(parse, core, t), t)
  {
    if t != [] {
      var init, last := t[..|t| - 1], t[|t| - 1];
      assert init + [last] == t;
      AbsorbUnfolds(parse, core, t);
      AbsorbTracks(parse, appends, core, init);
      TracksSnoc(parse, appends, AbsorbAll(parse, core, init), init, last);
    }
  }

  /** The last frame is absorbed last; an error before it stays. */
  lemma {:induction false} AbsorbUnfolds(parse: Parser, core: Core, t: seq<Frame>)
    requires t != []
    ensures
      var c, last := AbsorbAll(parse, core, t[..|t| - 1]), t[|t| - 1];
      && AbsorbAll(parse, core, t) == c.Absorb(parse, last.payload, last.framed)
      && (c.error.Some? ==> AbsorbAll(parse, core, t).error.Some?)
  {
  }

  /** Absorbing frames without an error keeps track of exactly those frames. */
  lemma {:induction false} FoldTracks(parse: Parser, w: DurableWriter, t: seq<Frame>)
    requires FreshWriter(w)
    requires AbsorbAll(parse, Start(w).seen.core, t).error.None?
    ensures Tracks(parse, w.Append?, AbsorbAll(parse, Start(w).seen.core, t), t)
  {
    AbsorbTracks(parse, w.Append?, Start(w).seen.core, t);
  }

  /** The evicted attempt is reported when nothing at all followed it. */
  predicate ReportsEvicted(parse: Parser, t: seq<Frame>) {
    Expecting(parse, t) && Current(parse, t) == []
  }

  function ReportedFrames(parse: Parser, t: seq<Frame>): seq<Frame> {
    if ReportsEvicted(parse, t) then Evicted(parse, t) else Current(parse, t)
  }

  function PayloadsOf(t: seq<Frame>): seq<Bytes> {
    seq(|t|, i requires 0 <= i < |t| => t[i].payload)
  }

  function PayloadBytes(t: seq<Frame>): nat {
    if t == [] then 0 else PayloadBytes(t[..|t| - 1]) + |t[|t| - 1].payload|
  }

  /** What an attempt of these frames reports by itself: their number and size. */
  function Tally(t: seq<Frame>): StreamOutcome {
    StreamOutcome(SatAdd(0, |t|), SatAdd(0, PayloadBytes(t)), None)
  }

  /** A subscriber has the payloads of its frames, and has counted them. */
  lemma {:induction false} ObserverTallies(t: seq<Frame>)
    ensures Observer(t).observed == PayloadsOf(t)
    ensures Observer(t).Outcome() == Tally(t)
  {
    if t != [] {
      ObserverTallies(t[..|t| - 1]);
      assert PayloadsOf(t) == PayloadsOf(t[..|t| - 1]) + [t[|t| - 1].payload];
    }
  }

  lemma {:induction false} TallySnoc(t: seq<Frame>, last: Frame)
    ensures Tally(t + [last]) ==
      StreamOutcome(SatAdd(Tally(t).eventCount, 1), SatAdd(Tally(t).decodedBytes, |last.payload|), None)
  {
    assert (t + [last])[..|t|] == t;
  }

  /** The decoder has counted the frames since the last eviction. */
  predicate Accounts(parse: Parser, st: State<seq<Frame>>) {
    var tally := Tally(Current(parse, st.seen));
    st.eventCount == tally.eventCount && st.decodedBytes == tally.decodedBytes
  }

  lemma {:induction false} VisitAccounts(parse: Parser, lim: Limits, st: State<seq<Frame>>, frame: Frame)
    requires Accounts(parse, st) && st.terminal.None?
    ensures
      var next := Visit(lim, LogHooks(parse), st.(pending := []), frame.payload, frame.framed);
      && (next.terminal != Some(DecodeFailed) ==> Accounts(parse, next))
      && next.eventCount == Tally(Current(parse, next.seen)).eventCount
  {
    LogVisit(parse, lim, st, frame.payload, frame.framed);
    CurrentSnoc(parse, st.seen, frame);
    TallySnoc(Current(parse, st.seen), frame);
  }

  lemma {:induction false} DrainAccounts(parse: Parser, lim: Limits, st: State<seq<Frame>>, s: Bytes)
    requires Accounts(parse, st) && st.terminal.None?
    ensures
      var l := Drain(lim, LogHooks(parse), st, s);
      && (l.terminal != Some(DecodeFailed) ==> Accounts(parse, l))
      && l.eventCount == Tally(Current(parse, l.seen)).eventCount
    decreases |s|
  {
    match Inspect(s, lim.maxFrame) {
      case Ok(Complete(prefix, length)) =>
        var total := SatAdd(prefix, length);
        VisitAccounts(parse, lim, st, Frame(s[prefix..total], s[..total]));
        var next := Visit(lim, LogHooks(parse), st.(pending := []), s[prefix..total], s[..total]);
        if next.terminal.None? {
          DrainAccounts(parse, lim, next, s[total..]);
        }
      case _ =>
    }
  }

  /** What a finished run reports, as a function of its input alone: the payloads of the
      evicted attempt with their number and size when nothing followed it, otherwise
      those since the last eviction with the decoder's own outcome. */
  function Reported(parse: Parser, lim: Limits, s: Bytes): (seq<Bytes>, StreamOutcome) {
    var l := Decoded(parse, lim, s);
    if ReportsEvicted(parse, l.seen) then (PayloadsOf(Evicted(parse, l.seen)), Tally(Evicted(parse, l.seen)))
    else (PayloadsOf(Current(parse, l.seen)), Outcome(l))
  }

  /** What a run keeps is a suffix of what it read. */
  lemma KeptIsSuffix(parse: Parser, lim: Limits, s: Bytes)
    ensures
      var t := Decoded(parse, lim, s).seen;
      Raw(t[..LastRetry(parse, t)]) + (Raw(Kept(parse, t)) + Rest(parse, lim, s)) == s
  {
    var t := Decoded(parse, lim, s).seen;
    var r := LastRetry(parse, t);
    DecodedCovers(parse, lim, s);
    RawAppend(t[..r], t[r..]);
    assert t[..r] + t[r..] == t;
    Assoc(Raw(t[..r]), Raw(t[r..]), Rest(parse, lim, s));
  }

  /** Both buffers agree between ingests, for every chunking and every script of
      system-call results: no frame is ever found missing from the raw buffer, a
      stopped decoder leaves that buffer empty, and an awaited retry has an
      attempt set aside. */
  lemma {:induction false} BuffersStayCoupled(parse: Parser, lim: Limits, w: DurableWriter, chunks: seq<Bytes>)
    requires FreshWriter(w)
    ensures
      var st := IngestedAll(parse, lim, Start(w), chunks);
      && st.seen.core.error in {None, Some(IoFailed)}
      && (st.seen.core.error.None? ==>
            && st.seen.raw == (if st.terminal.None? then st.pending else [])
            && (st.seen.core.expectingRetry ==> st.seen.core.saved.Some?))
  {
    StartReached(parse, lim, w);
    RunReaches(parse, lim, Start(w).seen.core, Start(w), [], chunks);
    assert [] + Flatten(chunks) == Flatten(chunks);
    RunCloses(parse, lim, w, chunks);
    var st := IngestedAll(parse, lim, Start(w), chunks);
    if st.seen.core.error.None? {
      FoldTracks(parse, w, Decoded(parse, lim, Flatten(chunks)).seen);
    }
  }

  /** Evidence conservation: when a run ends without an error, an appended file
      is exactly the suffix of the input from the last frame that started an
      expected retry (the whole input when none did), terminal errors and
      truncated tails included; a writer over persisted bytes has hashed all of
      the input. Hash and byte count always describe that evidence. */
  lemma {:induction false} EvidenceConserved(parse: Parser, lim: Limits, w: DurableWriter, chunks: seq<Bytes>)
    requires FreshWriter(w)
    ensures
      var st := IngestedAll(parse, lim, Start(w), chunks);
      var s := Flatten(chunks);
      var t := Decoded(parse, lim, s).seen;
      var d := Close(st).durable;
      st.seen.core.error.None? && Close(st).error.None? ==>
        && d.Append? == w.Append?
        && d.Consistent()
        && (w.AlreadyPersisted? ==> d.hashed == s)
        && (w.Append? ==>
              && d.file.data == Raw(Kept(parse, t)) + Rest(parse, lim, s)
              && Raw(t[..LastRetry(parse, t)]) + d.file.data == s)
  {
    var st := IngestedAll(parse, lim, Start(w), chunks);
    var s := Flatten(chunks);
    var t := Decoded(parse, lim, s).seen;
    RunCloses(parse, lim, w, chunks);
    if st.seen.core.error.None? && Close(st).error.None? {
      FoldTracks(parse, w, t);
      DecodedCovers(parse, lim, s);
      KeptIsSuffix(parse, lim, s);
    }
  }

  /** A run that has ingested `s` reports what `s` determines. */
  lemma ReachedReports(parse: Parser, lim: Limits, w: DurableWriter, st: State<Pipe>, s: Bytes)
    requires FreshWriter(w)
    requires Reached(parse, lim, Start(w).seen.core, st, s)
    ensures Conclude(st).Ok? ==> (Conclude(st).value.observed, Conclude(st).value.outcome) == Reported(parse, lim, s)
    ensures w.AlreadyPersisted? ==>
      Conclude(st).Ok? && Conclude(st).value.hashed == s && Conclude(st).value.durableBytes == SatAdd(0, |s|)
  {
    var core, t := Start(w).seen.core, Decoded(parse, lim, s).seen;
    ClosingReaches(parse, lim, core, st, s);
    FoldTracks(parse, w, t);
    DecodedCovers(parse, lim, s);
    ObserverTallies(Evicted(parse, t));
    ObserverTallies(Current(parse, t));
  }

  /** The outcome of an attempt is the number and the size of its payloads: with no
      error when it was evicted, else with the decoder's; an event that did not decode
      adds its size. */
  lemma {:induction false} ReportedCounts(parse: Parser, lim: Limits, s: Bytes)
    ensures
      var l := Decoded(parse, lim, s);
      var (observed, outcome) := Reported(parse, lim, s);
      var tally := Tally(ReportedFrames(parse, l.seen));
      && observed == PayloadsOf(ReportedFrames(parse, l.seen))
      && outcome.eventCount == tally.eventCount
      && (l.terminal != Some(DecodeFailed) || ReportsEvicted(parse, l.seen) ==>
            outcome.decodedBytes == tally.decodedBytes)
      && (ReportsEvicted(parse, l.seen) ==> outcome.terminalError.None?)
  {
    DrainAccounts(parse, lim, Initial([]), s);
  }

  /** Every finished run reports what its input determines, whatever the chunks,
      the writer and the script of system-call results. */
  lemma {:induction false} RunReports(parse: Parser, lim: Limits, w: DurableWriter, chunks: seq<Bytes>)
    requires FreshWriter(w)
    ensures
      var st := IngestedAll(parse, lim, Start(w), chunks);
      var r := Conclude(st);
      && (st.seen.core.error.None? && r.Ok? ==>
            && (r.value.observed, r.value.outcome) == Reported(parse, lim, Flatten(chunks))
            && var t := Decoded(parse, lim, Flatten(chunks)).seen;
               ReportsEvicted(parse, t) ==>
                 && r.value.observed == PayloadsOf(Evicted(parse, t))
                 && r.value.outcome == Tally(Evicted(parse, t)))
      && (w.AlreadyPersisted? ==> st.seen.core.error.None? && r.Ok?)
  {
    StartReached(parse, lim, w);
    RunReaches(parse, lim, Start(w).seen.core, Start(w), [], chunks);
    assert [] + Flatten(chunks) == Flatten(chunks);
    var st := IngestedAll(parse, lim, Start(w), chunks);
    if st.seen.core.error.None? {
      ReachedReports(parse, lim, w, st, Flatten(chunks));
    }
  }
}
