/** Re-running the pipeline over the evidence a live run left behind.

    The subscriber is replaced when an evicting frame arrives, the evidence file
    only when the retry's `Started` frame does. Frames between the two reach the
    live reduction but not the file, so the two runs need not agree; this module
    proves exactly when they do. */
module PostHoc {
  import opened Base
  import opened Framing
  import opened Writer
  import opened Capture
  import opened Trace
  import opened Runs
  import opened Evidence

  function EvidenceOf(parse: Parser, lim: Limits, s: Bytes): Bytes {
    Raw(Kept(parse, Decoded(parse, lim, s).seen)) + Rest(parse, lim, s)
  }

  /** No retry began; or the last one began directly after the eviction; or a
      later attempt was evicted too, and something followed that eviction. */
  predicate NothingLost(parse: Parser, t: seq<Frame>) {
    var r := LastRetry(parse, t);
    || r == 0
    || LastEviction(parse, t[..r]) == r
    || exists j :: r <= j < |t| - 1 && IsEvicted(parse, t[j].payload)
  }

  /** The decoder stopped because a stream limit was exceeded. */
  predicate LimitHit<V>(st: State<V>) {
    st.terminal.Some? && (st.terminal.value.StreamTooLarge? || st.terminal.value.TooManyEvents?)
  }

  // ------------------------------------------------- decoding part of a stream

  lemma {:induction false} SeenGrows(parse: Parser, lim: Limits, st: State<seq<Frame>>, s: Bytes)
    requires st.terminal.None?
    ensures st.seen <= Drain(lim, LogHooks(parse), st, s).seen
    decreases |s|
  {
    match Inspect(s, lim.maxFrame) {
      case Ok(Complete(prefix, length)) =>
        var total := SatAdd(prefix, length);
        LogVisit(parse, lim, st, s[prefix..total], s[..total]);
        var next := Visit(lim, LogHooks(parse), st.(pending := []), s[prefix..total], s[..total]);
        if next.terminal.None? {
          SeenGrows(parse, lim, next, s[total..]);
        }
      case _ =>
    }
  }

  /** Frames written down before do not influence the ones to come. */
  lemma {:induction false} LogShift(parse: Parser, lim: Limits, st: State<seq<Frame>>, g: seq<Frame>, s: Bytes)
    requires st.terminal.None?
    ensures
      var r := Drain(lim, LogHooks(parse), st, s);
      Drain(lim, LogHooks(parse), st.(seen := g + st.seen), s) == r.(seen := g + r.seen)
    decreases |s|
  {
    match Inspect(s, lim.maxFrame) {
      case Ok(Complete(prefix, length)) =>
        var total := SatAdd(prefix, length);
        var frame := Frame(s[prefix..total], s[..total]);
        var next := Visit(lim, LogHooks(parse), st.(pending := []), frame.payload, frame.framed);
        Assoc(g, st.seen, [frame]);
        if next.terminal.None? {
          LogShift(parse, lim, next, g, s[total..]);
        }
      case _ =>
    }
  }

  /** The first of the frames still to come. */
  lemma FirstFrame(parse: Parser, lim: Limits, st: State<seq<Frame>>, s: Bytes)
    returns (next: State<seq<Frame>>, frame: Frame, rest: Bytes)
    requires st.terminal.None?
    requires |st.seen| < |Drain(lim, LogHooks(parse), st, s).seen|
    ensures |rest| < |s|
    ensures next.terminal.None? && next.pending == [] && next.seen == st.seen + [frame]
    ensures Drain(lim, LogHooks(parse), next, rest) == Drain(lim, LogHooks(parse), st, s)
    ensures s == frame.framed + rest
    ensures IsEvicted(parse, frame.payload) ==> next.decodedBytes == 0 && next.eventCount == 0
  {
    var Ok(Complete(prefix, length)) := Inspect(s, lim.maxFrame);
    var total := SatAdd(prefix, length);
    frame, rest := Frame(s[prefix..total], s[..total]), s[total..];
    DrainStarts(lim, LogHooks(parse), st, s, prefix, length);
    LogVisit(parse, lim, st, frame.payload, frame.framed);
    next := Visit(lim, LogHooks(parse), st.(pending := []), frame.payload, frame.framed);
  }

  /** A stream can be cut after any of its frames; after an evicting frame the
      accounting starts from zero. */
  lemma {:induction false} CutAfter(parse: Parser, lim: Limits, st: State<seq<Frame>>, s: Bytes, k: nat)
    returns (mid: State<seq<Frame>>, rest: Bytes)
    requires st.terminal.None? && st.pending == []
    requires |st.seen| < k <= |Drain(lim, LogHooks(parse), st, s).seen|
    ensures mid.terminal.None? && mid.pending == [] && |mid.seen| == k
    ensures Drain(lim, LogHooks(parse), mid, rest) == Drain(lim, LogHooks(parse), st, s)
    ensures Raw(mid.seen) + rest == Raw(st.seen) + s
    ensures IsEvicted(parse, mid.seen[k - 1].payload) ==> mid.decodedBytes == 0 && mid.eventCount == 0
    decreases |s|
  {
    var frame;
    mid, frame, rest := FirstFrame(parse, lim, st, s);
    RawSnoc(st.seen, frame);
    Assoc(Raw(st.seen), frame.framed, rest);
    if k > |mid.seen| {
      mid, rest := CutAfter(parse, lim, mid, rest, k);
    }
  }

  /** One frame, seen by two decoders of which the second has less on its account. */
  lemma FresherStep(parse: Parser, lim: Limits, a: State<seq<Frame>>, b: State<seq<Frame>>, frame: Frame)
    requires a.terminal.None? && b.terminal.None? && a.seen == b.seen
    requires b.decodedBytes <= a.decodedBytes && b.eventCount <= a.eventCount
    ensures
      var a' := Visit(lim, LogHooks(parse), a.(pending := []), frame.payload, frame.framed);
      var b' := Visit(lim, LogHooks(parse), b.(pending := []), frame.payload, frame.framed);
      if a'.terminal.None? then
        && b'.terminal.None? && a'.seen == b'.seen == a.seen + [frame]
        && b'.decodedBytes <= a'.decodedBytes && b'.eventCount <= a'.eventCount
        && (IsEvicted(parse, frame.payload) ==> a' == b')
      else
        && a'.seen == a.seen
        && (LimitHit(a') || (b'.terminal.Some? && b'.seen == a.seen))
        && (b'.terminal.Some? ==> b'.seen == a.seen)
        && (b'.terminal.None? ==> b'.seen == a.seen + [frame])
  {
  }

  /** A decoder with less on its account sees at least as many frames; the two
      see the same ones unless the first was stopped by a stream limit, and end
      in the same state once both have passed an evicting frame. */
  lemma {:induction false} FresherSeesMore(
    parse: Parser, lim: Limits, a: State<seq<Frame>>, b: State<seq<Frame>>, s: Bytes)
    requires a.terminal.None? && b.terminal.None? && a.seen == b.seen
    requires b.decodedBytes <= a.decodedBytes && b.eventCount <= a.eventCount
    ensures
      var la := Drain(lim, LogHooks(parse), a, s);
      var lb := Drain(lim, LogHooks(parse), b, s);
      && la.seen <= lb.seen
      && (!LimitHit(la) ==> la.seen == lb.seen)
      && ((exists i :: |a.seen| <= i < |la.seen| && IsEvicted(parse, la.seen[i].payload)) ==> la == lb)
    decreases |s|
  {
    match Inspect(s, lim.maxFrame) {
      case Ok(Complete(prefix, length)) =>
        var total := SatAdd(prefix, length);
        var frame := Frame(s[prefix..total], s[..total]);
        FresherStep(parse, lim, a, b, frame);
        var a' := Visit(lim, LogHooks(parse), a.(pending := []), frame.payload, frame.framed);
        var b' := Visit(lim, LogHooks(parse), b.(pending := []), frame.payload, frame.framed);
        if a'.terminal.None? {
          if !IsEvicted(parse, frame.payload) {
            FresherSeesMore(parse, lim, a', b', s[total..]);
            SeenGrows(parse, lim, a', s[total..]);
          }
        } else if b'.terminal.None? {
          SeenGrows(parse, lim, b', s[total..]);
        }
      case _ =>
    }
  }

  // ------------------------------------------------ attempts of part of a stream

  lemma {:induction false} EvictionOfSuffix(parse: Parser, t: seq<Frame>, r: nat)
    requires r <= |t|
    ensures LastEviction(parse, t[r..]) == SatSub(LastEviction(parse, t), r)
  {
    var k, k' := LastEviction(parse, t), LastEviction(parse, t[r..]);
    LastEvictionIs(parse, t);
    LastEvictionIs(parse, t[r..]);
    assert k > r ==> t[r..][k - 1 - r] == t[k - 1];
    assert k' > 0 ==> t[r..][k' - 1] == t[r + k' - 1];
  }

  lemma {:induction false} CurrentOfSuffix(parse: Parser, t: seq<Frame>, r: nat)
    requires r <= LastEviction(parse, t)
    ensures Current(parse, t[r..]) == Current(parse, t)
  {
    EvictionOfSuffix(parse, t, r);
    DropDrop(t, r, LastEviction(parse, t) - r);
  }

  lemma {:induction false} ExpectingOfSuffix(parse: Parser, t: seq<Frame>, r: nat)
    requires r < |t| && IsStarted(parse, t[r].payload)
    requires r <= LastEviction(parse, t)
    ensures Expecting(parse, t[r..]) == Expecting(parse, t)
  {
    EvictionOfSuffix(parse, t, r);
    var u := t[r..];
    assert forall i :: 0 <= i < |u| ==> u[i] == t[i + r];
    assert forall i :: r <= i < |t| ==> t[i] == u[i - r];
  }

  lemma {:induction false} EvictedOfSuffix(parse: Parser, t: seq<Frame>, last: Frame, r: nat)
    requires r <= LastEviction(parse, t)
    requires IsEvicted(parse, last.payload)
    ensures Evicted(parse, (t + [last])[r..]) == Evicted(parse, t + [last])
  {
    CurrentOfSuffix(parse, t, r);
    DropSnoc(t, r, last);
    EvictedSnoc(parse, t, last);
    EvictedSnoc(parse, t[r..], last);
  }

  // ------------------------------------------------------------- the two runs

  /** The decoder after its first `r` frames, with those forgotten, on the rest of the
      stream. */
  lemma Relived(parse: Parser, lim: Limits, s: Bytes, r: nat, e: Bytes) returns (mid: State<seq<Frame>>)
    requires 0 < r <= |Decoded(parse, lim, s).seen|
    requires Raw(Decoded(parse, lim, s).seen[..r]) + e == s
    ensures mid.terminal.None? && mid.pending == [] && mid.seen == []
    ensures
      var l := Decoded(parse, lim, s);
      && Drain(lim, LogHooks(parse), mid, e) == l.(seen := l.seen[r..])
      && (IsEvicted(parse, l.seen[r - 1].payload) ==> mid.decodedBytes == 0 && mid.eventCount == 0)
  {
    var t := Decoded(parse, lim, s).seen;
    var cut, rest := CutAfter(parse, lim, Initial([]), s, r);
    SeenGrows(parse, lim, cut, rest);
    assert cut.seen == t[..r];
    assert Raw([]) + s == s;
    Cancel(Raw(t[..r]), rest, e);
    mid := cut.(seen := []);
    assert cut.seen + [] == cut.seen;
    LogShift(parse, lim, mid, cut.seen, e);
    assert t == t[..r] + t[r..];
    Cancel(t[..r], Drain(lim, LogHooks(parse), mid, e).seen, t[r..]);
  }

  lemma EvidenceAfterRetry(parse: Parser, lim: Limits, s: Bytes, r: nat, e: Bytes)
    requires 0 < r <= |Decoded(parse, lim, s).seen|
    requires Raw(Decoded(parse, lim, s).seen[..r]) + e == s
    ensures
      var l, l' := Decoded(parse, lim, s), Decoded(parse, lim, e);
      && l.seen[r..] <= l'.seen
      && (!LimitHit(l) ==> l'.seen == l.seen[r..])
      && (LastEviction(parse, l.seen[..r]) == r
          || (exists j :: r <= j < |l.seen| - 1 && IsEvicted(parse, l.seen[j].payload)) ==>
            l' == l.(seen := l.seen[r..]))
  {
    var t := Decoded(parse, lim, s).seen;
    var mid := Relived(parse, lim, s, r, e);
    FresherSeesMore(parse, lim, mid, Initial([]), e);
    LastEvictionIs(parse, t[..r]);
    if j :| r <= j < |t| - 1 && IsEvicted(parse, t[j].payload) {
      assert IsEvicted(parse, t[r..][j - r].payload);
    }
  }

  /** Re-decoding the evidence sees the kept frames, only those unless a limit
      was hit, and in the same final state when nothing was lost. */
  lemma EvidenceDecodes(parse: Parser, lim: Limits, s: Bytes)
    ensures
      var l := Decoded(parse, lim, s);
      var l' := Decoded(parse, lim, EvidenceOf(parse, lim, s));
      && Kept(parse, l.seen) <= l'.seen
      && (!LimitHit(l) ==> l'.seen == Kept(parse, l.seen))
      && (NothingLost(parse, l.seen) ==> l' == l.(seen := Kept(parse, l.seen)))
  {
    var l := Decoded(parse, lim, s);
    var t, r, e := l.seen, LastRetry(parse, l.seen), EvidenceOf(parse, lim, s);
    KeptIsSuffix(parse, lim, s);
    if r == 0 {
      assert t[..0] == [] && t[0..] == t;
      assert [] + e == e;
    } else {
      EvidenceAfterRetry(parse, lim, s, r, e);
    }
  }

  /** When nothing was lost, the kept frames report what all frames report. */
  lemma KeptReports(parse: Parser, t: seq<Frame>)
    requires NothingLost(parse, t)
    ensures
      var kept := Kept(parse, t);
      && Current(parse, kept) == Current(parse, t)
      && Expecting(parse, kept) == Expecting(parse, t)
      && (Current(parse, t) == [] ==> Evicted(parse, kept) == Evicted(parse, t))
  {
    var r := LastRetry(parse, t);
    LastRetryIs(parse, t);
    if r == 0 {
      assert t[0..] == t;
    } else {
      var n := |t| - 1;
      assert t == t[..n] + [t[n]];
      assert r <= LastEviction(parse, t[..n]) by {
        EvictionReaches(parse, t, r);
      }
      CurrentOfSuffix(parse, t, r);
      ExpectingOfSuffix(parse, t, r);
      if LastEviction(parse, t) == |t| {
        EvictedOfSuffix(parse, t[..n], t[n], r);
      }
    }
  }

  lemma EvictionReaches(parse: Parser, t: seq<Frame>, r: nat)
    requires 0 < r < |t|
    requires
      || LastEviction(parse, t[..r]) == r
      || exists j :: r <= j < |t| - 1 && IsEvicted(parse, t[j].payload)
    ensures r <= LastEviction(parse, t[..|t| - 1])
  {
    var u := t[..|t| - 1];
    LastEvictionIs(parse, u);
    LastEvictionIs(parse, t[..r]);
    if LastEviction(parse, t[..r]) == r {
      assert t[..r][r - 1] == u[r - 1];
    } else {
      var j :| r <= j < |t| - 1 && IsEvicted(parse, t[j].payload);
      assert u[j] == t[j];
    }
  }

  /** The frame that came last and the ones since the eviction before it are reported. */
  lemma ReportedSnoc(parse: Parser, u: seq<Frame>, last: Frame)
    ensures ReportedFrames(parse, u + [last]) == Current(parse, u) + [last]
  {
    CurrentSnoc(parse, u, last);
    EvictedSnoc(parse, u, last);
    ExpectingSnoc(parse, u, last);
  }

  lemma {:induction false} ReportedFirst(parse: Parser, u: seq<Frame>, last: Frame)
    ensures ReportedFrames(parse, u + [last]) != []
    ensures ReportedFrames(parse, u + [last])[0] == (u + [last])[LastEviction(parse, u)]
  {
    ReportedSnoc(parse, u, last);
    DropSnoc(u, LastEviction(parse, u), last);
  }

  /** When frames were lost, the live run reports one that came before the retry
      started, and the kept frames report the retry's start first. */
  lemma LostFramesShow(parse: Parser, t: seq<Frame>)
    requires !NothingLost(parse, t)
    ensures
      var live := ReportedFrames(parse, t);
      var kept := ReportedFrames(parse, Kept(parse, t));
      && live != [] && !IsStarted(parse, live[0].payload)
      && kept != [] && IsStarted(parse, kept[0].payload)
  {
    var r, u, last := LastRetry(parse, t), t[..|t| - 1], t[|t| - 1];
    var k := LastEviction(parse, t[..r]);
    LastRetryIs(parse, t);
    assert u[..r] == t[..r];
    EvictionStays(parse, u, r);
    EvictionOfSuffix(parse, u, r);
    assert u + [last] == t;
    DropSnoc(u, r, last);
    assert t[..r][k] == t[k];
    ReportedFirst(parse, u, last);
    ReportedFirst(parse, u[r..], last);
  }

  lemma {:induction false} EvictionStays(parse: Parser, u: seq<Frame>, r: nat)
    requires r <= |u| && forall j :: r <= j < |u| ==> !IsEvicted(parse, u[j].payload)
    ensures LastEviction(parse, u) == LastEviction(parse, u[..r])
  {
    var k, k' := LastEviction(parse, u), LastEviction(parse, u[..r]);
    LastEvictionIs(parse, u);
    LastEvictionIs(parse, u[..r]);
    assert k' > 0 ==> u[..r][k' - 1] == u[k' - 1];
    assert 0 < k <= r ==> u[..r][k - 1] == u[k - 1];
  }

  /** The re-run reads past where the live run stopped, or up to its last frame,
      and meets an evicting frame there. */
  predicate PassesEviction(parse: Parser, lim: Limits, s: Bytes) {
    var kept := Kept(parse, Decoded(parse, lim, s).seen);
    var again := Decoded(parse, lim, EvidenceOf(parse, lim, s)).seen;
    exists i :: 0 <= i < |again| && |kept| - 1 <= i && IsEvicted(parse, again[i].payload)
  }

  lemma UnevictedReports(parse: Parser, t: seq<Frame>)
    requires forall i :: 0 <= i < |t| ==> !IsEvicted(parse, t[i].payload)
    ensures ReportedFrames(parse, t) == t
  {
    LastEvictionIs(parse, t);
  }

  /** The two runs agree whenever nothing was lost ... */
  lemma PostHocAgrees(parse: Parser, lim: Limits, s: Bytes)
    requires NothingLost(parse, Decoded(parse, lim, s).seen)
    ensures Reported(parse, lim, EvidenceOf(parse, lim, s)) == Reported(parse, lim, s)
  {
    EvidenceDecodes(parse, lim, s);
    KeptReports(parse, Decoded(parse, lim, s).seen);
  }

  /** ... and, when frames were lost, only if the re-run read on after a stream limit
      stopped the live run and met another eviction. */
  lemma LostFramesDisagree(parse: Parser, lim: Limits, s: Bytes)
    requires !NothingLost(parse, Decoded(parse, lim, s).seen)
    requires LimitHit(Decoded(parse, lim, s)) ==> !PassesEviction(parse, lim, s)
    ensures Reported(parse, lim, EvidenceOf(parse, lim, s)).0 != Reported(parse, lim, s).0
  {
    var t := Decoded(parse, lim, s).seen;
    var kept, again := Kept(parse, t), Decoded(parse, lim, EvidenceOf(parse, lim, s)).seen;
    EvidenceDecodes(parse, lim, s);
    LostFramesShow(parse, t);
    if LimitHit(Decoded(parse, lim, s)) {
      ReadingOnReports(parse, t, again);
    }
    assert PayloadsOf(ReportedFrames(parse, t))[0] != PayloadsOf(ReportedFrames(parse, again))[0];
  }

  lemma ReadingOnReports(parse: Parser, t: seq<Frame>, again: seq<Frame>)
    requires !NothingLost(parse, t) && Kept(parse, t) <= again
    requires forall i :: 0 <= i < |again| && |Kept(parse, t)| - 1 <= i ==> !IsEvicted(parse, again[i].payload)
    ensures ReportedFrames(parse, again) == again && again != [] && IsStarted(parse, again[0].payload)
  {
    var r := LastRetry(parse, t);
    LastRetryIs(parse, t);
    assert forall i :: 0 <= i < |t| - r ==> again[i] == Kept(parse, t)[i] == t[i + r];
    UnevictedReports(parse, again);
  }

  /** The reports agree exactly when nothing was lost, unless a stream limit stopped
      the live run and the re-run, reading on, passed another eviction. */
  lemma PostHocAgreesExactly(parse: Parser, lim: Limits, s: Bytes)
    requires !(LimitHit(Decoded(parse, lim, s)) && PassesEviction(parse, lim, s))
    ensures Reported(parse, lim, EvidenceOf(parse, lim, s)) == Reported(parse, lim, s)
      <==> NothingLost(parse, Decoded(parse, lim, s).seen)
  {
    if NothingLost(parse, Decoded(parse, lim, s).seen) {
      PostHocAgrees(parse, lim, s);
    } else {
      LostFramesDisagree(parse, lim, s);
    }
  }

  predicate SameReport(a: Output, b: Output) {
    a.observed == b.observed && a.outcome == b.outcome
  }

  /** The bytes of a run, through its pipeline and then through a second one that
      reads the evidence back in any chunks: both report the same events and
      outcome when nothing was lost, whatever retries and errors there were, and
      exactly then unless a stream limit stopped the live run and the re-run,
      reading on, passed another eviction. */
  lemma {:induction false} RerunAgrees(
    parse: Parser, lim: Limits, w: DurableWriter, chunks: seq<Bytes>, again: seq<Bytes>)
    requires FreshWriter(w) && w.Append?
    requires IngestedAll(parse, lim, Start(w), chunks).seen.core.error.None?
    requires Close(IngestedAll(parse, lim, Start(w), chunks)).error.None?
    requires Close(IngestedAll(parse, lim, Start(w), chunks)).durable.Append?
    requires Flatten(again) == Close(IngestedAll(parse, lim, Start(w), chunks)).durable.file.data
    ensures
      var live := Conclude(IngestedAll(parse, lim, Start(w), chunks));
      var rerun := Conclude(IngestedAll(parse, lim, Start(AlreadyPersisted([], 0)), again));
      var s := Flatten(chunks);
      var l := Decoded(parse, lim, s);
      && live.Ok? && rerun.Ok?
      && (NothingLost(parse, l.seen) ==> SameReport(live.value, rerun.value))
      && (!(LimitHit(l) && PassesEviction(parse, lim, s)) ==>
            (SameReport(live.value, rerun.value) <==> NothingLost(parse, l.seen)))
  {
    var s := Flatten(chunks);
    RunReports(parse, lim, w, chunks);
    RunReports(parse, lim, AlreadyPersisted([], 0), again);
    EvidenceConserved(parse, lim, w, chunks);
    if NothingLost(parse, Decoded(parse, lim, s).seen) {
      PostHocAgrees(parse, lim, s);
    } else if !(LimitHit(Decoded(parse, lim, s)) && PassesEviction(parse, lim, s)) {
      LostFramesDisagree(parse, lim, s);
    }
  }

  /** Nothing is lost when every frame that directly follows an evicting one is a
      `Started` frame. */
  lemma PromptRetriesLoseNothing(parse: Parser, t: seq<Frame>)
    requires forall i :: 0 < i < |t| && IsEvicted(parse, t[i - 1].payload) ==> IsStarted(parse, t[i].payload)
    ensures NothingLost(parse, t)
  {
    var r := LastRetry(parse, t);
    LastRetryIs(parse, t);
    if r > 0 {
      var k := LastEviction(parse, t[..r]);
      LastEvictionIs(parse, t[..r]);
      assert forall i :: 0 <= i < r ==> t[..r][i] == t[i];
      assert IsStarted(parse, t[k].payload);
    }
  }
}
