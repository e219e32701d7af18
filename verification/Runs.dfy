/** Whole runs of a capture pipeline: whatever the chunks, a run that reported no
    error is in the state that its concatenated input determines. */
module Runs {
  import opened Base
  import opened Framing
  import opened Writer
  import opened Capture
  import opened Trace

  /** The writers a pipeline is created with: nothing hashed, an empty file, and
      any script of system-call results. */
  predicate FreshWriter(w: DurableWriter) {
    && w.hashed == [] && w.bytes == 0
    && (w.Append? ==> w.file.data == [] && w.file.pos == 0)
  }

  function Rest(parse: Parser, lim: Limits, s: Bytes): Bytes {
    Unvisited(lim, LogHooks(parse), Initial([]), s)
  }

  /** `b` is `a` with `more` bytes made durable and nothing else changed. */
  predicate Extends(a: Core, b: Core, more: Bytes) {
    && b.reduction == a.reduction && b.saved == a.saved && b.expectingRetry == a.expectingRetry
    && a.error.None? && b.error.None?
    && b.durable.Append? == a.durable.Append?
    && b.durable.Consistent()
    && b.durable.hashed == a.durable.hashed + more
  }

  /** The state of a pipeline that has ingested exactly `s` without an error. */
  predicate Reached(parse: Parser, lim: Limits, core: Core, st: State<Pipe>, s: Bytes) {
    var l := Decoded(parse, lim, s);
    var folded := AbsorbAll(parse, core, l.seen);
    && SameDecoder(st, l)
    && st.seen.core.error.None?
    && (l.terminal.None? ==> st.seen == Pipe(folded, l.pending))
    && (l.terminal.Some? ==> st.seen.raw == [] && Extends(folded, st.seen.core, Rest(parse, lim, s)))
  }

  lemma {:induction false} FoldConsistent(parse: Parser, core: Core, frames: seq<Frame>)
    requires core.durable.Consistent()
    ensures
      var c := AbsorbAll(parse, core, frames);
      && c.durable.Append? == core.durable.Append?
      && (c.error.None? ==> c.durable.Consistent())
      && (core.error.None? && core.durable.AlreadyPersisted? ==> c.error.None?)
      && (core.error.None? ==> c.error in {None, Some(IoFailed)})
  {
    if frames != [] {
      FoldConsistent(parse, core, frames[..|frames| - 1]);
      var c := AbsorbAll(parse, core, frames[..|frames| - 1]);
      var last := frames[|frames| - 1];
      if c.error.None? {
        var c1 := if c.expectingRetry && IsStarted(parse, last.payload) then c.BeginRetry() else c;
        if c1.error.None? {
          CommitAppends(c1.durable, last.framed);
        }
      }
    }
  }

  /** The frames of a stream followed by its rest are the stream. */
  lemma DecodedCovers(parse: Parser, lim: Limits, s: Bytes)
    ensures Raw(Decoded(parse, lim, s).seen) + Rest(parse, lim, s) == s
    ensures Decoded(parse, lim, s).terminal.None? ==> Decoded(parse, lim, s).pending == Rest(parse, lim, s)
  {
    FramesCoverStream(parse, lim, Initial([]), s);
    RestIsPending(lim, LogHooks(parse), Initial([]), s);
    assert Raw([]) + s == s;
  }

  /** Decoding resumes where it stopped. */
  lemma DecodedResumes(parse: Parser, lim: Limits, s: Bytes, x: Bytes)
    ensures Decoded(parse, lim, s + x) == Push(lim, LogHooks(parse), Decoded(parse, lim, s), x)
  {
    DrainSplit(lim, LogHooks(parse), Initial([]), s, x);
  }

  /** ... and the rest is what the resumed decoder leaves of its bytes. */
  lemma {:induction false} RestResumes(parse: Parser, lim: Limits, s: Bytes, x: Bytes)
    ensures
      var l := Decoded(parse, lim, s);
      Rest(parse, lim, s + x) ==
        if l.terminal.None? then Unvisited(lim, LogHooks(parse), l, l.pending + x) else Rest(parse, lim, s) + x
  {
    var l := Decoded(parse, lim, s);
    var all := Raw(Decoded(parse, lim, s + x).seen);
    DecodedResumes(parse, lim, s, x);
    DecodedCovers(parse, lim, s);
    DecodedCovers(parse, lim, s + x);
    if l.terminal.None? {
      FramesCoverStream(parse, lim, l, l.pending + x);
      Assoc(Raw(l.seen), l.pending, x);
      Cancel(all, Rest(parse, lim, s + x), Unvisited(lim, LogHooks(parse), l, l.pending + x));
    } else {
      Assoc(all, Rest(parse, lim, s), x);
      Cancel(all, Rest(parse, lim, s + x), Rest(parse, lim, s) + x);
    }
  }

  /** One more chunk: an ingest without error moves from the state of `s` to the
      state of `s + x`, and the only error there can be is one of the writer's. */
  lemma IngestReaches(parse: Parser, lim: Limits, core: Core, st: State<Pipe>, s: Bytes, x: Bytes)
    requires core.error.None? && core.durable.Consistent()
    requires Reached(parse, lim, core, st, s)
    ensures
      var next := Ingested(parse, lim, st, x);
      && (next.seen.core.error.None? ==> Reached(parse, lim, core, next, s + x))
      && next.seen.core.error in {None, Some(IoFailed)}
      && (core.durable.AlreadyPersisted? ==> next.seen.core.error.None?)
  {
    if x == [] {
      assert s + x == s;
    } else if st.terminal.Some? {
      IngestReachesStopped(parse, lim, core, st, s, x);
    } else {
      IngestReachesLive(parse, lim, core, st, s, x);
    }
  }

  lemma IngestReachesStopped(parse: Parser, lim: Limits, core: Core, st: State<Pipe>, s: Bytes, x: Bytes)
    requires core.error.None? && core.durable.Consistent()
    requires Reached(parse, lim, core, st, s) && st.terminal.Some? && x != []
    ensures
      var next := Ingested(parse, lim, st, x);
      && (next.seen.core.error.None? ==> Reached(parse, lim, core, next, s + x))
      && next.seen.core.error in {None, Some(IoFailed)}
      && (core.durable.AlreadyPersisted? ==> next.seen.core.error.None?)
  {
    var folded := AbsorbAll(parse, core, Decoded(parse, lim, s).seen);
    DecodedResumes(parse, lim, s, x);
    RestResumes(parse, lim, s, x);
    FoldConsistent(parse, core, Decoded(parse, lim, s).seen);
    CommitAppends(st.seen.core.durable, x);
    Assoc(folded.durable.hashed, Rest(parse, lim, s), x);
  }

  lemma IngestReachesLive(parse: Parser, lim: Limits, core: Core, st: State<Pipe>, s: Bytes, x: Bytes)
    requires core.error.None? && core.durable.Consistent()
    requires Reached(parse, lim, core, st, s) && st.terminal.None? && x != []
    ensures
      var next := Ingested(parse, lim, st, x);
      && (next.seen.core.error.None? ==> Reached(parse, lim, core, next, s + x))
      && next.seen.core.error in {None, Some(IoFailed)}
      && (core.durable.AlreadyPersisted? ==> next.seen.core.error.None?)
  {
    PushReaches(parse, lim, core, st, s, x);
    FoldConsistent(parse, core, Decoded(parse, lim, s + x).seen);
    DecodedCovers(parse, lim, s + x);
    var fed := st.(seen := st.seen.(raw := st.seen.raw + x));
    var pushed := Push(lim, PipeHooks(parse), fed, x);
    if pushed.seen.core.error.None? && pushed.terminal.Some? {
      HeldCommitted(pushed.seen);
    }
  }

  /** Committing what is held adds it to the evidence, or fails and keeps it. */
  lemma HeldCommitted(p: Pipe)
    requires p.core.error.None? && p.core.durable.Consistent()
    ensures
      var q := CommitHeld(p);
      && q.core.error in {None, Some(IoFailed)}
      && (q.core.error.None? ==> q.raw == [] && Extends(p.core, q.core, p.raw))
      && (p.core.durable.AlreadyPersisted? ==> q.core.error.None?)
  {
    CommitAppends(p.core.durable, p.raw);
    assert p.core.durable.hashed + [] == p.core.durable.hashed;
  }

  /** What the decoder does to the pipeline within one ingest. */
  lemma {:induction false} PushReaches(parse: Parser, lim: Limits, core: Core, st: State<Pipe>, s: Bytes, x: Bytes)
    requires Reached(parse, lim, core, st, s) && st.terminal.None?
    ensures
      var pushed := Push(lim, PipeHooks(parse), st.(seen := st.seen.(raw := st.seen.raw + x)), x);
      var l := Decoded(parse, lim, s + x);
      && pushed.seen.core == AbsorbAll(parse, core, l.seen)
      && (pushed.seen.core.error.None? ==> SameDecoder(pushed, l) && pushed.seen.raw == Rest(parse, lim, s + x))
  {
    var l := Decoded(parse, lim, s);
    DecodedResumes(parse, lim, s, x);
    RestResumes(parse, lim, s, x);
    var fed := st.(seen := st.seen.(raw := st.seen.raw + x));
    PipelineFollowsFrames(parse, lim, core, fed, l, l.pending + x);
  }

  /** Every run: the chunks a pipeline accepted matter only through their
      concatenation. */
  lemma {:induction false} RunReaches(
    parse: Parser, lim: Limits, core: Core, st: State<Pipe>, s: Bytes, chunks: seq<Bytes>)
    requires core.error.None? && core.durable.Consistent()
    requires Reached(parse, lim, core, st, s)
    ensures
      var end := IngestedAll(parse, lim, st, chunks);
      && (end.seen.core.error.None? ==> Reached(parse, lim, core, end, s + Flatten(chunks)))
      && end.seen.core.error in {None, Some(IoFailed)}
      && (core.durable.AlreadyPersisted? ==> end.seen.core.error.None?)
    decreases |chunks|
  {
    if chunks == [] {
      assert s + [] == s;
    } else {
      IngestReaches(parse, lim, core, st, s, chunks[0]);
      var next := Ingested(parse, lim, st, chunks[0]);
      if next.seen.core.error.None? {
        RunReaches(parse, lim, core, next, s + chunks[0], chunks[1..]);
        Assoc(s, chunks[0], Flatten(chunks[1..]));
      }
    }
  }

  lemma StartReached(parse: Parser, lim: Limits, w: DurableWriter)
    requires FreshWriter(w)
    ensures Reached(parse, lim, Start(w).seen.core, Start(w), [])
  {
  }

  lemma CloseAppends(st: State<Pipe>)
    requires st.seen.core.error.None? && st.seen.core.durable.Consistent()
    ensures Close(st).error.None? ==> Extends(st.seen.core, Close(st), st.seen.raw)
    ensures st.seen.core.durable.AlreadyPersisted? ==> Close(st).error.None?
  {
    CommitAppends(st.seen.core.durable, st.seen.raw);
    assert st.seen.core.durable.hashed + [] == st.seen.core.durable.hashed;
  }

  lemma ExtendsNothing(a: Core, b: Core, c: Core, more: Bytes)
    requires Extends(a, b, more) && Extends(b, c, [])
    ensures Extends(a, c, more)
  {
    assert b.durable.hashed + [] == b.durable.hashed;
  }

  /** Closing a run makes the undecoded rest of its input durable. */
  lemma {:induction false} ClosingReaches(parse: Parser, lim: Limits, core: Core, st: State<Pipe>, s: Bytes)
    requires core.error.None? && core.durable.Consistent()
    requires Reached(parse, lim, core, st, s)
    ensures
      var closed := Close(st);
      var folded := AbsorbAll(parse, core, Decoded(parse, lim, s).seen);
      && folded.error.None?
      && (closed.error.None? ==> Extends(folded, closed, Rest(parse, lim, s)))
      && (core.durable.AlreadyPersisted? ==> closed.error.None?)
  {
    var folded := AbsorbAll(parse, core, Decoded(parse, lim, s).seen);
    FoldConsistent(parse, core, Decoded(parse, lim, s).seen);
    CloseAppends(st);
    if st.terminal.None? {
      DecodedCovers(parse, lim, s);
    } else if Close(st).error.None? {
      ExtendsNothing(folded, st.seen.core, Close(st), Rest(parse, lim, s));
    }
  }

  /** All the chunks of a run, then the end of it. */
  lemma {:induction false} RunCloses(parse: Parser, lim: Limits, w: DurableWriter, chunks: seq<Bytes>)
    requires FreshWriter(w)
    ensures
      var st := IngestedAll(parse, lim, Start(w), chunks);
      var l := Decoded(parse, lim, Flatten(chunks));
      var folded := AbsorbAll(parse, Start(w).seen.core, l.seen);
      && st.seen.core.error in {None, Some(IoFailed)}
      && (st.seen.core.error.None? ==>
            && SameDecoder(st, l)
            && folded.error.None?
            && (Close(st).error.None? ==> Extends(folded, Close(st), Rest(parse, lim, Flatten(chunks)))))
      && (w.AlreadyPersisted? ==> st.seen.core.error.None? && Close(st).error.None?)
  {
    StartReached(parse, lim, w);
    RunReaches(parse, lim, Start(w).seen.core, Start(w), [], chunks);
    assert [] + Flatten(chunks) == Flatten(chunks);
    var st := IngestedAll(parse, lim, Start(w), chunks);
    if st.seen.core.error.None? {
      ClosingReaches(parse, lim, Start(w).seen.core, st, Flatten(chunks));
    }
  }
}
