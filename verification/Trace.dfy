/** The frames of a stream, and the pipeline as a fold over them.

    `Decoded` is the decoder run with a visitor that only writes frames down. The
    lemmas here show that a pipeline fed any chunks is in the state obtained by
    absorbing those frames one by one. */
module Trace {
  import opened Base
  import opened Framing
  import opened Writer
  import opened Capture

  datatype Frame = Frame(payload: Bytes, framed: Bytes)

  function LogHooks(parse: Parser): Hooks<seq<Frame>> {
    Hooks((payload: Bytes) => parse(payload).Some?,
          (frames: seq<Frame>, payload: Bytes, framed: Bytes) =>
            (frames + [Frame(payload, framed)],
             if IsEvicted(parse, payload) then ResetAfterFrame else Continue))
  }

  /** The decoder's final state on `s`, with every visited frame written down. */
  function Decoded(parse: Parser, lim: Limits, s: Bytes): State<seq<Frame>> {
    Drain(lim, LogHooks(parse), Initial([]), s)
  }

  /** The bytes of the frames, prefixes included. */
  function Raw(frames: seq<Frame>): Bytes {
    if frames == [] then [] else Raw(frames[..|frames| - 1]) + frames[|frames| - 1].framed
  }

  function AbsorbAll(parse: Parser, core: Core, frames: seq<Frame>): Core {
    if frames == [] then core else
    var last := frames[|frames| - 1];
    AbsorbAll(parse, core, frames[..|frames| - 1]).Absorb(parse, last.payload, last.framed)
  }

  lemma {:induction false} RawSnoc(frames: seq<Frame>, last: Frame)
    ensures Raw(frames + [last]) == Raw(frames) + last.framed
  {
    assert (frames + [last])[..|frames|] == frames;
  }

  lemma {:induction false} RawAppend(a: seq<Frame>, b: seq<Frame>)
    ensures Raw(a + b) == Raw(a) + Raw(b)
    decreases |b|
  {
    if b == [] {
      assert a + b == a;
    } else {
      var init, last := b[..|b| - 1], b[|b| - 1];
      RawAppend(a, init);
      RawSnoc(a + init, last);
      Assoc(a, init, [last]);
      assert init + [last] == b;
      Assoc(Raw(a), Raw(init), last.framed);
    }
  }

  lemma {:induction false} AbsorbSnoc(parse: Parser, core: Core, frames: seq<Frame>, last: Frame)
    ensures AbsorbAll(parse, core, frames + [last])
         == AbsorbAll(parse, core, frames).Absorb(parse, last.payload, last.framed)
  {
    assert (frames + [last])[..|frames|] == frames;
  }

  /** Two decoders that differ at most in what their visitors remember. */
  predicate SameDecoder<V, W>(a: State<V>, b: State<W>) {
    && a.pending == b.pending
    && a.decodedBytes == b.decodedBytes
    && a.eventCount == b.eventCount
    && a.terminal == b.terminal
  }

  /** A frame that passes the limits and decodes is written down. */
  lemma LogVisit(parse: Parser, lim: Limits, st: State<seq<Frame>>, payload: Bytes, framed: Bytes)
    ensures
      var next := Visit(lim, LogHooks(parse), st.(pending := []), payload, framed);
      && next.pending == []
      && (st.terminal.None? && next.terminal.None? ==>
            && next.seen == st.seen + [Frame(payload, framed)]
            && (IsEvicted(parse, payload) ==> next.decodedBytes == 0 && next.eventCount == 0))
      && (st.terminal.None? && next.terminal.Some? ==> next.seen == st.seen)
  {
  }

  /** Draining a stream with a frame at its front starts with that frame. */
  lemma {:induction false} DrainStarts<V>(
    lim: Limits, hooks: Hooks<V>, st: State<V>, s: Bytes, prefix: nat, length: nat)
    requires Inspect(s, lim.maxFrame) == Ok(Complete(prefix, length))
    ensures
      var total := SatAdd(prefix, length);
      var next := Visit(lim, hooks, st.(pending := []), s[prefix..total], s[..total]);
      Drain(lim, hooks, st, s) == if next.terminal.Some? then next else Drain(lim, hooks, next, s[total..])
  {
  }

  /** One frame off the front of the stream moves to the frames seen. */
  lemma {:induction false} FrameMoves(seen: seq<Frame>, s: Bytes, prefix: nat, total: nat)
    requires prefix <= total <= |s|
    ensures Raw(seen + [Frame(s[prefix..total], s[..total])]) + s[total..] == Raw(seen) + s
  {
    RawSnoc(seen, Frame(s[prefix..total], s[..total]));
    Assoc(Raw(seen), s[..total], s[total..]);
    assert s[..total] + s[total..] == s;
  }

  /** Frames never lose a byte: those visited, followed by the part of the
      stream that was not, are the stream. */
  lemma {:induction false} FramesCoverStream(parse: Parser, lim: Limits, st: State<seq<Frame>>, s: Bytes)
    requires st.terminal.None?
    ensures Raw(Drain(lim, LogHooks(parse), st, s).seen) + Unvisited(lim, LogHooks(parse), st, s) == Raw(st.seen) + s
    decreases |s|
  {
    match Inspect(s, lim.maxFrame) {
      case Ok(Complete(prefix, length)) =>
        var total := SatAdd(prefix, length);
        LogVisit(parse, lim, st, s[prefix..total], s[..total]);
        var next := Visit(lim, LogHooks(parse), st.(pending := []), s[prefix..total], s[..total]);
        if next.terminal.None? {
          FramesCoverStream(parse, lim, next, s[total..]);
          FrameMoves(st.seen, s, prefix, total);
        }
      case _ =>
    }
  }

  /** A decoder that has not stopped retains exactly the unvisited bytes. */
  lemma {:induction false} RestIsPending<V>(lim: Limits, hooks: Hooks<V>, st: State<V>, s: Bytes)
    requires st.terminal.None?
    ensures
      var r := Drain(lim, hooks, st, s);
      r.terminal.None? ==> r.pending == Unvisited(lim, hooks, st, s)
    decreases |s|
  {
    match Inspect(s, lim.maxFrame) {
      case Ok(Complete(prefix, length)) =>
        var total := SatAdd(prefix, length);
        var next := Visit(lim, hooks, st.(pending := []), s[prefix..total], s[..total]);
        if next.terminal.None? {
          RestIsPending(lim, hooks, next, s[total..]);
        }
      case _ =>
    }
  }

  /** When a frame is at the front of the raw buffer, the pipeline's visitor
      absorbs it and drops it from the buffer. */
  lemma FrameMatches(parse: Parser, p: Pipe, payload: Bytes, framed: Bytes, rest: Bytes)
    requires p.core.error.None? && p.raw == framed + rest
    ensures
      var (q, control) := OnFrame(parse, p, payload, framed);
      && q.core == p.core.Absorb(parse, payload, framed)
      && (q.core.error.None? ==>
            q.raw == rest && control == if IsEvicted(parse, payload) then ResetAfterFrame else Continue)
  {
    assert p.raw[..|framed|] == framed && p.raw[|framed|..] == rest;
  }

  /** Decoders that agree treat a frame alike, whatever their visitors do with it. */
  lemma VisitsMatch<V, W>(
    lim: Limits, a: Hooks<V>, b: Hooks<W>, st: State<V>, log: State<W>, payload: Bytes, framed: Bytes)
    requires SameDecoder(st, log) && st.terminal.None? && a.decodes(payload) == b.decodes(payload)
    ensures
      var next := Visit(lim, a, st.(pending := []), payload, framed);
      var next' := Visit(lim, b, log.(pending := []), payload, framed);
      var (seen, control) := a.visit(st.seen, payload, framed);
      var (seen', control') := b.visit(log.seen, payload, framed);
      && next.terminal == next'.terminal && next.pending == next'.pending == []
      && (next.terminal.Some? || control == control' ==> SameDecoder(next, next'))
      && next.seen == (if next.terminal.None? then seen else st.seen)
      && next'.seen == (if next.terminal.None? then seen' else log.seen)
  {
  }

  /** A frame at the front of the raw buffer, through both visitors. */
  lemma VisitMatches(parse: Parser, lim: Limits, st: State<Pipe>, log: State<seq<Frame>>, frame: Frame, rest: Bytes)
    requires SameDecoder(st, log) && st.terminal.None?
    requires st.seen.core.error.None? && st.seen.raw == frame.framed + rest
    ensures
      var next := Visit(lim, PipeHooks(parse), st.(pending := []), frame.payload, frame.framed);
      var next' := Visit(lim, LogHooks(parse), log.(pending := []), frame.payload, frame.framed);
      && next.terminal == next'.terminal && next.pending == []
      && next'.seen == (if next.terminal.None? then log.seen + [frame] else log.seen)
      && next.seen.core ==
           (if next.terminal.None? then st.seen.core.Absorb(parse, frame.payload, frame.framed) else st.seen.core)
      && (next.terminal.None? && next.seen.core.error.None? ==> next.seen.raw == rest)
      && (next.terminal.Some? ==> next.seen == st.seen)
      && (next.terminal.Some? || next.seen.core.error.None? ==> SameDecoder(next, next'))
  {
    FrameMatches(parse, st.seen, frame.payload, frame.framed, rest);
    VisitsMatch(lim, PipeHooks(parse), LogHooks(parse), st, log, frame.payload, frame.framed);
  }

  /** One frame of the stream, seen by the pipeline and written down in the log. */
  lemma {:induction false} FrameFollowed(
    parse: Parser, lim: Limits, core: Core, st: State<Pipe>, log: State<seq<Frame>>, frame: Frame, rest: Bytes)
    requires SameDecoder(st, log) && st.terminal.None?
    requires st.seen == Pipe(AbsorbAll(parse, core, log.seen), frame.framed + rest)
    requires st.seen.core.error.None?
    ensures
      var next := Visit(lim, PipeHooks(parse), st.(pending := []), frame.payload, frame.framed);
      var next' := Visit(lim, LogHooks(parse), log.(pending := []), frame.payload, frame.framed);
      && next.terminal == next'.terminal
      && next.seen.core == AbsorbAll(parse, core, next'.seen)
      && (next.terminal.Some? ==> next.seen == st.seen)
      && (next.terminal.Some? || next.seen.core.error.None? ==> SameDecoder(next, next'))
      && (next.terminal.None? && next.seen.core.error.None? ==> next.seen.raw == rest)
  {
    VisitMatches(parse, lim, st, log, frame, rest);
    AbsorbSnoc(parse, core, log.seen, frame);
  }

  /** While the raw buffer holds what the decoder has yet to read, the pipeline's
      visitor sees the frames of the stream and absorbs each of them; it never
      finds a frame that is not at the front of that buffer. */
  lemma {:induction false} PipelineFollowsFrames(
    parse: Parser, lim: Limits, core: Core, st: State<Pipe>, log: State<seq<Frame>>, s: Bytes)
    requires SameDecoder(st, log) && st.terminal.None?
    requires st.seen == Pipe(AbsorbAll(parse, core, log.seen), s)
    requires st.seen.core.error.None?
    ensures
      var r := Drain(lim, PipeHooks(parse), st, s);
      var l := Drain(lim, LogHooks(parse), log, s);
      && r.seen.core == AbsorbAll(parse, core, l.seen)
      && (r.seen.core.error.None? ==>
            SameDecoder(r, l) && r.seen.raw == Unvisited(lim, LogHooks(parse), log, s))
    decreases |s|
  {
    match Inspect(s, lim.maxFrame) {
      case Ok(Complete(prefix, length)) =>
        var total := SatAdd(prefix, length);
        var frame := Frame(s[prefix..total], s[..total]);
        assert s == frame.framed + s[total..];
        FrameFollowed(parse, lim, core, st, log, frame, s[total..]);
        var next := Visit(lim, PipeHooks(parse), st.(pending := []), frame.payload, frame.framed);
        var next' := Visit(lim, LogHooks(parse), log.(pending := []), frame.payload, frame.framed);
        if next.terminal.None? {
          if next.seen.core.error.None? {
            PipelineFollowsFrames(parse, lim, core, next, next', s[total..]);
          } else {
            FrozenAfterError(parse, lim, next, s[total..]);
            FrozenFold(parse, lim, core, next', s[total..]);
          }
        }
      case _ =>
    }
  }

  /** After an error the visitor lets every further frame pass unseen. */
  lemma {:induction false} FrozenAfterError(parse: Parser, lim: Limits, st: State<Pipe>, s: Bytes)
    requires st.seen.core.error.Some?
    ensures Drain(lim, PipeHooks(parse), st, s).seen == st.seen
    decreases |s|
  {
    match Inspect(s, lim.maxFrame) {
      case Ok(Complete(prefix, length)) =>
        var total := SatAdd(prefix, length);
        var next := Visit(lim, PipeHooks(parse), st.(pending := []), s[prefix..total], s[..total]);
        if next.terminal.None? {
          FrozenAfterError(parse, lim, next, s[total..]);
        }
      case _ =>
    }
  }

  lemma {:induction false} AbsorbFrozen(parse: Parser, core: Core, frames: seq<Frame>, last: Frame)
    requires AbsorbAll(parse, core, frames).error.Some?
    ensures AbsorbAll(parse, core, frames + [last]) == AbsorbAll(parse, core, frames)
  {
    AbsorbSnoc(parse, core, frames, last);
  }

  lemma {:induction false} FrozenFold(parse: Parser, lim: Limits, core: Core, log: State<seq<Frame>>, s: Bytes)
    requires AbsorbAll(parse, core, log.seen).error.Some? && log.terminal.None?
    ensures AbsorbAll(parse, core, Drain(lim, LogHooks(parse), log, s).seen) == AbsorbAll(parse, core, log.seen)
    decreases |s|
  {
    match Inspect(s, lim.maxFrame) {
      case Ok(Complete(prefix, length)) =>
        var total := SatAdd(prefix, length);
        var frame := Frame(s[prefix..total], s[..total]);
        LogVisit(parse, lim, log, frame.payload, frame.framed);
        var next := Visit(lim, LogHooks(parse), log.(pending := []), frame.payload, frame.framed);
        if next.terminal.None? {
          AbsorbFrozen(parse, core, log.seen, frame);
          FrozenFold(parse, lim, core, next, s[total..]);
        }
      case _ =>
    }
  }
}
