/** Streams on which a retry starts late: one on which the live run and the re-run
    disagree, and one on which they agree by accident. */
module LateRetries {
  import opened Base
  import opened Framing
  import opened FrameCodec
  import opened Capture
  import opened Trace
  import opened Runs
  import opened Evidence
  import opened Streams
  import opened PostHoc

  /** Three kinds of payload: an eviction, a start, and any other event. */
  function ParseSample(payload: Bytes): Option<Kind> {
    Some(if payload == [1] then Started else if payload == [39] then Finished(Some(39)) else OtherEvent)
  }

  const EVICTION: Bytes := [39]
  const EVENT: Bytes := [7]
  const START: Bytes := [1]

  function Sample(payload: Bytes): Frame {
    Frame(payload, EncodeFrame(payload))
  }

  lemma {:induction false} TwoFrames(a: Bytes, b: Bytes)
    ensures FramesOf([a, b]) == [Sample(a), Sample(b)]
    ensures TotalLength([a, b]) == |a| + |b|
  {
    assert [a, b][1..] == [b] && [b][1..] == [];
    assert FramesOf([b]) == [Sample(b)] && TotalLength([b]) == |b|;
  }

  const LOST := [Sample(EVICTION), Sample(EVENT), Sample(START)]

  /** One event between the eviction and the retry is lost. */
  lemma LosesFrames()
    ensures !NothingLost(ParseSample, LOST) && LastRetry(ParseSample, LOST) == 2
  {
    assert LOST[..2] == [Sample(EVICTION), Sample(EVENT)];
    assert LastEviction(ParseSample, LOST[..2]) == 1 by {
      assert LOST[..2][0] == LOST[0] && LOST[..2][1] == LOST[1];
    }
    assert StartsRetry(ParseSample, LOST, 2);
  }

  /** After an eviction, the two frames that follow it are reported. */
  lemma {:induction false} LastAttempt(parse: Parser, before: seq<Frame>, e: Frame, a: Frame, b: Frame)
    requires IsEvicted(parse, e.payload) && !IsEvicted(parse, a.payload) && !IsEvicted(parse, b.payload)
    ensures
      var t := before + [e] + [a] + [b];
      ReportedFrames(parse, t) == [a, b] && !ReportsEvicted(parse, t)
  {
    CurrentSnoc(parse, before, e);
    CurrentSnoc(parse, before + [e], a);
    CurrentSnoc(parse, before + [e] + [a], b);
    assert [] + [a] + [b] == [a, b];
  }

  // ------------------------------------------------------------ they disagree

  const LATE_RETRY: seq<Bytes> := [EVICTION] + [EVENT, START]

  lemma {:induction false} LateRetryFrames()
    ensures FramesOf(LATE_RETRY) == LOST && TotalLength(LATE_RETRY) == 3
  {
    assert LATE_RETRY[1..] == [EVENT, START];
    TwoFrames(EVENT, START);
  }

  /** One event between the eviction and the retry is enough to disagree. */
  lemma {:induction false} LateRetryDisagrees()
    ensures
      var s := EncodeFrames(LATE_RETRY);
      Reported(ParseSample, DEFAULT_LIMITS, EvidenceOf(ParseSample, DEFAULT_LIMITS, s))
        != Reported(ParseSample, DEFAULT_LIMITS, s)
  {
    LateRetryFrames();
    LosesFrames();
    AllDecodable(ParseSample, LATE_RETRY);
    StreamDecodes(ParseSample, DEFAULT_LIMITS, LATE_RETRY);
    PostHocAgreesExactly(ParseSample, DEFAULT_LIMITS, EncodeFrames(LATE_RETRY));
  }

  // ------------------------------------------------------- they agree by accident

  const TWO_EVENTS := Limits(16, 16, 2)

  /** What an eviction, an event, a start and anything more leave under that limit. */
  lemma {:induction false} AttemptCutShort(st: State<seq<Frame>>, rest: seq<Bytes>)
    requires st.terminal.None? && st.pending == [] && st.eventCount < 2 && st.decodedBytes < 2
    requires rest != [] && |rest[0]| == 1
    ensures Deliver(TWO_EVENTS, LogHooks(ParseSample), st, [EVICTION] + ([EVENT, START] + rest)) ==
      State([], 2, 2, Some(TooManyEvents(3, 2)), st.seen + [Sample(EVICTION)] + [Sample(EVENT), Sample(START)])
  {
    var reset := st.(decodedBytes := 0, eventCount := 0, seen := st.seen + [Sample(EVICTION)]);
    EvictionDelivers(ParseSample, TWO_EVENTS, st, EVICTION, [EVENT, START] + rest);
    TwoFrames(EVENT, START);
    AttemptDelivers(ParseSample, TWO_EVENTS, reset, [EVENT, START], rest);
    LimitStops(ParseSample, TWO_EVENTS, Advanced(reset, [EVENT, START]), rest);
  }

  /** The same attempt twice: the limit stops the live run at the second eviction,
      and the re-run after it. */
  const TAIL: seq<Bytes> := [EVICTION] + ([EVENT, START] + [EVENT])
  const TWICE: seq<Bytes> := [EVICTION] + ([EVENT, START] + TAIL)

  lemma {:induction false} LiveRunCutShort()
    ensures Decoded(ParseSample, TWO_EVENTS, EncodeFrames(TWICE)) == State([], 2, 2, Some(TooManyEvents(3, 2)), LOST)
  {
    EncodedFramesDeliver(TWO_EVENTS, LogHooks(ParseSample), Initial([]), TWICE);
    AttemptCutShort(Initial([]), TAIL);
    assert [] + [Sample(EVICTION)] + [Sample(EVENT), Sample(START)] == LOST;
  }

  lemma {:induction false} RerunCutShort()
    ensures Decoded(ParseSample, TWO_EVENTS, EncodeFrames([START] + TAIL)) ==
      State([], 2, 2, Some(TooManyEvents(3, 2)),
            [Sample(START)] + [Sample(EVICTION)] + [Sample(EVENT), Sample(START)])
  {
    var st := Initial<seq<Frame>>([]);
    EncodedFramesDeliver(TWO_EVENTS, LogHooks(ParseSample), st, [START] + TAIL);
    OneFrame(START);
    AttemptDelivers(ParseSample, TWO_EVENTS, st, [START], TAIL);
    AttemptCutShort(Advanced(st, [START]), [EVENT]);
    assert [] + [Sample(START)] == [Sample(START)];
  }

  lemma {:induction false} TwiceSplits()
    ensures EncodeFrames(TWICE) == Raw(LOST[..2]) + EncodeFrames([START] + TAIL)
  {
    TwoFrames(EVICTION, EVENT);
    RawFramesOf([EVICTION, EVENT]);
    assert LOST[..2] == FramesOf([EVICTION, EVENT]);
    EncodeFramesAppend([EVICTION, EVENT], [START] + TAIL);
    assert TWICE == [EVICTION, EVENT] + ([START] + TAIL);
  }

  lemma {:induction false} EvidenceOfTwice()
    ensures EvidenceOf(ParseSample, TWO_EVENTS, EncodeFrames(TWICE)) == EncodeFrames([START] + TAIL)
  {
    var s := EncodeFrames(TWICE);
    LiveRunCutShort();
    LosesFrames();
    KeptIsSuffix(ParseSample, TWO_EVENTS, s);
    TwiceSplits();
    Cancel(Raw(LOST[..2]), EvidenceOf(ParseSample, TWO_EVENTS, s), EncodeFrames([START] + TAIL));
  }

  /** Frames were lost, a stream limit stopped the live run, and yet the re-run, which
      reads on and meets the same attempt again, reports the same. */
  lemma {:induction false} LimitedRerunAgrees()
    ensures
      var s := EncodeFrames(TWICE);
      var l := Decoded(ParseSample, TWO_EVENTS, s);
      && !NothingLost(ParseSample, l.seen) && LimitHit(l) && PassesEviction(ParseSample, TWO_EVENTS, s)
      && Reported(ParseSample, TWO_EVENTS, EvidenceOf(ParseSample, TWO_EVENTS, s))
         == Reported(ParseSample, TWO_EVENTS, s)
  {
    var s := EncodeFrames(TWICE);
    LiveRunCutShort();
    RerunCutShort();
    EvidenceOfTwice();
    LosesFrames();
    LastAttempt(ParseSample, [], Sample(EVICTION), Sample(EVENT), Sample(START));
    LastAttempt(ParseSample, [Sample(START)], Sample(EVICTION), Sample(EVENT), Sample(START));
    assert [] + [Sample(EVICTION)] + [Sample(EVENT)] + [Sample(START)] == LOST;
    var again := [Sample(START)] + [Sample(EVICTION)] + [Sample(EVENT), Sample(START)];
    assert again == [Sample(START)] + [Sample(EVICTION)] + [Sample(EVENT)] + [Sample(START)];
    assert IsEvicted(ParseSample, again[1].payload);
  }
}
