/** What the Build Event Service leaves on disk: as long as nothing has failed, the
    evidence file holds the frames of the payloads accepted since the last retry. */
module BesEvidence {
  import opened Base
  import opened Framing
  import opened FrameCodec
  import opened Writer
  import opened Capture
  import opened Trace
  import opened Runs
  import opened Evidence
  import opened Streams
  import opened Bes
  import opened BesSafety

  // ------------------------------------------- the receiver is fed what is accepted

  lemma {:induction false} IngestedAppend(parse: Parser, lim: Limits, st: State<Pipe>, a: seq<Bytes>, b: seq<Bytes>)
    ensures IngestedAll(parse, lim, st, a + b) == IngestedAll(parse, lim, IngestedAll(parse, lim, st, a), b)
    decreases |a|
  {
    if a == [] {
      assert a + b == b;
    } else if st.seen.core.error.None? {
      IngestedAppend(parse, lim, Ingested(parse, lim, st, a[0]), a[1..], b);
      assert (a + b)[1..] == a[1..] + b;
    }
  }

  /** The receiver's pipeline after these frames. */
  function FedWith(parse: Parser, w: DurableWriter, frames: seq<Bytes>): State<Pipe> {
    IngestedAll(parse, DEFAULT_LIMITS, Start(w), frames)
  }

  /** Without an error the receiver has ingested exactly the accepted frames, and has
      ended well if it has ended. */
  predicate Fed(parse: Parser, w: DurableWriter, link: Link) {
    link.error.None? ==>
      var st := FedWith(parse, w, AcceptedFrames(link.wire));
      && st.seen.core.error.None?
      && link.receiver.st == (if link.receiver.open then st else Closed(st))
      && (!link.receiver.open ==> Close(st).error.None?)
  }

  lemma {:induction false} RespondFed(parse: Parser, w: DurableWriter, link: Link, n: int)
    requires Fed(parse, w, link)
    ensures Fed(parse, w, Respond(link, n))
  {
    if link.error.None? {
      RespondShape(link, n);
      WireSnoc(link.wire, Acknowledged(n));
    }
  }

  lemma {:induction false} RespondAllFed(parse: Parser, w: DurableWriter, link: Link, ns: seq<int>)
    requires Fed(parse, w, link)
    ensures Fed(parse, w, RespondAll(link, ns))
    decreases |ns|
  {
    if ns != [] {
      RespondFed(parse, w, link, ns[0]);
      RespondAllFed(parse, w, Respond(link, ns[0]), ns[1..]);
    }
  }

  lemma {:induction false} ForwardFed(parse: Parser, w: DurableWriter, link: Link, d: Delivery)
    requires Fed(parse, w, link)
    ensures Fed(parse, w, Forward(parse, link, d))
  {
    if link.error.None? {
      ForwardShape(parse, link, d);
      WireSnoc(link.wire, if d.Frames? then Accepted(d.frames) else FinishAccepted);
      if d.Frames? {
        IngestedAppend(parse, DEFAULT_LIMITS, Start(w), AcceptedFrames(link.wire), d.frames);
      }
    }
  }

  lemma {:induction false} FlushFed(parse: Parser, w: DurableWriter, link: Link, batch: Batch)
    requires Fed(parse, w, link)
    ensures Fed(parse, w, Flush(parse, link, batch))
  {
    if batch.frames != [] {
      ForwardFed(parse, w, link, Frames(batch.frames));
      RespondAllFed(parse, w, Forward(parse, link, Frames(batch.frames)), batch.responses);
    }
  }

  lemma {:induction false} BodyFed(parse: Parser, w: DurableWriter, s: Session, body: Body)
    requires Fed(parse, w, s.link)
    ensures Fed(parse, w, OnBody(parse, s, body).link)
  {
    var flushed := Flush(parse, s.link, s.batch);
    FlushFed(parse, w, s.link, s.batch);
    match body
    case BazelEvent(typeUrl, value) =>
      FlushFed(parse, w, s.link, Join(s, s.expected, value, EncodeFrame(value)).batch);
    case ComponentStreamFinished(kind) =>
      ForwardFed(parse, w, flushed, Finish);
      RespondFed(parse, w, Forward(parse, flushed, Finish), s.expected);
    case NoBody =>
      RespondFed(parse, w, flushed, s.expected);
  }

  lemma {:induction false} StepFed(parse: Parser, w: DurableWriter, s: Session, input: Input)
    requires Fed(parse, w, s.link)
    ensures Fed(parse, w, Step(parse, s, input).link)
  {
    FlushFed(parse, w, s.link, s.batch);
    if input.Message? && Screen(s.identity, s.expected, s.requestCount, s.sawFinished, input.request).None? {
      BodyFed(parse, w, s, input.request.value.event.value);
    }
  }

  lemma {:induction false} RunFed(parse: Parser, w: DurableWriter, s: Session, inputs: seq<Input>)
    requires Fed(parse, w, s.link)
    ensures Fed(parse, w, Run(parse, s, inputs).link)
    decreases |inputs|
  {
    if inputs != [] {
      StepFed(parse, w, s, inputs[0]);
      RunFed(parse, w, Step(parse, s, inputs[0]), inputs[1..]);
    }
  }

  // --------------------------------------------------------- what the file holds

  /** The first of the payloads that the evidence holds: the one that started the last
      expected retry, as far as the stream can be decoded. */
  function KeptFrom(parse: Parser, payloads: seq<Bytes>): (r: nat)
    ensures r <= |payloads|
  {
    LastRetry(parse, FramesOf(Decodable(parse, payloads)))
  }

  /** An idle appending pipeline has nothing but its evidence. */
  lemma {:induction false} IdleEvidence(parse: Parser, lim: Limits, w: DurableWriter, st: State<Pipe>, s: Bytes)
    requires FreshWriter(w) && w.Append?
    requires Reached(parse, lim, Start(w).seen.core, st, s) && st.seen.raw == []
    ensures
      var d, t := st.seen.core.durable, Decoded(parse, lim, s).seen;
      d.Append? && d.Consistent() && Raw(t[..LastRetry(parse, t)]) + d.file.data == s
  {
    var t := Decoded(parse, lim, s).seen;
    ReachedFold(parse, lim, w, st, s);
    FoldTracks(parse, w, t);
    DecodedCovers(parse, lim, s);
    KeptIsSuffix(parse, lim, s);
    assert Raw(Kept(parse, t)) + [] == Raw(Kept(parse, t));
  }

  lemma {:induction false} ReachedFold(parse: Parser, lim: Limits, w: DurableWriter, st: State<Pipe>, s: Bytes)
    requires FreshWriter(w)
    requires Reached(parse, lim, Start(w).seen.core, st, s)
    ensures AbsorbAll(parse, Start(w).seen.core, Decoded(parse, lim, s).seen).error.None?
  {
  }

  /** Ending such a pipeline changes nothing in the file. */
  lemma ClosedKeepsFile(st: State<Pipe>)
    requires st.seen.core.error.None? && st.seen.raw == [] && st.seen.core.durable.Append?
    ensures
      var d := Closed(st).seen.core.durable;
      d.Append? && d.file.data == st.seen.core.durable.file.data && d.hashed == st.seen.core.durable.hashed
  {
  }

  lemma {:induction false} FramedIsEncoded(payloads: seq<Bytes>)
    ensures Flatten(Framed(payloads)) == EncodeFrames(payloads)
  {
    if payloads != [] {
      FramedIsEncoded(payloads[1..]);
      assert Framed(payloads)[1..] == Framed(payloads[1..]);
    }
  }

  /** The bytes of a stream without those before payload `r`. */
  lemma {:induction false} SuffixOfStream(payloads: seq<Bytes>, decodable: seq<Bytes>, r: nat, data: Bytes)
    requires decodable <= payloads && r <= |decodable|
    requires Raw(FramesOf(decodable)[..r]) + data == EncodeFrames(payloads)
    ensures data == EncodeFrames(payloads[r..])
  {
    assert decodable == payloads[..r] + decodable[r..];
    FramesOfAppend(payloads[..r], decodable[r..]);
    assert FramesOf(decodable)[..r] == FramesOf(payloads[..r]);
    RawFramesOf(payloads[..r]);
    assert payloads == payloads[..r] + payloads[r..];
    EncodeFramesAppend(payloads[..r], payloads[r..]);
    Cancel(EncodeFrames(payloads[..r]), data, EncodeFrames(payloads[r..]));
  }

  /** A pipeline fed the frames of payloads within the limits holds, when idle, those
      from the last expected retry on. */
  lemma {:induction false} FedEvidence(parse: Parser, w: DurableWriter, payloads: seq<Bytes>)
    requires FreshWriter(w) && w.Append? && WithinLimits(payloads)
    requires FedWith(parse, w, Framed(payloads)).seen.core.error.None?
    requires FedWith(parse, w, Framed(payloads)).seen.raw == []
    ensures
      var d := FedWith(parse, w, Framed(payloads)).seen.core.durable;
      && d.Append? && d.hashed == d.file.data
      && d.file.data == Flatten(Framed(payloads[KeptFrom(parse, payloads)..]))
  {
    var st, s, r := FedWith(parse, w, Framed(payloads)), EncodeFrames(payloads), KeptFrom(parse, payloads);
    StartReached(parse, DEFAULT_LIMITS, w);
    RunReaches(parse, DEFAULT_LIMITS, Start(w).seen.core, Start(w), [], Framed(payloads));
    FramedIsEncoded(payloads);
    assert [] + s == s;
    IdleEvidence(parse, DEFAULT_LIMITS, w, st, s);
    StreamDecodes(parse, DEFAULT_LIMITS, payloads);
    SuffixOfStream(payloads, Decodable(parse, payloads), r, st.seen.core.durable.file.data);
    FramedIsEncoded(payloads[r..]);
  }

  lemma {:induction false} LimitsPrefix(payloads: seq<Bytes>, m: nat)
    requires WithinLimits(payloads) && m <= |payloads|
    ensures WithinLimits(payloads[..m])
  {
    TotalAppend(payloads[..m], payloads[m..]);
    assert payloads[..m] + payloads[m..] == payloads;
  }

  lemma {:induction false} TakenPayloads(accepted: seq<Bytes>, frames: seq<Bytes>, payloads: seq<Bytes>)
    requires accepted + frames == Framed(payloads)
    ensures |accepted| <= |payloads| && accepted == Framed(payloads[..|accepted|])
  {
    var m := |accepted|;
    assert |payloads| == |accepted + frames|;
    assert payloads[..m] + payloads[m..] == payloads;
    FramedAppend(payloads[..m], payloads[m..]);
    assert accepted == (accepted + frames)[..m] == Framed(payloads)[..m];
  }

  /** The payloads whose frames the receiver has accepted. */
  function TakenBy(s: Session): seq<Bytes>
    requires |AcceptedFrames(s.link.wire)| <= |Payloads(s.events)|
  {
    Payloads(s.events)[..|AcceptedFrames(s.link.wire)|]
  }

  lemma {:induction false} LiveEvidence(parse: Parser, w: DurableWriter, s: Session)
    requires FreshWriter(w) && w.Append?
    requires Live(s) && Fed(parse, w, s.link) && s.link.error.None?
    ensures
      var d := s.link.receiver.st.seen.core.durable;
      && |AcceptedFrames(s.link.wire)| <= |Payloads(s.events)|
      && AcceptedFrames(s.link.wire) == Framed(TakenBy(s))
      && d.Append? && d.hashed == d.file.data
      && d.file.data == Flatten(Framed(TakenBy(s)[KeptFrom(parse, TakenBy(s))..]))
  {
    var frames := AcceptedFrames(s.link.wire);
    var st := FedWith(parse, w, frames);
    TakenPayloads(frames, s.batch.frames, Payloads(s.events));
    LimitsPrefix(Payloads(s.events), |frames|);
    BuffersStayCoupled(parse, DEFAULT_LIMITS, w, frames);
    assert st.seen.raw == [];
    FedEvidence(parse, w, TakenBy(s));
    ClosedKeepsFile(st);
  }

  /** At every moment of every run without an error, the accepted frames are those of
      the first payloads, and the evidence file is, byte for byte, the frames among
      them from the last expected retry on; that is also what has been hashed. */
  lemma {:induction false} EvidenceHoldsAccepted(parse: Parser, s: Session, inputs: seq<Input>)
    requires Opened(s)
    ensures
      var end := Run(parse, s, inputs);
      var d := end.link.receiver.st.seen.core.durable;
      end.link.error.None? ==>
        && |AcceptedFrames(end.link.wire)| <= |Payloads(end.events)|
        && AcceptedFrames(end.link.wire) == Framed(TakenBy(end))
        && d.Append? && d.hashed == d.file.data
        && d.file.data == Flatten(Framed(TakenBy(end)[KeptFrom(parse, TakenBy(end))..]))
  {
    var w, end := s.link.receiver.st.seen.core.durable, Run(parse, s, inputs);
    OpenedIsLive(s);
    RunKeeps(parse, s, inputs);
    RunFed(parse, w, s, inputs);
    if end.link.error.None? {
      LiveEvidence(parse, w, end);
    }
  }
}
