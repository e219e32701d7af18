/** Streams of encoded frames, as the decoder writes them down. */
module Streams {
  import opened Base
  import opened Framing
  import opened FrameCodec
  import opened Capture
  import opened Trace

  function FramesOf(payloads: seq<Bytes>): (frames: seq<Frame>)
    ensures |frames| == |payloads|
  {
    if payloads == [] then [] else [Frame(payloads[0], EncodeFrame(payloads[0]))] + FramesOf(payloads[1..])
  }

  lemma {:induction false} EncodeFramesAppend(a: seq<Bytes>, b: seq<Bytes>)
    ensures EncodeFrames(a + b) == EncodeFrames(a) + EncodeFrames(b)
  {
    if a == [] {
      assert a + b == b;
    } else {
      EncodeFramesAppend(a[1..], b);
      assert (a + b)[1..] == a[1..] + b;
      Assoc(EncodeFrame(a[0]), EncodeFrames(a[1..]), EncodeFrames(b));
    }
  }

  lemma {:induction false} FramesOfAppend(a: seq<Bytes>, b: seq<Bytes>)
    ensures FramesOf(a + b) == FramesOf(a) + FramesOf(b)
  {
    if a == [] {
      assert a + b == b;
    } else {
      FramesOfAppend(a[1..], b);
      assert (a + b)[1..] == a[1..] + b;
      Assoc([Frame(a[0], EncodeFrame(a[0]))], FramesOf(a[1..]), FramesOf(b));
    }
  }

  /** The frames of some payloads are the bytes those payloads encode to. */
  lemma {:induction false} RawFramesOf(payloads: seq<Bytes>)
    ensures Raw(FramesOf(payloads)) == EncodeFrames(payloads)
  {
    if payloads != [] {
      var first := Frame(payloads[0], EncodeFrame(payloads[0]));
      RawFramesOf(payloads[1..]);
      RawAppend([first], FramesOf(payloads[1..]));
      RawSnoc([], first);
      assert [] + [first] == [first];
    }
  }

  // -------------------------------------------------------------- one by one

  /** A decoder that has also visited and counted these payloads. */
  function Advanced(st: State<seq<Frame>>, payloads: seq<Bytes>): State<seq<Frame>> {
    st.(decodedBytes := st.decodedBytes + TotalLength(payloads),
        eventCount := st.eventCount + |payloads|, seen := st.seen + FramesOf(payloads))
  }

  lemma {:induction false} OneFrame(p: Bytes)
    ensures FramesOf([p]) == [Frame(p, EncodeFrame(p))] && TotalLength([p]) == |p|
  {
    var one: seq<Bytes> := [p];
    assert one[1..] == [];
  }

  lemma {:induction false} AdvancedCons(st: State<seq<Frame>>, payloads: seq<Bytes>)
    requires payloads != []
    ensures Advanced(st, payloads) == Advanced(Advanced(st, [payloads[0]]), payloads[1..])
  {
    var p := payloads[0];
    OneFrame(p);
    Assoc(st.seen, FramesOf([p]), FramesOf(payloads[1..]));
  }

  lemma {:induction false} EventVisited(parse: Parser, lim: Limits, st: State<seq<Frame>>, p: Bytes)
    requires parse(p).Some? && !IsEvicted(parse, p) && st.terminal.None?
    requires st.decodedBytes + |p| <= lim.maxStream <= USIZE_MAX && st.eventCount < lim.maxEvents <= USIZE_MAX
    ensures Visit(lim, LogHooks(parse), st, p, EncodeFrame(p)) == Advanced(st, [p])
  {
    OneFrame(p);
  }

  /** The frames of an attempt are visited and counted. */
  lemma {:induction false} AttemptDelivers(
    parse: Parser, lim: Limits, st: State<seq<Frame>>, attempt: seq<Bytes>, rest: seq<Bytes>)
    requires forall p :: p in attempt ==> |p| <= lim.maxFrame && parse(p).Some? && !IsEvicted(parse, p)
    requires st.terminal.None? && lim.maxStream <= USIZE_MAX && lim.maxEvents <= USIZE_MAX
    requires st.decodedBytes + TotalLength(attempt) <= lim.maxStream && st.eventCount + |attempt| <= lim.maxEvents
    ensures Deliver(lim, LogHooks(parse), st, attempt + rest)
         == Deliver(lim, LogHooks(parse), Advanced(st, attempt), rest)
    decreases |attempt|
  {
    if attempt == [] {
      assert attempt + rest == rest && st.seen + [] == st.seen;
    } else {
      var p, more := attempt[0], attempt[1..];
      assert (attempt + rest)[1..] == more + rest;
      DeliverCons(lim, LogHooks(parse), st, attempt + rest);
      EventVisited(parse, lim, st, p);
      AdvancedCons(st, attempt);
      AttemptDelivers(parse, lim, Advanced(st, [p]), more, rest);
    }
  }

  /** An evicting frame is visited, and the accounting starts over. */
  lemma {:induction false} EvictionDelivers(
    parse: Parser, lim: Limits, st: State<seq<Frame>>, p: Bytes, rest: seq<Bytes>)
    requires |p| <= lim.maxFrame && IsEvicted(parse, p)
    requires st.terminal.None? && st.decodedBytes + |p| <= lim.maxStream <= USIZE_MAX && st.eventCount < lim.maxEvents
    ensures Deliver(lim, LogHooks(parse), st, [p] + rest) ==
      Deliver(lim, LogHooks(parse),
              st.(decodedBytes := 0, eventCount := 0, seen := st.seen + [Frame(p, EncodeFrame(p))]), rest)
  {
    assert ([p] + rest)[1..] == rest;
    DeliverCons(lim, LogHooks(parse), st, [p] + rest);
  }

  /** A frame past the event limit stops the decoder. */
  lemma {:induction false} LimitStops(parse: Parser, lim: Limits, st: State<seq<Frame>>, payloads: seq<Bytes>)
    requires payloads != [] && |payloads[0]| <= lim.maxFrame
    requires st.terminal.None? && st.decodedBytes + |payloads[0]| <= lim.maxStream <= USIZE_MAX
    requires st.eventCount == lim.maxEvents
    ensures Deliver(lim, LogHooks(parse), st, payloads) ==
      st.(terminal := Some(TooManyEvents(SatAdd(lim.maxEvents, 1), lim.maxEvents)))
  {
    DeliverCons(lim, LogHooks(parse), st, payloads);
  }

  // --------------------------------------------------------- a stream within limits

  /** The payloads before the first one that is not an event. */
  function Decodable(parse: Parser, payloads: seq<Bytes>): (prefix: seq<Bytes>)
    ensures prefix <= payloads
  {
    if payloads == [] || parse(payloads[0]).None? then [] else [payloads[0]] + Decodable(parse, payloads[1..])
  }

  lemma {:induction false} DecodableCons(parse: Parser, payloads: seq<Bytes>)
    requires payloads != [] && parse(payloads[0]).Some?
    ensures
      var p, more := payloads[0], Decodable(parse, payloads[1..]);
      && FramesOf(Decodable(parse, payloads)) == [Frame(p, EncodeFrame(p))] + FramesOf(more)
      && (Decodable(parse, payloads) == payloads <==> more == payloads[1..])
  {
    var decodable := Decodable(parse, payloads);
    assert decodable[1..] == Decodable(parse, payloads[1..]);
    assert payloads == [payloads[0]] + payloads[1..];
  }

  lemma {:induction false} AllDecodable(parse: Parser, payloads: seq<Bytes>)
    requires forall p :: p in payloads ==> parse(p).Some?
    ensures Decodable(parse, payloads) == payloads
  {
    if payloads != [] {
      AllDecodable(parse, payloads[1..]);
      assert payloads == [payloads[0]] + payloads[1..];
    }
  }

  lemma {:induction false} DecodableDelivers(
    parse: Parser, lim: Limits, st: State<seq<Frame>>, payloads: seq<Bytes>)
    requires forall p :: p in payloads ==> |p| <= lim.maxFrame
    requires st.terminal.None?
    requires st.decodedBytes + TotalLength(payloads) <= lim.maxStream && st.eventCount + |payloads| <= lim.maxEvents
    ensures
      var l := Deliver(lim, LogHooks(parse), st, payloads);
      && l.seen == st.seen + FramesOf(Decodable(parse, payloads))
      && l.terminal == (if Decodable(parse, payloads) == payloads then None else Some(DecodeFailed))
    decreases |payloads|
  {
    if payloads != [] {
      var p, more := payloads[0], payloads[1..];
      DeliverCons(lim, LogHooks(parse), st, payloads);
      if parse(p).Some? {
        DecodableCons(parse, payloads);
        DecodableDelivers(parse, lim, Visit(lim, LogHooks(parse), st, p, EncodeFrame(p)), more);
        Assoc(st.seen, [Frame(p, EncodeFrame(p))], FramesOf(Decodable(parse, more)));
      }
    }
  }

  /** A stream of encoded events within the limits decodes to those events, up to
      the first that is none. */
  lemma {:induction false} StreamDecodes(parse: Parser, lim: Limits, payloads: seq<Bytes>)
    requires forall p :: p in payloads ==> |p| <= lim.maxFrame && |p| <= ISIZE_MAX
    requires TotalLength(payloads) <= lim.maxStream && |payloads| <= lim.maxEvents
    ensures
      var l := Decoded(parse, lim, EncodeFrames(payloads));
      && l.seen == FramesOf(Decodable(parse, payloads))
      && l.terminal == (if Decodable(parse, payloads) == payloads then None else Some(DecodeFailed))
  {
    DecodableDelivers(parse, lim, Initial([]), payloads);
    EncodedFramesDeliver(lim, LogHooks(parse), Initial([]), payloads);
    assert [] + FramesOf(Decodable(parse, payloads)) == FramesOf(Decodable(parse, payloads));
  }
}
