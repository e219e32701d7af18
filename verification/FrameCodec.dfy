/** Writing frames and reading them back, with the incremental decoder and with
    the blocking reader. */
module FrameCodec {
  import opened Base
  import opened Varint
  import opened Framing

  /** No byte string in memory is longer than this. */
  const ISIZE_MAX: nat := 0x7FFF_FFFF_FFFF_FFFF

  function EncodeFrame(payload: Bytes): Bytes {
    Varint.Encode(|payload|) + payload
  }

  function EncodeFrames(payloads: seq<Bytes>): Bytes {
    if payloads == [] then [] else EncodeFrame(payloads[0]) + EncodeFrames(payloads[1..])
  }

  /** `encode_frame`, given the encoded message. */
  method WriteFrame(body: Bytes) returns (framed: Bytes)
    ensures framed == EncodeFrame(body)
  {
    framed := WriteVarint(|body|, []);
    framed := framed + body;
  }

  /** A visitor that keeps every payload and never resets the accounting. */
  function Collect(decodes: Bytes -> bool): Hooks<seq<Bytes>> {
    Hooks(decodes, (kept: seq<Bytes>, payload: Bytes, framed: Bytes) => (kept + [payload], Continue))
  }

  function TotalLength(payloads: seq<Bytes>): nat {
    if payloads == [] then 0 else |payloads[0]| + TotalLength(payloads[1..])
  }

  /** The payloads fit what `bytes` and `count` leave of the limits, and each decodes.
      The running total saturates, so at the largest limit no total is too large. */
  predicate Fits(lim: Limits, bytes: nat, count: nat, decodes: Bytes -> bool, payloads: seq<Bytes>) {
    && SatAdd(bytes, TotalLength(payloads)) <= lim.maxStream
    && count + |payloads| <= lim.maxEvents
    && forall p :: p in payloads ==> |p| <= lim.maxFrame && decodes(p)
  }

  lemma FitsCons(lim: Limits, bytes: nat, count: nat, decodes: Bytes -> bool, payloads: seq<Bytes>)
    requires payloads != []
    ensures
      var p := payloads[0];
      Fits(lim, bytes, count, decodes, payloads) <==>
        && |p| <= lim.maxFrame && SatAdd(bytes, |p|) <= lim.maxStream && count < lim.maxEvents && decodes(p)
        && Fits(lim, SatAdd(bytes, |p|), count + 1, decodes, payloads[1..])
  {
    var p, more := payloads[0], payloads[1..];
    assert p in payloads;
    assert forall q :: q in payloads <==> q == p || q in more;
  }

  lemma {:induction false} InspectEncoded(payload: Bytes, rest: Bytes, maxBytes: nat)
    requires |payload| <= ISIZE_MAX
    ensures Inspect(EncodeFrame(payload) + rest, maxBytes) ==
      if |payload| > maxBytes then Err(TooLarge(|payload|, maxBytes))
      else Ok(Complete(|Varint.Encode(|payload|)|, |payload|))
  {
    VarintRoundTrip(|payload|, payload + rest);
    EncodeLength(|payload|);
    Assoc(Varint.Encode(|payload|), payload, rest);
  }

  /** A decoder at a frame boundary visits an encoded frame and goes on. */
  lemma {:induction false} DrainEncoded<V>(lim: Limits, hooks: Hooks<V>, st: State<V>, p: Bytes, rest: Bytes)
    requires |p| <= ISIZE_MAX && st.pending == []
    ensures Drain(lim, hooks, st, EncodeFrame(p) + rest) ==
      if |p| > lim.maxFrame then st.(terminal := Some(TooLarge(|p|, lim.maxFrame))) else
      var next := Visit(lim, hooks, st, p, EncodeFrame(p));
      if next.terminal.Some? then next else Drain(lim, hooks, next, rest)
  {
    InspectEncoded(p, rest, lim.maxFrame);
    EncodeLength(|p|);
    var s, n, total := EncodeFrame(p) + rest, |Varint.Encode(|p|)|, |EncodeFrame(p)|;
    assert s[n..total] == p && s[..total] == EncodeFrame(p) && s[total..] == rest;
    assert st.(pending := []) == st;
  }

  lemma {:induction false} EncodedParts(p: Bytes, maxBytes: nat)
    requires |p| <= ISIZE_MAX && |p| <= maxBytes
    ensures
      var f, n := EncodeFrame(p), |Varint.Encode(|p|)|;
      && Inspect(f, maxBytes) == Ok(Complete(n, |p|))
      && SatAdd(n, |p|) == |f| && f[n..|f|] == p && f[..|f|] == f && f[|f|..] == []
  {
    InspectEncoded(p, [], maxBytes);
    EncodeLength(|p|);
    assert EncodeFrame(p) + [] == EncodeFrame(p);
  }

  /** A whole frame pushed at a frame boundary is visited, and nothing is kept. */
  lemma PushEncoded<V>(lim: Limits, hooks: Hooks<V>, st: State<V>, p: Bytes)
    requires |p| <= lim.maxFrame && |p| <= ISIZE_MAX
    requires st.pending == [] && st.terminal.None?
    ensures Push(lim, hooks, st, EncodeFrame(p)) == Visit(lim, hooks, st, p, EncodeFrame(p))
    ensures Visit(lim, hooks, st, p, EncodeFrame(p)).pending == []
  {
    EncodedParts(p, lim.maxFrame);
    PushFrame(lim, hooks, st, EncodeFrame(p), |Varint.Encode(|p|)|, |p|);
    PushEmpty(lim, hooks, Visit(lim, hooks, st, p, EncodeFrame(p)));
  }

  /** Only a frame within the limits that decodes reaches the visitor. */
  lemma VisitShape<V>(lim: Limits, hooks: Hooks<V>, st: State<V>, payload: Bytes, framed: Bytes)
    requires st.terminal.None?
    ensures
      var next := Visit(lim, hooks, st, payload, framed);
      && next.pending == st.pending
      && next.seen == if next.terminal.None? then hooks.visit(st.seen, payload, framed).0 else st.seen
  {
  }

  lemma PushEmpty<V>(lim: Limits, hooks: Hooks<V>, st: State<V>)
    requires st.pending == []
    ensures Push(lim, hooks, st, []) == st
  {
    assert st.(pending := []) == st;
  }

  /** Payloads handed straight to a visitor, within the limits. */
  function Deliver<V>(lim: Limits, hooks: Hooks<V>, st: State<V>, payloads: seq<Bytes>): State<V>
    decreases |payloads|
  {
    if payloads == [] || st.terminal.Some? then st
    else if |payloads[0]| > lim.maxFrame then st.(terminal := Some(TooLarge(|payloads[0]|, lim.maxFrame)))
    else Deliver(lim, hooks, Visit(lim, hooks, st, payloads[0], EncodeFrame(payloads[0])), payloads[1..])
  }

  /** Framing is transparent: decoding encoded frames delivers their payloads,
      to any visitor. */
  lemma {:induction false} EncodedFramesDeliver<V>(lim: Limits, hooks: Hooks<V>, st: State<V>, payloads: seq<Bytes>)
    requires forall p :: p in payloads ==> |p| <= ISIZE_MAX
    requires st.terminal.None? && st.pending == []
    ensures Drain(lim, hooks, st, EncodeFrames(payloads)) == Deliver(lim, hooks, st, payloads)
    decreases |payloads|
  {
    if payloads == [] {
      PushEmpty(lim, hooks, st);
    } else {
      var p, more := payloads[0], payloads[1..];
      var next := Visit(lim, hooks, st, p, EncodeFrame(p));
      if |p| <= lim.maxFrame && next.terminal.None? {
        EncodedFramesDeliver(lim, hooks, next, more);
      }
      FirstFrameDelivers(lim, hooks, st, p, more);
      assert payloads == [p] + more;
    }
  }

  lemma {:induction false} FirstFrameDelivers<V>(
    lim: Limits, hooks: Hooks<V>, st: State<V>, p: Bytes, more: seq<Bytes>)
    requires |p| <= ISIZE_MAX && st.terminal.None? && st.pending == []
    requires
      var next := Visit(lim, hooks, st, p, EncodeFrame(p));
      |p| <= lim.maxFrame && next.terminal.None? ==>
        Drain(lim, hooks, next, EncodeFrames(more)) == Deliver(lim, hooks, next, more)
    ensures Drain(lim, hooks, st, EncodeFrames([p] + more)) == Deliver(lim, hooks, st, [p] + more)
  {
    assert ([p] + more)[1..] == more;
    DrainEncoded(lim, hooks, st, p, EncodeFrames(more));
    if |p| <= lim.maxFrame {
      DeliverCons(lim, hooks, st, [p] + more);
    }
  }

  lemma {:induction false} DeliverCons<V>(lim: Limits, hooks: Hooks<V>, st: State<V>, payloads: seq<Bytes>)
    requires payloads != [] && |payloads[0]| <= lim.maxFrame && st.terminal.None?
    ensures
      var next := Visit(lim, hooks, st, payloads[0], EncodeFrame(payloads[0]));
      Deliver(lim, hooks, st, payloads) ==
        if next.terminal.Some? then next else Deliver(lim, hooks, next, payloads[1..])
  {
  }

  /** Every payload is collected exactly when all of them fit. */
  lemma {:induction false} DeliverCollects(
    lim: Limits, decodes: Bytes -> bool, st: State<seq<Bytes>>, payloads: seq<Bytes>)
    requires lim.maxEvents <= USIZE_MAX
    requires st.terminal.None?
    requires st.decodedBytes <= lim.maxStream && st.decodedBytes <= USIZE_MAX && st.eventCount <= lim.maxEvents
    ensures
      var r := Deliver(lim, Collect(decodes), st, payloads);
      && (r.terminal.None? <==> Fits(lim, st.decodedBytes, st.eventCount, decodes, payloads))
      && (r.terminal.None? ==> r == State(st.pending, SatAdd(st.decodedBytes, TotalLength(payloads)),
                                          st.eventCount + |payloads|, None, st.seen + payloads))
    decreases |payloads|
  {
    if payloads == [] {
      assert st.seen + [] == st.seen;
    } else {
      var p, more := payloads[0], payloads[1..];
      FitsCons(lim, st.decodedBytes, st.eventCount, decodes, payloads);
      var next := Visit(lim, Collect(decodes), st, p, EncodeFrame(p));
      if |p| <= lim.maxFrame && next.terminal.None? {
        DeliverCollects(lim, decodes, next, more);
        Assoc(st.seen, [p], more);
        assert [p] + more == payloads;
      }
    }
  }

  /** However it is cut, a stream of encoded frames delivers its payloads. */
  lemma {:induction false} StreamDelivers(lim: Limits, decodes: Bytes -> bool, payloads: seq<Bytes>, chunks: seq<Bytes>)
    requires forall p :: p in payloads ==> |p| <= ISIZE_MAX
    requires Flatten(chunks) == EncodeFrames(payloads)
    ensures Outcome(PushAll(lim, Collect(decodes), Initial([]), chunks))
         == Outcome(Deliver(lim, Collect(decodes), Initial([]), payloads))
    ensures PushAll(lim, Collect(decodes), Initial([]), chunks).seen
         == Deliver(lim, Collect(decodes), Initial([]), payloads).seen
  {
    var st := Initial<seq<Bytes>>([]);
    ChunkInvariance(lim, Collect(decodes), st, chunks);
    EncodedFramesDeliver(lim, Collect(decodes), st, payloads);
    assert [] + EncodeFrames(payloads) == EncodeFrames(payloads);
  }

  /** Round trip: a stream of encoded frames, cut anywhere, decodes to its
      payloads exactly when they fit the limits and each decodes. */
  lemma {:induction false} FramesRoundTrip(
    lim: Limits, decodes: Bytes -> bool, payloads: seq<Bytes>, chunks: seq<Bytes>)
    requires lim.maxEvents <= USIZE_MAX
    requires forall p :: p in payloads ==> |p| <= ISIZE_MAX
    requires Flatten(chunks) == EncodeFrames(payloads)
    ensures
      var r := PushAll(lim, Collect(decodes), Initial([]), chunks);
      && (Outcome(r).terminalError.None? <==> Fits(lim, 0, 0, decodes, payloads))
      && (Fits(lim, 0, 0, decodes, payloads) ==>
            r.seen == payloads && Outcome(r) == StreamOutcome(|payloads|, SatAdd(0, TotalLength(payloads)), None))
  {
    StreamDelivers(lim, decodes, payloads, chunks);
    DeliverCollects(lim, decodes, Initial([]), payloads);
    DeliverPending(lim, Collect(decodes), Initial([]), payloads);
    assert [] + payloads == payloads;
  }

  /** What is wrong with a payload that does not fit after `count` others of `bytes`. */
  function Misfit(lim: Limits, bytes: nat, count: nat, p: Bytes): FrameError {
    if |p| > lim.maxFrame then TooLarge(|p|, lim.maxFrame)
    else if SatAdd(bytes, |p|) > lim.maxStream then StreamTooLarge(SatAdd(bytes, |p|), lim.maxStream)
    else if count >= lim.maxEvents then TooManyEvents(SatAdd(count, 1), lim.maxEvents)
    else DecodeFailed
  }

  /** Payload `k` is the first that does not fit. */
  predicate FirstMisfit(lim: Limits, bytes: nat, count: nat, decodes: Bytes -> bool, payloads: seq<Bytes>, k: nat) {
    && k < |payloads|
    && Fits(lim, bytes, count, decodes, payloads[..k]) && !Fits(lim, bytes, count, decodes, payloads[..k + 1])
  }

  lemma {:induction false} FindMisfit(
    lim: Limits, bytes: nat, count: nat, decodes: Bytes -> bool, payloads: seq<Bytes>) returns (k: nat)
    requires Fits(lim, bytes, count, decodes, []) && !Fits(lim, bytes, count, decodes, payloads)
    ensures FirstMisfit(lim, bytes, count, decodes, payloads, k)
  {
    var n := |payloads| - 1;
    if Fits(lim, bytes, count, decodes, payloads[..n]) {
      k := n;
      assert payloads[..n + 1] == payloads;
    } else {
      k := FindMisfit(lim, bytes, count, decodes, payloads[..n]);
      TakeTake(payloads, k, n);
      TakeTake(payloads, k + 1, n);
    }
  }

  lemma {:induction false} TotalAppend(a: seq<Bytes>, b: seq<Bytes>)
    ensures TotalLength(a + b) == TotalLength(a) + TotalLength(b)
  {
    if a == [] {
      assert a + b == b;
    } else {
      TotalAppend(a[1..], b);
      assert (a + b)[1..] == a[1..] + b;
    }
  }

  lemma {:induction false} MisfitIs(
    lim: Limits, bytes: nat, count: nat, decodes: Bytes -> bool, payloads: seq<Bytes>, k: nat)
    requires FirstMisfit(lim, bytes, count, decodes, payloads, k)
    ensures
      var p := payloads[k];
      !(|p| <= lim.maxFrame && SatAdd(SatAdd(bytes, TotalLength(payloads[..k])), |p|) <= lim.maxStream
        && count + k < lim.maxEvents && decodes(p))
  {
    var before, p := payloads[..k], payloads[k];
    var one: seq<Bytes> := [p];
    assert payloads[..k + 1] == before + one && one[1..] == [];
    TotalAppend(before, one);
    assert forall q :: q in before + [p] <==> q in before || q == p;
  }

  lemma {:induction false} DeliverAppend<V>(
    lim: Limits, hooks: Hooks<V>, st: State<V>, a: seq<Bytes>, b: seq<Bytes>)
    ensures Deliver(lim, hooks, st, a + b) == Deliver(lim, hooks, Deliver(lim, hooks, st, a), b)
    decreases |a|
  {
    if a == [] {
      assert a + b == b;
    } else if st.terminal.None? && |a[0]| <= lim.maxFrame {
      assert (a + b)[1..] == a[1..] + b;
      DeliverAppend(lim, hooks, Visit(lim, hooks, st, a[0], EncodeFrame(a[0])), a[1..], b);
    }
  }

  lemma {:induction false} StopsAtOnce(lim: Limits, decodes: Bytes -> bool, st: State<seq<Bytes>>, payloads: seq<Bytes>)
    requires st.terminal.None? && payloads != []
    requires
      var p := payloads[0];
      !(|p| <= lim.maxFrame && SatAdd(st.decodedBytes, |p|) <= lim.maxStream
        && st.eventCount < lim.maxEvents && decodes(p))
    ensures
      var r := Deliver(lim, Collect(decodes), st, payloads);
      && r.seen == st.seen && r.eventCount == st.eventCount
      && r.terminal == Some(Misfit(lim, st.decodedBytes, st.eventCount, payloads[0]))
  {
    if |payloads[0]| <= lim.maxFrame {
      DeliverCons(lim, Collect(decodes), st, payloads);
    }
  }

  /** Delivery stops at the first payload that does not fit, and says what is wrong
      with it. */
  lemma {:induction false} DeliverStops(lim: Limits, decodes: Bytes -> bool, payloads: seq<Bytes>, k: nat)
    requires lim.maxEvents <= USIZE_MAX && FirstMisfit(lim, 0, 0, decodes, payloads, k)
    ensures
      var r := Deliver(lim, Collect(decodes), Initial([]), payloads);
      && r.seen == payloads[..k] && r.eventCount == k
      && r.terminal == Some(Misfit(lim, SatAdd(0, TotalLength(payloads[..k])), k, payloads[k]))
  {
    var st := Initial<seq<Bytes>>([]);
    assert payloads == payloads[..k] + payloads[k..];
    DeliverAppend(lim, Collect(decodes), st, payloads[..k], payloads[k..]);
    DeliverCollects(lim, decodes, st, payloads[..k]);
    assert [] + payloads[..k] == payloads[..k];
    MisfitIs(lim, 0, 0, decodes, payloads, k);
    StopsAtOnce(lim, decodes, Deliver(lim, Collect(decodes), st, payloads[..k]), payloads[k..]);
  }

  /** When the payloads do not all fit, the stream is decoded up to the first that does
      not, and the error names the limit that this one exceeds. */
  lemma {:induction false} FramesStop(
    lim: Limits, decodes: Bytes -> bool, payloads: seq<Bytes>, chunks: seq<Bytes>) returns (k: nat)
    requires lim.maxEvents <= USIZE_MAX
    requires forall p :: p in payloads ==> |p| <= ISIZE_MAX
    requires Flatten(chunks) == EncodeFrames(payloads)
    requires !Fits(lim, 0, 0, decodes, payloads)
    ensures FirstMisfit(lim, 0, 0, decodes, payloads, k)
    ensures
      var r := PushAll(lim, Collect(decodes), Initial([]), chunks);
      && r.seen == payloads[..k] && Outcome(r).eventCount == k
      && Outcome(r).terminalError == Some(Misfit(lim, SatAdd(0, TotalLength(payloads[..k])), k, payloads[k]))
  {
    StreamDelivers(lim, decodes, payloads, chunks);
    k := FindMisfit(lim, 0, 0, decodes, payloads);
    DeliverStops(lim, decodes, payloads, k);
  }

  lemma {:induction false} DeliverPending<V>(lim: Limits, hooks: Hooks<V>, st: State<V>, payloads: seq<Bytes>)
    requires st.pending == []
    ensures Deliver(lim, hooks, st, payloads).pending == []
    decreases |payloads|
  {
    if payloads != [] && st.terminal.None? && |payloads[0]| <= lim.maxFrame {
      DeliverPending(lim, hooks, Visit(lim, hooks, st, payloads[0], EncodeFrame(payloads[0])), payloads[1..]);
    }
  }

  // -------------------------------------------------------------------- reader

  /** What a blocking reader makes of the bytes that remain: the end of the
      stream, the next payload with the bytes its frame takes, or an error. A broken
      source fails after its last byte instead of ending. */
  function NextFrame(s: Bytes, broken: bool, maxBytes: nat): (r: Result<Option<(Bytes, nat)>, FrameError>)
    ensures r.Ok? && r.value.Some? ==> 0 < r.value.value.1 <= |s|
  {
    if s == [] then (if broken then Err(Io) else Ok(None)) else
    match Inspect(s, maxBytes)
    case Err(e) => Err(e)
    case Ok(Complete(prefix, length)) =>
      var total := SatAdd(prefix, length);
      Ok(Some((s[prefix..total], total)))
    case Ok(_) => Err(if broken then Io else Truncated)
  }

  /** Frame after frame until the stream ends or fails. */
  function ReadFrames(s: Bytes, broken: bool, maxBytes: nat): (seq<Bytes>, Option<FrameError>)
    decreases |s|
  {
    match NextFrame(s, broken, maxBytes)
    case Err(e) => ([], Some(e))
    case Ok(None) => ([], None)
    case Ok(Some((payload, taken))) =>
      var (more, error) := ReadFrames(s[taken..], broken, maxBytes);
      ([payload] + more, error)
  }

  /** The reader and the incremental decoder agree on every byte string: same
      payloads, same framing error, limits on the whole stream set aside. Where the
      decoder runs out of bytes, a reader whose source broke off says so instead. */
  lemma {:induction false} ReaderAgrees(lim: Limits, st: State<seq<Bytes>>, s: Bytes, broken: bool)
    requires st.terminal.None? && st.pending == []
    requires st.decodedBytes + |s| <= lim.maxStream <= USIZE_MAX
    requires st.eventCount + |s| <= lim.maxEvents <= USIZE_MAX
    ensures
      var r := Drain(lim, Collect(payload => true), st, s);
      var (payloads, error) := ReadFrames(s, broken, lim.maxFrame);
      var framing := Outcome(r).terminalError;
      && r.seen == st.seen + payloads
      && error == if broken && framing in {None, Some(Truncated)} then Some(Io) else framing
    decreases |s|
  {
    match NextFrame(s, broken, lim.maxFrame) {
      case Ok(Some((payload, taken))) =>
        var next := Visit(lim, Collect(_ => true), st.(pending := []), payload, s[..taken]);
        ReaderAgrees(lim, next, s[taken..], broken);
        Assoc(st.seen, [payload], ReadFrames(s[taken..], broken, lim.maxFrame).0);
      case _ =>
        assert st.seen + [] == st.seen;
    }
  }

  class Reader {
    const data: Bytes
    const broken: bool
    var pos: nat

    ghost predicate Valid()
      reads this
    {
      pos <= |data| <= ISIZE_MAX
    }

    constructor (data: Bytes, broken: bool)
      requires |data| <= ISIZE_MAX
      ensures Valid() && this.data == data && this.broken == broken && pos == 0
    {
      this.data, this.broken := data, broken;
      pos := 0;
    }

    /** `read_varint`: byte by byte, up to ten of them. */
    method ReadVarint() returns (r: Result<Option<nat>, FrameError>)
      requires Valid()
      modifies this`pos
      ensures Valid()
      ensures
        var s := data[old(pos)..];
        match ReadPrefix(s)
        case Length(n, value) => r == Ok(Some(value)) && pos == old(pos) + n
        case NeedMore => r == if broken then Err(Io) else if s == [] then Ok(None) else Err(Truncated)
        case Malformed => r == Err(InvalidVarint)
    {
      ghost var s := data[pos..];
      var value, count := 0, 0;
      while count < 10
        invariant count <= 10 && count <= |s| && pos == old(pos) + count
        invariant value == LittleEndian(s[..count])
        invariant forall j :: 0 <= j < count ==> s[j] >= 128
      {
        if pos == |data| {
          return if broken then Err(Io) else if count == 0 then Ok(None) else Err(Truncated);
        }
        var byte := data[pos];
        assert byte == s[count];
        pos := pos + 1;
        if count == 9 && byte % 128 > 1 {
          return Err(InvalidVarint);
        }
        LittleEndianNext(s, count);
        value := value + byte % 128 * Pow128(count);
        count := count + 1;
        if byte < 128 {
          return Ok(Some(value));
        }
      }
      return Err(InvalidVarint);
    }

    /** `read_frame` gives exactly the frame, the end or the error that the
        incremental decoder's inspection of the same bytes gives. */
    method ReadFrame(maxBytes: nat) returns (r: Result<Option<Bytes>, FrameError>)
      requires Valid()
      modifies this`pos
      ensures Valid()
      ensures
        match NextFrame(data[old(pos)..], broken, maxBytes)
        case Err(e) => r == Err(e)
        case Ok(None) => r == Ok(None)
        case Ok(Some((payload, taken))) => r == Ok(Some(payload)) && pos == old(pos) + taken
    {
      ghost var s := data[pos..];
      var length := ReadVarint();
      match length {
        case Err(e) => return Err(e);
        case Ok(None) => return Ok(None);
        case Ok(Some(n)) =>
          PrefixFitsU64(s);
          if n > maxBytes {
            return Err(TooLarge(n, maxBytes));
          }
          if |data| - pos < n {
            return Err(if broken then Io else Truncated);
          }
          var payload := data[pos..pos + n];
          SliceDrop(data, old(pos), pos - old(pos), pos - old(pos) + n);
          pos := pos + n;
          return Ok(Some(payload));
      }
    }
  }
}
