/** The incremental decoder of a length-delimited BEP stream.

    `Drain` is the meaning of a byte string that starts at a frame boundary;
    the class below reaches the same states from arbitrary chunks while keeping
    at most one partial frame. A visitor closure is modelled as a function that
    is handed its captured state and returns it changed, so every statement
    quantifies over all visitors. Protobuf decoding is the parameter `decodes`. */
module Framing {
  import opened Base
  import opened Varint

  datatype FrameError =
    | Truncated
    | InvalidVarint
    | TooLarge(actual: nat, limit: nat)
    | StreamTooLarge(actual: nat, limit: nat)
    | TooManyEvents(actual: nat, limit: nat)
    | DecodeFailed
    | Io

  datatype FrameState =
    | NeedPrefix
    | NeedPayload(totalBytes: nat)
    | Complete(prefixBytes: nat, frameBytes: nat)

  datatype Limits = Limits(maxFrame: nat, maxStream: nat, maxEvents: nat)

  datatype Control = Continue | ResetAfterFrame

  /** What a decoder calls back: protobuf decoding of a payload, and a visitor
      taking its own state, the payload and the frame with its prefix. */
  datatype Hooks<!V> = Hooks(
    decodes: Bytes -> bool,
    visit: (V, Bytes, Bytes) -> (V, Control))

  /** The observable state of a decoder together with its visitor's state. */
  datatype State<V> = State(
    pending: Bytes,
    decodedBytes: nat,
    eventCount: nat,
    terminal: Option<FrameError>,
    seen: V)

  datatype StreamOutcome = StreamOutcome(
    eventCount: nat,
    decodedBytes: nat,
    terminalError: Option<FrameError>)

  // ---------------------------------------------------------------- inspection

  /** What the bytes at a frame boundary say about the first frame. */
  function Inspect(s: Bytes, maxBytes: nat): (r: Result<FrameState, FrameError>)
    ensures r.Ok? && r.value.Complete? ==>
              1 <= r.value.prefixBytes <= SatAdd(r.value.prefixBytes, r.value.frameBytes) <= |s|
    ensures r.Ok? && r.value.NeedPayload? ==> |s| < r.value.totalBytes
  {
    match ReadPrefix(s)
    case NeedMore => Ok(NeedPrefix)
    case Malformed => Err(InvalidVarint)
    case Length(prefix, length) =>
      if length > maxBytes then Err(TooLarge(length, maxBytes))
      else if |s| >= SatAdd(prefix, length) then Ok(Complete(prefix, length))
      else Ok(NeedPayload(SatAdd(prefix, length)))
  }

  predicate Waiting(s: Bytes, maxBytes: nat) {
    var r := Inspect(s, maxBytes);
    r.Ok? && !r.value.Complete?
  }

  lemma LittleEndianNext(s: Bytes, i: nat)
    requires i < |s|
    ensures LittleEndian(s[..i + 1]) == LittleEndian(s[..i]) + s[i] % 128 * Pow128(i)
  {
    LittleEndianSnoc(s[..i], s[i]);
    assert s[..i] + [s[i]] == s[..i + 1];
  }

  /** `inspect_frame`: one pass over at most ten prefix bytes. */
  method InspectFrame(input: Bytes, maxBytes: nat) returns (r: Result<FrameState, FrameError>)
    ensures r == Inspect(input, maxBytes)
  {
    var value, index := 0, 0;
    while index < |input| && index < 10
      invariant index <= |input| && index <= 10
      invariant value == LittleEndian(input[..index])
      invariant forall j :: 0 <= j < index ==> input[j] >= 128
    {
      var payload := input[index] % 128;
      if index == 9 && payload > 1 {
        return Err(InvalidVarint);
      }
      LittleEndianNext(input, index);
      value := value + payload * Pow128(index);
      if input[index] < 128 {
        if value > maxBytes {
          return Err(TooLarge(value, maxBytes));
        }
        var total := SatAdd(index + 1, value);
        if |input| >= total {
          return Ok(Complete(index + 1, value));
        }
        return Ok(NeedPayload(total));
      }
      index := index + 1;
    }
    if |input| >= 10 {
      return Err(InvalidVarint);
    }
    return Ok(NeedPrefix);
  }

  /** More input changes only the verdicts that asked for more. */
  lemma InspectAppend(s: Bytes, rest: Bytes, maxBytes: nat)
    ensures !Waiting(s, maxBytes) ==> Inspect(s + rest, maxBytes) == Inspect(s, maxBytes)
    ensures Inspect(s, maxBytes).Ok? && Inspect(s, maxBytes).value.NeedPayload? ==>
              ReadPrefix(s + rest) == ReadPrefix(s)
  {
    ReadPrefixAppend(s, rest);
  }

  // ------------------------------------------------------------- stream meaning

  /** `visit_decoded_frame`: limits first, then decoding, then the visitor. */
  function Visit<V>(lim: Limits, hooks: Hooks<V>, st: State<V>, payload: Bytes, framed: Bytes): State<V> {
    var next := SatAdd(st.decodedBytes, |payload|);
    if next > lim.maxStream then
      st.(terminal := Some(StreamTooLarge(next, lim.maxStream)))
    else if st.eventCount >= lim.maxEvents then
      st.(terminal := Some(TooManyEvents(SatAdd(st.eventCount, 1), lim.maxEvents)))
    else if !hooks.decodes(payload) then
      st.(decodedBytes := next, terminal := Some(DecodeFailed))
    else
      var (seen, control) := hooks.visit(st.seen, payload, framed);
      match control
      case Continue => st.(decodedBytes := next, eventCount := SatAdd(st.eventCount, 1), seen := seen)
      case ResetAfterFrame => st.(decodedBytes := 0, eventCount := 0, seen := seen)
  }

  /** The state after all of `s`, which starts at a frame boundary. */
  function Drain<V>(lim: Limits, hooks: Hooks<V>, st: State<V>, s: Bytes): State<V>
    decreases |s|
  {
    match Inspect(s, lim.maxFrame)
    case Err(e) => st.(pending := [], terminal := Some(e))
    case Ok(Complete(prefix, length)) =>
      var total := SatAdd(prefix, length);
      var next := Visit(lim, hooks, st.(pending := []), s[prefix..total], s[..total]);
      if next.terminal.Some? then next else Drain(lim, hooks, next, s[total..])
    case Ok(_) => st.(pending := s)
  }

  /** The part of `s` after the last frame that was visited. */
  function Unvisited<V>(lim: Limits, hooks: Hooks<V>, st: State<V>, s: Bytes): Bytes
    decreases |s|
  {
    match Inspect(s, lim.maxFrame)
    case Ok(Complete(prefix, length)) =>
      var total := SatAdd(prefix, length);
      var next := Visit(lim, hooks, st.(pending := []), s[prefix..total], s[..total]);
      if next.terminal.Some? then s else Unvisited(lim, hooks, next, s[total..])
    case _ => s
  }

  /** The state after one more chunk. */
  function Push<V>(lim: Limits, hooks: Hooks<V>, st: State<V>, chunk: Bytes): State<V> {
    if st.terminal.Some? then st else Drain(lim, hooks, st, st.pending + chunk)
  }

  function PushAll<V>(lim: Limits, hooks: Hooks<V>, st: State<V>, chunks: seq<Bytes>): State<V>
    decreases |chunks|
  {
    if chunks == [] then st else PushAll(lim, hooks, Push(lim, hooks, st, chunks[0]), chunks[1..])
  }

  function Initial<V>(seen: V): State<V> {
    State([], 0, 0, None, seen)
  }

  function Outcome<V>(st: State<V>): StreamOutcome {
    StreamOutcome(
      st.eventCount,
      st.decodedBytes,
      if st.terminal.None? && st.pending != [] then Some(Truncated) else st.terminal)
  }

  /** Between chunks a decoder holds less than one frame, and nothing once it
      has stopped. */
  predicate Settled<V>(lim: Limits, st: State<V>) {
    if st.terminal.Some? then st.pending == [] else Waiting(st.pending, lim.maxFrame)
  }

  lemma {:induction false} DrainSettles<V>(lim: Limits, hooks: Hooks<V>, st: State<V>, s: Bytes)
    requires st.terminal.None?
    ensures Settled(lim, Drain(lim, hooks, st, s))
    decreases |s|
  {
    var r := Inspect(s, lim.maxFrame);
    if r.Ok? && r.value.Complete? {
      var total := SatAdd(r.value.prefixBytes, r.value.frameBytes);
      var next := Visit(lim, hooks, st.(pending := []), s[r.value.prefixBytes..total], s[..total]);
      if next.terminal.None? {
        DrainSettles(lim, hooks, next, s[total..]);
      }
    }
  }

  /** The pending bytes a state carries do not matter to `Drain`. */
  lemma {:induction false} DrainForgetsPending<V>(lim: Limits, hooks: Hooks<V>, st: State<V>, s: Bytes)
    ensures Drain(lim, hooks, st.(pending := []), s) == Drain(lim, hooks, st, s)
  {
    assert st.(pending := []).(pending := []) == st.(pending := []);
  }

  /** Cutting a stream anywhere and resuming from the retained bytes gives the
      same state as reading it in one piece. */
  lemma {:induction false} DrainSplit<V>(lim: Limits, hooks: Hooks<V>, st: State<V>, a: Bytes, b: Bytes)
    requires st.terminal.None?
    ensures Push(lim, hooks, Drain(lim, hooks, st, a), b) == Drain(lim, hooks, st, a + b)
    decreases |a|
  {
    InspectAppend(a, b, lim.maxFrame);
    match Inspect(a, lim.maxFrame) {
      case Err(e) =>
      case Ok(Complete(prefix, length)) =>
        var total := SatAdd(prefix, length);
        assert (a + b)[prefix..total] == a[prefix..total];
        assert (a + b)[..total] == a[..total];
        assert (a + b)[total..] == a[total..] + b;
        var next := Visit(lim, hooks, st.(pending := []), a[prefix..total], a[..total]);
        if next.terminal.None? {
          DrainSplit(lim, hooks, next, a[total..], b);
        }
      case Ok(_) =>
        DrainForgetsPending(lim, hooks, st.(pending := a), a + b);
        DrainForgetsPending(lim, hooks, st, a + b);
        assert st.(pending := a).(pending := []) == st.(pending := []);
    }
  }

  /** Two chunks are as good as one. */
  lemma PushTwice<V>(lim: Limits, hooks: Hooks<V>, st: State<V>, a: Bytes, b: Bytes)
    ensures Push(lim, hooks, Push(lim, hooks, st, a), b) == Push(lim, hooks, st, a + b)
    ensures Settled(lim, st) ==> Settled(lim, Push(lim, hooks, st, a))
  {
    if st.terminal.None? {
      DrainSettles(lim, hooks, st, st.pending + a);
      DrainSplit(lim, hooks, st, st.pending + a, b);
      Assoc(st.pending, a, b);
    }
  }

  /** Chunk boundaries never matter: any way of cutting a stream leaves the
      decoder, its counters, its error and its visitor in the same state. */
  lemma {:induction false} ChunkInvariance<V>(lim: Limits, hooks: Hooks<V>, st: State<V>, chunks: seq<Bytes>)
    requires Settled(lim, st)
    ensures PushAll(lim, hooks, st, chunks) == Push(lim, hooks, st, Flatten(chunks))
    ensures Settled(lim, PushAll(lim, hooks, st, chunks))
    decreases |chunks|
  {
    if chunks == [] {
      PushNothing(lim, hooks, st);
    } else {
      PushTwice(lim, hooks, st, chunks[0], Flatten(chunks[1..]));
      ChunkInvariance(lim, hooks, Push(lim, hooks, st, chunks[0]), chunks[1..]);
    }
  }

  /** An empty chunk changes nothing. */
  lemma PushNothing<V>(lim: Limits, hooks: Hooks<V>, st: State<V>)
    requires Settled(lim, st)
    ensures Push(lim, hooks, st, []) == st
  {
    assert st.pending + [] == st.pending;
  }

  /** At a frame boundary, a complete frame is visited and the rest follows. */
  lemma PushFrame<V>(lim: Limits, hooks: Hooks<V>, st: State<V>, s: Bytes, prefix: nat, length: nat)
    requires st.terminal.None? && st.pending == []
    requires Inspect(s, lim.maxFrame) == Ok(Complete(prefix, length))
    ensures
      var total := SatAdd(prefix, length);
      var visited := Visit(lim, hooks, st, s[prefix..total], s[..total]);
      Push(lim, hooks, st, s) == Push(lim, hooks, visited, s[total..])
  {
    assert [] + s == s && st.(pending := []) == st;
    var total := SatAdd(prefix, length);
    assert [] + s[total..] == s[total..];
  }

  // ------------------------------------------------------------------- decoder

  /** Moving bytes from the input into the retained frame changes nothing. */
  lemma MoveBytes<V>(lim: Limits, hooks: Hooks<V>, st: State<V>, input: Bytes, take: nat)
    requires st.terminal.None? && take <= |input|
    ensures Push(lim, hooks, st.(pending := st.pending + input[..take]), input[take..])
         == Push(lim, hooks, st, input)
  {
    var moved := st.(pending := st.pending + input[..take]);
    assert moved.pending + input[take..] == st.pending + input;
    DrainForgetsPending(lim, hooks, moved, st.pending + input);
    DrainForgetsPending(lim, hooks, st, st.pending + input);
    assert moved.(pending := []) == st.(pending := []);
  }

  lemma PushKept<V>(lim: Limits, hooks: Hooks<V>, st: State<V>, s: Bytes)
    requires st.terminal.None? && st.pending == []
    ensures Push(lim, hooks, st.(pending := s), []) == Push(lim, hooks, st, s)
  {
    assert s + [] == s && [] + s == s;
    DrainForgetsPending(lim, hooks, st.(pending := s), s);
    assert st.(pending := s).(pending := []) == st;
  }

  lemma PushStopped<V>(lim: Limits, hooks: Hooks<V>, st: State<V>, s: Bytes, e: FrameError)
    requires st.terminal.None? && st.pending == [] && Inspect(s, lim.maxFrame) == Err(e)
    ensures Push(lim, hooks, st.(terminal := Some(e)), []) == Push(lim, hooks, st, s)
  {
    assert [] + s == s;
  }

  /** A retained frame that has just become complete is exactly that frame. */
  predicate AtMostOneFrame(pending: Bytes, maxBytes: nat) {
    var r := Inspect(pending, maxBytes);
    r.Ok? && r.value.Complete? ==> |pending| == SatAdd(r.value.prefixBytes, r.value.frameBytes)
  }

  lemma GrowByPrefixByte(pending: Bytes, b: Byte, maxBytes: nat)
    requires Inspect(pending, maxBytes) == Ok(NeedPrefix)
    ensures AtMostOneFrame(pending + [b], maxBytes)
  {
    var k := FirstStop(pending + [b]);
    assert k >= |pending| by {
      FirstStopAppend(pending, [b]);
    }
  }

  lemma GrowByPayload(pending: Bytes, more: Bytes, maxBytes: nat)
    requires Inspect(pending, maxBytes).Ok? && Inspect(pending, maxBytes).value.NeedPayload?
    requires |pending| + |more| <= Inspect(pending, maxBytes).value.totalBytes
    ensures AtMostOneFrame(pending + more, maxBytes)
  {
    InspectAppend(pending, more, maxBytes);
  }
  class IncrementalStreamDecoder {
    var pending: Bytes
    var decodedBytes: nat
    var eventCount: nat
    var terminalError: Option<FrameError>
    const limits: Limits

    ghost predicate Valid()
      reads this
    {
      terminalError.None? ==> Waiting(pending, limits.maxFrame)
    }

    /** The state as a caller can observe it: bytes left behind by an error are
        never looked at again. */
    ghost function View<V>(seen: V): State<V>
      reads this
    {
      State(if terminalError.Some? then [] else pending, decodedBytes, eventCount, terminalError, seen)
    }

    constructor (limits: Limits)
      ensures Valid()
      ensures this.limits == limits
      ensures View(()) == Initial(())
      ensures pending == [] && decodedBytes == 0 && eventCount == 0 && terminalError == None
    {
      this.limits := limits;
      pending, decodedBytes, eventCount, terminalError := [], 0, 0, None;
    }

    method VisitDecodedFrame<V>(hooks: Hooks<V>, seen: V, payload: Bytes, framed: Bytes) returns (after: V)
      requires terminalError.None?
      modifies this`decodedBytes, this`eventCount, this`terminalError
      ensures State([], decodedBytes, eventCount, terminalError, after)
           == Visit(limits, hooks, State([], old(decodedBytes), old(eventCount), None, seen), payload, framed)
    {
      after := seen;
      var next := SatAdd(decodedBytes, |payload|);
      if next > limits.maxStream {
        terminalError := Some(StreamTooLarge(next, limits.maxStream));
        return;
      }
      if eventCount >= limits.maxEvents {
        terminalError := Some(TooManyEvents(SatAdd(eventCount, 1), limits.maxEvents));
        return;
      }
      decodedBytes := next;
      if hooks.decodes(payload) {
        var (seen', control) := hooks.visit(seen, payload, framed);
        after := seen';
        match control {
          case Continue =>
            eventCount := SatAdd(eventCount, 1);
          case ResetAfterFrame =>
            decodedBytes := 0;
            eventCount := 0;
        }
      } else {
        terminalError := Some(DecodeFailed);
      }
    }

    /** Decodes the one retained frame, which is complete, and forgets it. */
    method TakePending<V>(hooks: Hooks<V>, seen: V, prefix: nat, length: nat) returns (after: V)
      requires terminalError.None?
      requires Inspect(pending, limits.maxFrame) == Ok(Complete(prefix, length))
      requires AtMostOneFrame(pending, limits.maxFrame)
      modifies this
      ensures pending == []
      ensures Valid()
      ensures forall rest: Bytes :: Push(limits, hooks, View(after), rest) == Push(limits, hooks, old(View(seen)), rest)
    {
      var framed := pending;
      var consumed := SatAdd(prefix, length);
      pending := [];
      ghost var start := State([], decodedBytes, eventCount, None, seen);
      after := VisitDecodedFrame(hooks, seen, framed[prefix..consumed], framed[..consumed]);
      forall rest: Bytes
        ensures Push(limits, hooks, View(after), rest) == Push(limits, hooks, start.(pending := framed), rest)
      {
        InspectAppend(framed, rest, limits.maxFrame);
        var s := framed + rest;
        assert s[prefix..consumed] == framed[prefix..consumed];
        assert s[..consumed] == framed[..consumed];
        assert s[consumed..] == rest;
        PushFrame(limits, hooks, start, s, prefix, length);
        DrainForgetsPending(limits, hooks, start.(pending := framed), s);
        assert start.(pending := framed).(pending := []) == start && [] + s == s;
      }
    }

    /** One turn of the loop with nothing retained: the frame at the front of
        the input is decoded where it lies, or what there is of it is kept. */
    method StepInput<V>(hooks: Hooks<V>, seen: V, input: Bytes) returns (after: V, rest: Bytes)
      requires terminalError.None? && pending == [] && input != []
      modifies this
      ensures |rest| < |input|
      ensures pending != [] ==> Waiting(pending, limits.maxFrame)
      ensures Push(limits, hooks, View(after), rest) == Push(limits, hooks, old(View(seen)), input)
    {
      after, rest := seen, [];
      ghost var st := View(seen);
      var r := InspectFrame(input, limits.maxFrame);
      match r {
        case Ok(Complete(prefix, length)) =>
          var consumed := SatAdd(prefix, length);
          PushFrame(limits, hooks, View(seen), input, prefix, length);
          after := VisitDecodedFrame(hooks, seen, input[prefix..consumed], input[..consumed]);
          rest := input[consumed..];
        case Ok(_) =>
          PushKept(limits, hooks, View(seen), input);
          pending := pending + input;
          assert pending == input;
          assert View(after) == st.(pending := input);
        case Err(e) =>
          PushStopped(limits, hooks, View(seen), input, e);
          terminalError := Some(e);
          assert View(after) == st.(terminal := Some(e));
      }
    }

    /** One turn of the loop with a partial frame retained. Prefix bytes are
        moved one at a time and payload bytes up to the end of the frame, so
        that no byte of the next frame is ever retained. */
    method StepPending<V>(hooks: Hooks<V>, seen: V, input: Bytes) returns (after: V, rest: Bytes)
      requires terminalError.None? && pending != [] && input != []
      requires AtMostOneFrame(pending, limits.maxFrame)
      modifies this
      ensures |rest| < |input| || (rest == input && |pending| < old(|pending|))
      ensures terminalError.None? ==> AtMostOneFrame(pending, limits.maxFrame)
      ensures Push(limits, hooks, View(after), rest) == Push(limits, hooks, old(View(seen)), input)
    {
      after, rest := seen, [];
      var r := InspectFrame(pending, limits.maxFrame);
      match r {
        case Ok(NeedPrefix) =>
          GrowByPrefixByte(pending, input[0], limits.maxFrame);
          MoveBytes(limits, hooks, View(seen), input, 1);
          assert [input[0]] == input[..1];
          pending, rest := pending + [input[0]], input[1..];
        case Ok(NeedPayload(total)) =>
          var take := if |input| < total - |pending| then |input| else total - |pending|;
          GrowByPayload(pending, input[..take], limits.maxFrame);
          MoveBytes(limits, hooks, View(seen), input, take);
          pending, rest := pending + input[..take], input[take..];
        case Ok(Complete(prefix, length)) =>
          after := TakePending(hooks, seen, prefix, length);
          rest := input;
        case Err(e) =>
          InspectAppend(pending, input, limits.maxFrame);
          terminalError := Some(e);
      }
    }

    /** A chunk can provide exactly the bytes that complete the retained frame. */
    method SettlePending<V>(hooks: Hooks<V>, seen: V) returns (after: V)
      requires terminalError.None?
      requires AtMostOneFrame(pending, limits.maxFrame)
      modifies this
      ensures Valid()
      ensures View(after) == Push(limits, hooks, old(View(seen)), [])
    {
      after := seen;
      assert pending + [] == pending;
      if pending != [] {
        var r := InspectFrame(pending, limits.maxFrame);
        match r {
          case Ok(Complete(prefix, length)) =>
            after := TakePending(hooks, seen, prefix, length);
            PushNothing(limits, hooks, View(after));
          case Ok(_) =>
          case Err(e) =>
            terminalError := Some(e);
        }
      }
    }

    /** `push_frames`: consumes a chunk, visiting every frame it completes. */
    method PushFrames<V>(hooks: Hooks<V>, chunk: Bytes, seen: V) returns (after: V)
      requires Valid()
      modifies this
      ensures Valid()
      ensures View(after) == Push(limits, hooks, old(View(seen)), chunk)
    {
      after := seen;
      var input := chunk;
      while input != [] && terminalError.None?
        invariant terminalError.None? ==> AtMostOneFrame(pending, limits.maxFrame)
        invariant Push(limits, hooks, View(after), input) == Push(limits, hooks, old(View(seen)), chunk)
        decreases |input|, |pending|
      {
        if pending == [] {
          after, input := StepInput(hooks, after, input);
        } else {
          after, input := StepPending(hooks, after, input);
        }
      }
      if terminalError.None? {
        after := SettlePending(hooks, after);
      }
    }

    /** A retained prefix or payload is a truncated frame. */
    method Finish() returns (outcome: StreamOutcome)
      requires Valid()
      ensures outcome == Outcome(View(()))
    {
      var error := terminalError;
      if error.None? && pending != [] {
        error := Some(Truncated);
      }
      outcome := StreamOutcome(eventCount, decodedBytes, error);
    }
  }
}
