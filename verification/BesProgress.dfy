/** When nothing fails, the Build Event Service completes exactly the streams that
    are well formed, wherever the batch happens to be flushed. */
module BesProgress {
  import opened Base
  import opened Framing
  import opened FrameCodec
  import opened Writer
  import opened Capture
  import opened Trace
  import opened Bes
  import opened BesSafety

  /** No coming system call on the evidence file fails. */
  predicate Faultless(w: DurableWriter) {
    w.Append? ==> forall i :: 0 <= i < |w.file.faults| ==> w.file.faults[i].Succeeds?
  }

  lemma CommitFaultless(c: Core, raw: Bytes)
    requires c.error.None? && Faultless(c.durable)
    ensures c.Commit(raw).error.None? && Faultless(c.Commit(raw).durable)
  {
  }

  lemma BeginRetryFaultless(c: Core)
    requires c.error.None? && Faultless(c.durable)
    ensures c.BeginRetry().error.None? && Faultless(c.BeginRetry().durable)
  {
  }

  lemma AbsorbFaultless(parse: Parser, c: Core, payload: Bytes, framed: Bytes)
    requires c.error.None? && Faultless(c.durable)
    ensures c.Absorb(parse, payload, framed).error.None? && Faultless(c.Absorb(parse, payload, framed).durable)
  {
    BeginRetryFaultless(c);
    CommitFaultless(c, framed);
    CommitFaultless(c.BeginRetry(), framed);
  }

  lemma IngestFaultless(parse: Parser, lim: Limits, st: State<Pipe>, p: Bytes)
    requires Idle(st) && Faultless(st.seen.core.durable)
    requires |p| <= lim.maxFrame && |p| <= ISIZE_MAX
    ensures
      var next := Ingested(parse, lim, st, EncodeFrame(p));
      next.seen.core.error.None? && Faultless(next.seen.core.durable)
  {
    CommitFaultless(st.seen.core, EncodeFrame(p));
    if st.terminal.None? {
      VisitFaultless(parse, lim, st, p);
    }
  }

  lemma VisitFaultless(parse: Parser, lim: Limits, st: State<Pipe>, p: Bytes)
    requires Idle(st) && Faultless(st.seen.core.durable) && st.terminal.None?
    requires |p| <= lim.maxFrame && |p| <= ISIZE_MAX
    ensures
      var f := EncodeFrame(p);
      var pushed := Push(lim, PipeHooks(parse), st.(seen := st.seen.(raw := st.seen.raw + f)), f);
      && pushed.seen.core.error.None? && Faultless(pushed.seen.core.durable)
      && (pushed.terminal.Some? ==> pushed.seen == Pipe(st.seen.core, f))
  {
    var f := EncodeFrame(p);
    var fed := st.(seen := st.seen.(raw := f));
    assert st.seen.raw + f == f && f + [] == f;
    PushEncoded(lim, PipeHooks(parse), fed, p);
    FrameMatches(parse, fed.seen, p, f, []);
    AbsorbFaultless(parse, st.seen.core, p, f);
  }

  lemma {:induction false} BatchFaultless(parse: Parser, st: State<Pipe>, payloads: seq<Bytes>)
    requires Idle(st) && Faultless(st.seen.core.durable)
    requires forall p :: p in payloads ==> |p| <= DEFAULT_LIMITS.maxFrame
    ensures
      var end := IngestedAll(parse, DEFAULT_LIMITS, st, Framed(payloads));
      end.seen.core.error.None? && Faultless(end.seen.core.durable)
    decreases |payloads|
  {
    if payloads != [] {
      var p := payloads[0];
      assert p in payloads && Framed(payloads)[1..] == Framed(payloads[1..]);
      IngestFaultless(parse, DEFAULT_LIMITS, st, p);
      IngestWholeFrame(parse, DEFAULT_LIMITS, st, p);
      BatchFaultless(parse, Ingested(parse, DEFAULT_LIMITS, st, EncodeFrame(p)), payloads[1..]);
    }
  }

  /** A link on which nothing has failed and nothing will. */
  predicate Calm(link: Link) {
    && link.error.None?
    && (forall i :: 0 <= i < |link.handoffs| ==> link.handoffs[i].Answered?)
    && (forall i :: 0 <= i < |link.client| ==> link.client[i])
    && Faultless(link.receiver.st.seen.core.durable)
  }

  lemma RespondCalm(link: Link, n: int)
    requires Calm(link)
    ensures Calm(Respond(link, n))
  {
  }

  lemma {:induction false} RespondAllCalm(link: Link, ns: seq<int>)
    requires Calm(link)
    ensures Calm(RespondAll(link, ns))
    decreases |ns|
  {
    if ns != [] {
      RespondCalm(link, ns[0]);
      RespondAllCalm(Respond(link, ns[0]), ns[1..]);
    }
  }

  lemma ForwardCalm(parse: Parser, link: Link, d: Delivery)
    requires Calm(link) && link.receiver.open
    requires
      var (receiver, ok) := Handle(parse, link.receiver, d);
      ok && Faultless(receiver.st.seen.core.durable)
    ensures Calm(Forward(parse, link, d))
  {
  }

  lemma {:induction false} FlushCalm(
    parse: Parser, link: Link, events: seq<Option<Bytes>>, batch: Batch, finished: bool)
    requires Pending(link, events, batch, finished) && Calm(link)
    requires WithinLimits(Payloads(events))
    ensures Calm(Flush(parse, link, batch))
  {
    if batch.frames != [] {
      var m, ps := |AcceptedFrames(link.wire)|, Payloads(events);
      PendingPayloads(AcceptedFrames(link.wire), batch.frames, ps);
      assert forall p :: p in ps[m..] ==> p in ps;
      BatchFaultless(parse, link.receiver.st, ps[m..]);
      ForwardCalm(parse, link, Frames(batch.frames));
      RespondAllCalm(Forward(parse, link, Frames(batch.frames)), batch.responses);
    }
  }

  lemma FinishCalm(parse: Parser, link: Link)
    requires Calm(link) && Idle(link.receiver.st) && link.receiver.open
    ensures Calm(Forward(parse, link, Finish))
  {
    ForwardCalm(parse, link, Finish);
  }

  // ------------------------------------------------------- what a stream may hold

  /** A type url that names a Bazel event, or none at all. */
  ghost predicate NamesBazelEvent(url: string) {
    |url| <= 256 && (url == "" || exists prefix :: url == prefix + "/build_event_stream.BuildEvent")
  }

  predicate WithinFrame(value: Bytes) {
    |value| <= 64 * 1024 * 1024
  }

  predicate WithinStream(value: Bytes, bytes: nat) {
    bytes + |value| <= 128 * 1024 * 1024
  }

  predicate WithinCount(count: nat) {
    count < 1_000_000
  }

  /** A body that fits after payloads of this count and size. */
  ghost predicate GoodBody(body: Body, stats: Stats) {
    match body
    case BazelEvent(url, value) =>
      && NamesBazelEvent(url)
      && WithinFrame(value) && WithinStream(value, stats.bepBytes) && WithinCount(stats.eventCount)
    case ComponentStreamFinished(kind) => kind == 1
    case NoBody => true
  }

  /** What a request must look like, next in its stream. */
  ghost predicate Expected(id: StreamId, n: nat, stats: Stats, finished: bool, request: Request) {
    && request.Some? && request.value.event.Some?
    && request.value.streamId == Some(id) && request.value.sequence == n + 1
    && n <= 1_000_000 && !finished
    && GoodBody(request.value.event.value, stats)
  }

  /** What is wrong with a body, if it is not as expected. */
  ghost function BodyFault(body: Body, stats: Stats): BesError {
    match body
    case BazelEvent(url, value) =>
      if !NamesBazelEvent(url) then UnexpectedTypeUrl
      else if !WithinFrame(value) then FrameTooLarge
      else if !WithinStream(value, stats.bepBytes) then StreamBytesExceeded
      else EventCountExceeded
    case _ => UnsupportedFinish
  }

  /** The first thing that is wrong with a request that is not as expected. */
  ghost function FirstFault(id: StreamId, n: nat, stats: Stats, finished: bool, request: Request): BesError {
    if request.None? then MissingOrderedEvent
    else if n > 1_000_000 then TooManyRequests
    else if request.value.streamId.None? then MissingStreamId
    else if request.value.streamId != Some(id) then StreamIdChanged
    else if request.value.sequence != n + 1 then OutOfSequence
    else if request.value.event.None? then MissingEvent
    else if finished then AfterFinished
    else BodyFault(request.value.event.value, stats)
  }

  /** Where a stream is: how many requests, their payloads so far, and whether the
      finish was among them. */
  datatype Progress = Progress(requests: nat, stats: Stats, finished: bool)

  datatype Verdict = Proceeds(next: Progress) | Completes | Refused(fault: BesError)

  ghost function Judge(id: StreamId, at: Progress, input: Input): Verdict {
    match input
    case EndOfStream => if at.finished then Completes else Refused(EndedWithoutFinish)
    case ReceiveFailed => Refused(ReceiveError)
    case Idled => Proceeds(at)
    case Message(request) =>
      if !Expected(id, at.requests, at.stats, at.finished, request)
      then Refused(FirstFault(id, at.requests, at.stats, at.finished, request)) else
      var body := request.value.event.value;
      var stats := if body.BazelEvent?
                   then Stats(at.stats.eventCount + 1, at.stats.bepBytes + |body.value|) else at.stats;
      Proceeds(Progress(at.requests + 1, stats, body.ComponentStreamFinished?))
  }

  /** Where a whole input leads. */
  ghost function JudgeAll(id: StreamId, at: Progress, inputs: seq<Input>): Verdict
    decreases |inputs|
  {
    if inputs == [] then Proceeds(at) else
    match Judge(id, at, inputs[0])
    case Proceeds(next) => JudgeAll(id, next, inputs[1..])
    case verdict => verdict
  }

  /** A well-formed stream: requests of one stream numbered without a gap, payloads
      within the limits, one finish of the supported kind with no request after
      it, and then the end. */
  ghost predicate WellFormed(id: StreamId, at: Progress, inputs: seq<Input>)
    decreases |inputs|
  {
    inputs != [] &&
    match Judge(id, at, inputs[0])
    case Proceeds(next) => WellFormed(id, next, inputs[1..])
    case Completes => true
    case Refused(_) => false
  }

  lemma {:induction false} JudgedWellFormed(id: StreamId, at: Progress, inputs: seq<Input>)
    ensures JudgeAll(id, at, inputs) == Completes <==> WellFormed(id, at, inputs)
    decreases |inputs|
  {
    if inputs != [] && Judge(id, at, inputs[0]).Proceeds? {
      JudgedWellFormed(id, Judge(id, at, inputs[0]).next, inputs[1..]);
    }
  }

  /** The service admits exactly these type urls ... */
  lemma {:induction false} UrlAdmitted(url: string)
    ensures TypeUrlAllowed(url) <==> NamesBazelEvent(url)
  {
    var suffix := "/build_event_stream.BuildEvent";
    if TypeUrlAllowed(url) && url != "" {
      assert url == url[..|url| - |suffix|] + suffix;
    }
    if url != "" && NamesBazelEvent(url) {
      var prefix :| url == prefix + suffix;
      assert url[|url| - |suffix|..] == suffix;
    }
  }

  /** ... and exactly these payloads, naming the first limit that one exceeds. */
  lemma PayloadAdmitted(value: Bytes, stats: Stats)
    ensures FramePayload(value, stats) ==
      if !WithinFrame(value) then Err(FrameTooLarge)
      else if !WithinStream(value, stats.bepBytes) then Err(StreamBytesExceeded)
      else if !WithinCount(stats.eventCount) then Err(EventCountExceeded)
      else Ok(EncodeFrame(value))
  {
  }

  lemma JoinedCalm(parse: Parser, s: Session, value: Bytes)
    requires Live(s) && Calm(s.link) && !s.sawFinished
    requires FramePayload(value, s.stats).Ok?
    ensures Calm(Flush(parse, s.link, Join(s, s.expected, value, EncodeFrame(value)).batch))
  {
    var joined := Join(s, s.expected, value, EncodeFrame(value));
    PendingJoin(s.link, s.events, s.batch, value, joined.batch.bytes);
    JoinStats(s.events, s.stats, value);
    FlushCalm(parse, s.link, joined.events, joined.batch, false);
  }

  lemma BazelEventCalm(parse: Parser, s: Session, url: string, value: Bytes)
    requires Live(s) && Calm(s.link) && s.Running() && !s.sawFinished
    requires TypeUrlAllowed(url) && FramePayload(value, s.stats).Ok?
    ensures
      var r := OnBazelEvent(parse, s, s.expected, url, value);
      && Calm(r.link) && r.sawFinished == s.sawFinished && r.events == s.events + [Some(value)]
      && r.identity == s.identity && r.expected == s.expected && r.requestCount == s.requestCount && !r.completed
      && r.stats == Stats(s.stats.eventCount + 1, s.stats.bepBytes + |value|)
  {
    JoinedCalm(parse, s, value);
    JoinStats(s.events, s.stats, value);
    BazelEventShape(parse, s, url, value);
  }

  lemma FinishedCalm(parse: Parser, s: Session)
    requires Live(s) && Calm(s.link) && !s.sawFinished
    ensures Calm(OnFinished(parse, s, s.expected, 1).link)
  {
    FlushCalm(parse, s.link, s.events, s.batch, false);
    FlushKeeps(parse, s.link, s.events, s.batch, false);
    var flushed := Flush(parse, s.link, s.batch);
    FinishCalm(parse, flushed);
    RespondCalm(Forward(parse, flushed, Finish), s.expected);
  }

  lemma OtherCalm(parse: Parser, s: Session)
    requires Live(s) && Calm(s.link)
    ensures Calm(OnOtherEvent(parse, s, s.expected).link)
  {
    FlushCalm(parse, s.link, s.events, s.batch, s.sawFinished);
    RespondCalm(Flush(parse, s.link, s.batch), s.expected);
  }

  /** One turn with a well-formed request: nothing fails. */
  lemma {:induction false} RequestCalm(parse: Parser, s: Session, body: Body)
    requires Live(s) && Calm(s.link) && s.Running() && !s.sawFinished && GoodBody(body, s.stats)
    ensures
      var r := OnBody(parse, s, body);
      && Calm(r.link) && r.identity == s.identity && r.expected == s.expected
      && r.requestCount == s.requestCount && !r.completed
      && |r.events| == |s.events| + 1
      && r.sawFinished == body.ComponentStreamFinished?
      && r.stats ==
           (if body.BazelEvent? then Stats(s.stats.eventCount + 1, s.stats.bepBytes + |body.value|) else s.stats)
  {
    match body
    case BazelEvent(url, value) =>
      UrlAdmitted(url);
      PayloadAdmitted(value, s.stats);
      BazelEventCalm(parse, s, url, value);
    case ComponentStreamFinished(_) => FinishedCalm(parse, s);
    case NoBody => OtherCalm(parse, s);
  }

  /** One turn with any other body: the RPC fails and says why. */
  lemma {:induction false} BadBodyFails(parse: Parser, s: Session, body: Body)
    requires s.link.error.None? && !GoodBody(body, s.stats)
    ensures OnBody(parse, s, body).link.error == Some(BodyFault(body, s.stats))
  {
    match body
    case BazelEvent(url, value) =>
      UrlAdmitted(url);
      PayloadAdmitted(value, s.stats);
    case ComponentStreamFinished(kind) =>
  }

  /** The screening finds the first fault of a request before its body. */
  lemma {:induction false} ScreenExact(id: StreamId, n: nat, stats: Stats, finished: bool, request: Request)
    ensures
      var screened := Screen(id, n + 1, n, finished, request);
      if screened.Some? then
        && !Expected(id, n, stats, finished, request)
        && screened.value == FirstFault(id, n, stats, finished, request)
      else
        && request.Some? && request.value.event.Some? && n <= 1_000_000 && !finished
        && (Expected(id, n, stats, finished, request) <==> GoodBody(request.value.event.value, stats))
        && FirstFault(id, n, stats, finished, request) == BodyFault(request.value.event.value, stats)
  {
  }

  /** A request that is not refused is counted after its body was handled. */
  lemma RequestShape(parse: Parser, s: Session, request: Request)
    requires s.expected == s.requestCount + 1
    ensures
      var refused := Screen(s.identity, s.expected, s.requestCount, s.sawFinished, request);
      OnRequest(parse, s, request) ==
        if refused.Some? then s.Fail(refused.value) else Counted(OnBody(parse, s, request.value.event.value))
  {
  }

  /** The session after a body it has taken. */
  predicate Took(s: Session, r: Session, body: Body) {
    && Calm(r.link) && !r.completed && r.identity == s.identity
    && |r.events| == |s.events| + 1
    && r.sawFinished == body.ComponentStreamFinished?
    && r.stats ==
         (if body.BazelEvent? then Stats(s.stats.eventCount + 1, s.stats.bepBytes + |body.value|) else s.stats)
  }

  lemma {:induction false} BodyExact(parse: Parser, s: Session, body: Body)
    requires Live(s) && Calm(s.link) && s.Running() && !s.sawFinished
    ensures
      var r := Counted(OnBody(parse, s, body));
      if GoodBody(body, s.stats) then Took(s, r, body) else r.link.error == Some(BodyFault(body, s.stats))
  {
    if GoodBody(body, s.stats) {
      RequestCalm(parse, s, body);
    } else {
      BadBodyFails(parse, s, body);
    }
  }

  lemma {:induction false} RequestExact(parse: Parser, s: Session, request: Request)
    requires Live(s) && Calm(s.link) && s.Running()
    ensures
      var r := OnRequest(parse, s, request);
      if Expected(s.identity, |s.events|, s.stats, s.sawFinished, request)
      then Took(s, r, request.value.event.value)
      else r.link.error == Some(FirstFault(s.identity, |s.events|, s.stats, s.sawFinished, request))
  {
    RequestShape(parse, s, request);
    ScreenExact(s.identity, |s.events|, s.stats, s.sawFinished, request);
    if Screen(s.identity, s.expected, s.requestCount, s.sawFinished, request).None? {
      BodyExact(parse, s, request.value.event.value);
    }
  }

  lemma EndExact(parse: Parser, s: Session)
    requires Live(s) && Calm(s.link) && s.Running()
    ensures
      var r := OnEnd(parse, s);
      if s.sawFinished then r.completed && r.link.error.None? else r.link.error == Some(EndedWithoutFinish)
  {
    FlushCalm(parse, s.link, s.events, s.batch, s.sawFinished);
  }

  function ProgressOf(s: Session): Progress {
    Progress(|s.events|, s.stats, s.sawFinished)
  }

  /** A session that is where the verdict says. */
  ghost predicate Follows(s: Session, r: Session, verdict: Verdict) {
    match verdict
    case Proceeds(next) => Calm(r.link) && r.Running() && r.identity == s.identity && ProgressOf(r) == next
    case Completes => r.completed && r.link.error.None?
    case Refused(fault) => r.link.error == Some(fault)
  }

  lemma MessageExact(parse: Parser, s: Session, request: Request)
    requires Live(s) && Calm(s.link) && s.Running()
    ensures Follows(s, OnRequest(parse, s, request), Judge(s.identity, ProgressOf(s), Message(request)))
  {
    RequestExact(parse, s, request);
  }

  lemma IdleExact(parse: Parser, s: Session)
    requires Live(s) && Calm(s.link) && s.Running()
    ensures Follows(s, FlushSession(parse, s), Proceeds(ProgressOf(s)))
  {
    FlushCalm(parse, s.link, s.events, s.batch, s.sawFinished);
  }

  /** One turn of the loop follows the verdict. */
  lemma StepExact(parse: Parser, s: Session, input: Input)
    requires Live(s) && Calm(s.link) && s.Running()
    ensures Follows(s, Step(parse, s, input), Judge(s.identity, ProgressOf(s), input))
  {
    match input
    case EndOfStream => EndExact(parse, s);
    case ReceiveFailed =>
    case Idled => IdleExact(parse, s);
    case Message(request) => MessageExact(parse, s, request);
  }

  /** With nothing failing, a run is where its messages lead, whatever the scheduler
      does in between; in particular a refused one reports the first fault. */
  lemma {:induction false} RunExact(parse: Parser, s: Session, inputs: seq<Input>)
    requires Live(s) && Calm(s.link) && s.Running()
    ensures Follows(s, Run(parse, s, inputs), JudgeAll(s.identity, ProgressOf(s), inputs))
    decreases |inputs|
  {
    if inputs != [] {
      var next, rest := Step(parse, s, inputs[0]), inputs[1..];
      StepKeeps(parse, s, inputs[0]);
      StepExact(parse, s, inputs[0]);
      if Judge(s.identity, ProgressOf(s), inputs[0]).Proceeds? {
        RunExact(parse, next, rest);
      } else {
        StoppedStaysStopped(parse, next, rest);
      }
    }
  }

  /** With nothing failing, a capture completes if and only if the stream is well
      formed. */
  lemma {:induction false} CompletesExactly(parse: Parser, s: Session, inputs: seq<Input>)
    requires Live(s) && Calm(s.link) && s.Running()
    ensures
      var end := Run(parse, s, inputs);
      end.completed && end.link.error.None? <==> WellFormed(s.identity, ProgressOf(s), inputs)
  {
    RunExact(parse, s, inputs);
    JudgedWellFormed(s.identity, ProgressOf(s), inputs);
  }

  /** An identity short enough to be taken over from the first request. */
  predicate ShortId(id: StreamId) {
    |id.buildId| <= 128 && |id.invocationId| <= 128
  }

  /** The whole capture, first request included: with nothing failing it completes if
      and only if the first request carries an identity whose fields are at most 128
      bytes long and the stream is well formed under that identity. */
  lemma {:induction false} CaptureExactly(parse: Parser, link: Link, first: Request, more: seq<Input>)
    requires Opened(Open(first, link)) && Calm(link)
    ensures
      var end := Run(parse, Open(first, link), [Message(first)] + more);
      var named := first.Some? && first.value.streamId.Some?;
      && (end.completed && end.link.error.None? <==>
            && named && ShortId(first.value.streamId.value)
            && WellFormed(first.value.streamId.value, Progress(0, Stats(0, 0), false), [Message(first)] + more))
      && (first.None? ==> end.link.error == Some(MissingOrderedEvent))
      && (first.Some? && !named ==> end.link.error == Some(MissingStreamId))
      && (named && !ShortId(first.value.streamId.value) ==> end.link.error == Some(StreamIdTooLong))
  {
    var s, inputs := Open(first, link), [Message(first)] + more;
    OpenedIsLive(s);
    if s.link.error.None? {
      CompletesExactly(parse, s, inputs);
    } else {
      StoppedStaysStopped(parse, s, inputs);
    }
  }
}
