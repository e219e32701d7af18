/** Following a BEP file while Bazel is still writing it, with a post-exit decode
    to fall back on.

    The file system is a script: what each read of the growing file returns, and
    the contents the file ends up with once Bazel has exited. The digest is an
    injective parameter. */
module Tail {
  import opened Base
  import opened Framing
  import opened Writer
  import opened Capture
  import opened Trace
  import opened Runs
  import opened Evidence

  const READ_BUFFER: nat := 64 * 1024

  type Report = (seq<Bytes>, StreamOutcome)

  /** One turn of the tail loop: bytes, the end of what there is so far (and
      whether the invocation is over), or an error. */
  datatype Read = Data(chunk: Bytes) | Idle(finishing: bool) | ReadFailed

  datatype Source = Incremental | PostHocFallback

  datatype Reduction = Reduction(report: Report, source: Source)

  /** What decoding the retained file reports; a missing file has no events. */
  function FileReport(parse: Parser, file: Option<Bytes>): Report {
    match file
    case None => ([], StreamOutcome(0, 0, None))
    case Some(s) => Reported(parse, DEFAULT_LIMITS, s)
  }

  ghost predicate Injective(digest: Bytes -> Bytes) {
    forall a, b :: digest(a) == digest(b) ==> a == b
  }

  /** Every pipeline in this module starts over bytes that are already on disk. */
  const PERSISTED := AlreadyPersisted([], 0)

  ghost predicate Following(parse: Parser, st: State<Pipe>, s: Bytes) {
    Reached(parse, DEFAULT_LIMITS, Start(PERSISTED).seen.core, st, s)
  }

  /** One chunk for a pipeline over persisted bytes, which refuses nothing. */
  method Feed(pipeline: CapturePipeline, ghost s: Bytes, chunk: Bytes)
    requires pipeline.Valid() && pipeline.decoder.limits == DEFAULT_LIMITS
    requires Following(pipeline.parse, pipeline.View(None), s)
    modifies pipeline, pipeline.decoder
    ensures pipeline.Valid()
    ensures Following(pipeline.parse, pipeline.View(None), s + chunk)
  {
    IngestReaches(pipeline.parse, DEFAULT_LIMITS, Start(PERSISTED).seen.core, pipeline.View(None), s, chunk);
    var error := pipeline.Ingest(chunk);
    assert error.None?;
  }

  /** `reduce_bep_file`: the retained file, one buffer at a time. The read with
      number `failAfter` fails, if there is one. */
  method ReduceBepFile(parse: Parser, file: Option<Bytes>, failAfter: Option<nat>)
    returns (r: Result<Report, PipelineError>)
    ensures r.Ok? ==> r.value == FileReport(parse, file)
    ensures failAfter.None? ==> r.Ok?
  {
    if file.None? {
      return Ok(([], StreamOutcome(0, 0, None)));
    }
    var s := file.value;
    var pipeline := new CapturePipeline(parse, DEFAULT_LIMITS, PERSISTED);
    StartReached(parse, DEFAULT_LIMITS, PERSISTED);
    var pos, calls := 0, 0;
    assert s[..0] == [];
    while pos < |s|
      invariant pos <= |s|
      invariant pipeline.Valid() && fresh(pipeline) && fresh(pipeline.decoder)
      invariant pipeline.parse == parse && pipeline.decoder.limits == DEFAULT_LIMITS
      invariant Following(parse, pipeline.View(None), s[..pos])
    {
      if failAfter == Some(calls) {
        return Err(IoFailed);
      }
      var end := if |s| - pos < READ_BUFFER then |s| else pos + READ_BUFFER;
      assert s[..pos] + s[pos..end] == s[..end];
      Feed(pipeline, s[..pos], s[pos..end]);
      pos, calls := end, calls + 1;
    }
    if failAfter == Some(calls) {
      return Err(IoFailed);
    }
    assert s[..pos] == s;
    ReachedReports(parse, DEFAULT_LIMITS, PERSISTED, pipeline.View(None), s);
    var output := pipeline.Finish();
    match output {
      case Err(e) => return Err(e);
      case Ok(o) => return Ok((o.observed, o.outcome));
    }
  }

  /** The bytes the tail loop gets to see before it ends. */
  function Tailed(script: seq<Read>): Bytes {
    if script == [] then [] else
    match script[0]
    case Data(chunk) => chunk + Tailed(script[1..])
    case Idle(finishing) => if finishing then [] else Tailed(script[1..])
    case ReadFailed => []
  }

  /** No read fails before the loop ends. */
  predicate ReadsWell(script: seq<Read>) {
    script == [] ||
    match script[0]
    case Data(_) => ReadsWell(script[1..])
    case Idle(finishing) => finishing || ReadsWell(script[1..])
    case ReadFailed => false
  }

  /** The tail loop: read, ingest, and poll until the invocation is over. */
  method Follow(pipeline: CapturePipeline, script: seq<Read>) returns (failed: bool)
    requires pipeline.Valid() && pipeline.decoder.limits == DEFAULT_LIMITS
    requires Following(pipeline.parse, pipeline.View(None), [])
    modifies pipeline, pipeline.decoder
    ensures pipeline.Valid()
    ensures failed <==> !ReadsWell(script)
    ensures !failed ==> Following(pipeline.parse, pipeline.View(None), Tailed(script))
  {
    ghost var tailed: Bytes := [];
    var i := 0;
    while i < |script| && script[i] != Idle(true)
      invariant i <= |script|
      invariant pipeline.Valid()
      invariant Following(pipeline.parse, pipeline.View(None), tailed)
      invariant tailed + Tailed(script[i..]) == Tailed(script)
      invariant ReadsWell(script) == ReadsWell(script[i..])
    {
      assert script[i..][1..] == script[i + 1..];
      match script[i] {
        case Data(chunk) =>
          Assoc(tailed, chunk, Tailed(script[i + 1..]));
          Feed(pipeline, tailed, chunk);
          tailed := tailed + chunk;
        case Idle(_) =>
        case ReadFailed =>
          return true;
      }
      i := i + 1;
    }
    assert Tailed(script[i..]) == [];
    assert tailed == Tailed(script);
    return false;
  }

  /** What else can go wrong: opening the file, hashing it at the end, and a read of
      the decode that then falls back on it. */
  datatype Faults = Faults(opening: bool, hashing: bool, rereading: Option<nat>)

  /** `tail_bep`: the live result is kept exactly when nothing failed and what was
      tailed is, byte for byte, what the file ended up with; whatever is reported is
      what decoding the final file gives. */
  method TailBep(parse: Parser, digest: Bytes -> Bytes, script: seq<Read>, final: Option<Bytes>, faults: Faults)
    returns (r: Result<Reduction, PipelineError>)
    requires Injective(digest)
    ensures r.Ok? ==> r.value.report == FileReport(parse, final)
    ensures r.Ok? && r.value.source == Incremental <==>
      && !faults.opening && ReadsWell(script) && !faults.hashing
      && final == Some(Tailed(script)) && |Tailed(script)| <= USIZE_MAX
    ensures !faults.opening && ReadsWell(script) && !faults.hashing && final.Some? && faults.rereading.None? ==> r.Ok?
  {
    if faults.opening {
      return Err(IoFailed);
    }
    var pipeline := new CapturePipeline(parse, DEFAULT_LIMITS, PERSISTED);
    StartReached(parse, DEFAULT_LIMITS, PERSISTED);
    var failed := Follow(pipeline, script);
    if failed {
      return Err(IoFailed);
    }
    ReachedReports(parse, DEFAULT_LIMITS, PERSISTED, pipeline.View(None), Tailed(script));
    var output := pipeline.Finish();
    r := Verify(parse, digest, output.value, final, faults);
  }

  /** The end of `tail_bep`: compare what was hashed with the final file. */
  method Verify(parse: Parser, digest: Bytes -> Bytes, output: Output, final: Option<Bytes>, faults: Faults)
    returns (r: Result<Reduction, PipelineError>)
    requires Injective(digest)
    requires (output.observed, output.outcome) == Reported(parse, DEFAULT_LIMITS, output.hashed)
    requires output.durableBytes == SatAdd(0, |output.hashed|)
    ensures r.Ok? ==> r.value.report == FileReport(parse, final)
    ensures r.Ok? && r.value.source == Incremental <==>
      !faults.hashing && final == Some(output.hashed) && |output.hashed| <= USIZE_MAX
    ensures !faults.hashing && final.Some? && faults.rereading.None? ==> r.Ok?
  {
    if faults.hashing || final.None? {
      return Err(IoFailed);
    }
    if output.durableBytes == |final.value| && digest(output.hashed) == digest(final.value) {
      return Ok(Reduction((output.observed, output.outcome), Incremental));
    }
    r := FallBack(parse, final, faults.rereading);
  }

  /** `post_hoc_reduction`. */
  method FallBack(parse: Parser, file: Option<Bytes>, failAfter: Option<nat>)
    returns (r: Result<Reduction, PipelineError>)
    ensures r.Ok? ==> r.value == Reduction(FileReport(parse, file), PostHocFallback)
    ensures failAfter.None? ==> r.Ok?
  {
    var report := ReduceBepFile(parse, file, failAfter);
    if report.Err? {
      return Err(report.error);
    }
    return Ok(Reduction(report.value, PostHocFallback));
  }

  /** `IncrementalBepCapture::finish`: a tail that failed, or whose task died, is
      replaced by a decode of the retained file. Whatever is reported is that file's,
      and only a failing read of that last decode leaves nothing to report. */
  method FinishTail(
    parse: Parser, digest: Bytes -> Bytes, script: seq<Read>, final: Option<Bytes>,
    faults: Faults, died: bool, failAfter: Option<nat>)
    returns (r: Result<Reduction, PipelineError>)
    requires Injective(digest)
    ensures r.Ok? ==> r.value.report == FileReport(parse, final)
    ensures failAfter.None? ==> r.Ok?
    ensures r.Ok? && r.value.source == Incremental ==> !died && final == Some(Tailed(script))
  {
    if !died {
      r := TailBep(parse, digest, script, final, faults);
      if r.Ok? {
        return;
      }
    }
    r := FallBack(parse, final, failAfter);
  }
}
