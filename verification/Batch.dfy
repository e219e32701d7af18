/** The batch reducer: three passes over all events, keeping everything. */
module Batch {
  import opened Base
  import opened Sorting
  import opened Summary
  import opened Artifacts
  import opened Events
  import opened Accumulator
  import opened Concluding
  import opened Finalize

  /** What the passes collect. Files are kept as they are in the events. */
  datatype Collected = Collected(
    diagnostics: seq<Diagnostic>, targets: seq<TargetResult>, tests: seq<TestResult>,
    sets: NamedSets<FileView>, roots: seq<string>, direct: seq<FileView>, arguments: Option<seq<string>>)

  function RootsOf(groups: seq<OutputGroup>): seq<string> {
    if groups == [] then [] else RootsOf(groups[..|groups| - 1]) + groups[|groups| - 1].fileSets
  }

  function FilesOf(groups: seq<OutputGroup>): seq<FileView> {
    if groups == [] then [] else FilesOf(groups[..|groups| - 1]) + groups[|groups| - 1].inlineFiles
  }

  function DiagnosticsIn(event: BuildEvent): seq<Diagnostic> {
    match event.payload
    case Aborted(reason, description) => [AbortDiagnostic(event.id, reason, description)]
    case ActionExecuted(success, actionType, exitCode, target, _) =>
      if success then [] else [ActionDiagnostic(event.id, actionType, exitCode, target)]
    case TestSummary(status, _, _, _) =>
      var d := TestDiagnostic(LabelOr(event.id, "<unknown test>"), StatusOf(status));
      if d.Some? then [d.value] else []
    case _ => []
  }

  function TargetsIn(event: BuildEvent): seq<TargetResult> {
    match event.payload
    case Completed(success, _, _, _) => [TargetResult(LabelOr(event.id, "<unknown target>"), success)]
    case _ => []
  }

  function TestsIn(event: BuildEvent): seq<TestResult> {
    match event.payload
    case TestSummary(status, durationMs, attemptCount, shardCount) =>
      [SummaryTest(LabelOr(event.id, "<unknown test>"), StatusOf(status), durationMs, attemptCount, shardCount)]
    case _ => []
  }

  function RootsIn(event: BuildEvent): seq<string> {
    match event.payload
    case Completed(_, groups, _, _) => RootsOf(groups)
    case _ => []
  }

  function FilesIn(event: BuildEvent): seq<FileView> {
    match event.payload
    case Completed(_, groups, important, directory) => FilesOf(groups) + (important + directory)
    case ActionExecuted(success, _, _, _, output) => if !success && output.Some? then [output.value] else []
    case TestAttempt(_, outputs) => outputs
    case _ => []
  }

  function SetsWith(sets: NamedSets<FileView>, event: BuildEvent): NamedSets<FileView> {
    match event.payload
    case NamedSetOfFiles(files, fileSets) =>
      if event.id.Some? && event.id.value.NamedSetId? then sets[event.id.value.id := NamedSet(files, fileSets)]
      else sets
    case _ => sets
  }

  function ArgumentsIn(event: BuildEvent): Option<seq<string>> {
    match event.payload
    case OptionsParsed(startup, cmdLine) => Some(startup + cmdLine)
    case _ => None
  }

  function See(c: Collected, event: BuildEvent): Collected {
    Collected(
      c.diagnostics + DiagnosticsIn(event), c.targets + TargetsIn(event), c.tests + TestsIn(event),
      SetsWith(c.sets, event), c.roots + RootsIn(event), c.direct + FilesIn(event),
      if c.arguments.Some? then c.arguments else ArgumentsIn(event))
  }

  function SeeAll(events: seq<BuildEvent>): Collected {
    if events == [] then Collected([], [], [], map[], [], [], None)
    else See(SeeAll(events[..|events| - 1]), events[|events| - 1])
  }

  lemma SeeNext(events: seq<BuildEvent>, i: nat)
    requires i < |events|
    ensures SeeAll(events[..i + 1]) == See(SeeAll(events[..i]), events[i])
  {
    assert events[..i + 1][..i] == events[..i];
  }

  function BatchSummary(parse: Parser, events: seq<BuildEvent>, output: Output, budget: Budget): InvocationSummary {
    var c := SeeAll(events);
    Summarize(WithText(parse, c.diagnostics, output), TargetsByLabel(c.targets), TestsByLabel(c.tests),
              output, false, budget)
  }

  /** `reduce_invocation`. */
  method ReduceInvocation(parse: Parser, events: seq<BuildEvent>, output: Output, budget: Budget)
    returns (summary: InvocationSummary)
    ensures summary == BatchSummary(parse, events, output, budget)
  {
    var diagnostics: seq<Diagnostic>, targets: seq<TargetResult>, tests: seq<TestResult> := [], [], [];
    for i := 0 to |events|
      invariant diagnostics == SeeAll(events[..i]).diagnostics
      invariant targets == SeeAll(events[..i]).targets && tests == SeeAll(events[..i]).tests
    {
      SeeNext(events, i);
      diagnostics := diagnostics + DiagnosticsIn(events[i]);
      targets := targets + TargetsIn(events[i]);
      tests := tests + TestsIn(events[i]);
    }
    assert events[..|events|] == events;
    if output.exitCode != Some(0) {
      diagnostics := diagnostics + parse(output.stderr);
      diagnostics := diagnostics + parse(output.stdout);
    }
    targets := Deduped(TargetName, SortBy(TargetLe, targets));
    tests := Deduped(TestName, SortBy(TestLe, tests));
    var testCounts := CountAllTests(tests);
    summary := InvocationSummary(
      output.exitCode == Some(0), BaseHeadline(output.exitCode, output.elapsedMs), targets,
      CountTargets(targets), diagnostics, tests, testCounts, output.elapsedMs, false, None);
    summary := FinalizeDiagnostics(summary, budget);
  }

  ghost function BatchArtifacts(events: seq<BuildEvent>): seq<Artifact> {
    var c := SeeAll(events);
    VisitsReach(c.sets, c.roots, {});
    Distinct(Made(c.direct + Files(c.sets, Visits(c.sets, c.roots, {}))))
  }

  lemma {:induction false} MadeMembers(files: seq<FileView>, a: Artifact)
    ensures a in Made(files) <==> exists f :: f in files && FileArtifact(f) == Some(a)
  {
    if files != [] {
      var init, last := files[..|files| - 1], files[|files| - 1];
      MadeMembers(init, a);
      assert files == init + [last];
    }
  }

  /** The artifacts are those of the direct files and of the files of every set that can
      be reached from a root, each name and uri once. */
  ghost predicate ExactlyOutputs(b: Collected, r: seq<Artifact>) {
    && (forall i, j :: 0 <= i < j < |r| ==> Key(r[i]) != Key(r[j]))
    && (forall a :: a in r ==> exists f :: IsOutput(b.sets, b.roots, b.direct, f) && FileArtifact(f) == Some(a))
    && (forall f :: IsOutput(b.sets, b.roots, b.direct, f) && FileArtifact(f).Some? ==>
          Key(FileArtifact(f).value) in Keys(r))
  }

  lemma {:induction false} BatchArtifactsExactly(events: seq<BuildEvent>)
    ensures ExactlyOutputs(SeeAll(events), BatchArtifacts(events))
  {
    var b, r := SeeAll(events), BatchArtifacts(events);
    VisitsReach(b.sets, b.roots, {});
    var files := b.direct + Files(b.sets, Visits(b.sets, b.roots, {}));
    DistinctKeys(Made(files));
    forall a | a in r ensures exists f :: IsOutput(b.sets, b.roots, b.direct, f) && FileArtifact(f) == Some(a) {
      MadeMembers(files, a);
      var f :| f in files && FileArtifact(f) == Some(a);
      OutputMembers(b.sets, b.roots, b.direct, f);
    }
    forall f | IsOutput(b.sets, b.roots, b.direct, f) && FileArtifact(f).Some?
      ensures Key(FileArtifact(f).value) in Keys(r)
    {
      OutputMembers(b.sets, b.roots, b.direct, f);
      MadeMembers(files, FileArtifact(f).value);
    }
  }

  /** `reduce_artifacts`. */
  method ReduceArtifacts(events: seq<BuildEvent>) returns (r: seq<Artifact>)
    ensures r == BatchArtifacts(events)
    ensures ExactlyOutputs(SeeAll(events), r)
  {
    BatchArtifactsExactly(events);
    var sets: NamedSets<FileView>, roots: seq<string>, direct: seq<FileView> := map[], [], [];
    for i := 0 to |events|
      invariant sets == SeeAll(events[..i]).sets && roots == SeeAll(events[..i]).roots
      invariant direct == SeeAll(events[..i]).direct
    {
      SeeNext(events, i);
      sets := SetsWith(sets, events[i]);
      roots := roots + RootsIn(events[i]);
      direct := direct + FilesIn(events[i]);
    }
    assert events[..|events|] == events;
    direct := Gather(sets, roots, direct);
    r := Deduplicate(Made(direct));
  }

  /** `extract_canonical_arguments`: the first parsed options. */
  method ExtractCanonicalArguments(events: seq<BuildEvent>) returns (r: Option<seq<string>>)
    ensures r == SeeAll(events).arguments
  {
    for i := 0 to |events|
      invariant SeeAll(events[..i]).arguments.None?
    {
      SeeNext(events, i);
      if events[i].payload.OptionsParsed? {
        ArgumentsStay(events, i + 1);
        return Some(events[i].payload.startupOptions + events[i].payload.cmdLine);
      }
    }
    assert events[..|events|] == events;
    return None;
  }

  lemma {:induction false} ArgumentsStay(events: seq<BuildEvent>, n: nat)
    requires n <= |events| && SeeAll(events[..n]).arguments.Some?
    ensures SeeAll(events).arguments == SeeAll(events[..n]).arguments
    decreases |events|
  {
    if n == |events| {
      assert events[..n] == events;
    } else {
      var init := events[..|events| - 1];
      assert init[..n] == events[..n];
      ArgumentsStay(init, n);
    }
  }
}
