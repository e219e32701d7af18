/** The streaming reducer. It keeps only what the summary needs of each event, and
    stops keeping things, marking itself truncated, once it holds too much. */
module Accumulator {
  import opened Base
  import opened Sorting
  import opened Summary
  import opened Artifacts
  import opened Events

  const STREAM_MAX_ITEMS: nat := 250_000
  const STREAM_MAX_RETAINED_BYTES: nat := 64 * 1024 * 1024

  const MESSAGE_CAP: nat := 64 * 1024
  const ID_CAP: nat := 4 * 1024

  datatype RunOutcome = RunOutcome(
    buildSuccess: Option<bool>, shouldExecute: Option<bool>, testSeen: bool, recovered: nat)

  /** `TestAttemptOutcome`, with the test it belongs to. */
  datatype Attempts = Attempts(name: string, passed: bool, notPassed: bool, flaky: bool, count: U32)

  function ObserveAttempt(a: Attempts, status: TestStatus): Attempts {
    var counted := a.(count := if a.count == U32_MAX then U32_MAX else a.count + 1);
    match status
    case Passed => counted.(passed := true)
    case Flaky => counted.(flaky := true)
    case _ => counted.(notPassed := true)
  }

  function SuccessfulStatus(a: Attempts): Option<TestStatus> {
    if a.flaky || (a.passed && a.notPassed) then Some(Flaky)
    else if a.passed then Some(Passed)
    else None
  }

  predicate AttemptsLe(a: Attempts, b: Attempts) {
    StringLe(a.name, b.name)
  }

  /** What is kept. Attempts are ordered by test name, as in the source's map. */
  datatype Content = Content(
    diagnostics: seq<Diagnostic>, targets: seq<TargetResult>, tests: seq<TestResult>,
    attempts: seq<Attempts>, namedSets: NamedSets<Artifact>, roots: seq<string>,
    direct: seq<Artifact>, arguments: Option<seq<string>>, outcome: RunOutcome)

  datatype Usage = Usage(items: nat, bytes: nat, truncated: bool)

  datatype State = State(content: Content, usage: Usage)

  const NOTHING := Content([], [], [], [], map[], [], [], None, RunOutcome(None, None, false, 0))

  const START := State(NOTHING, Usage(0, 0, false))

  // ---------------------------------------------------------------------- entries

  /** One thing an event asks to keep or to note. */
  datatype Entry =
    | KeepDiagnostic(diagnostic: Diagnostic)
    | KeepTarget(target: TargetResult)
    | KeepTest(test: TestResult)
    | KeepAttempt(name: string, status: TestStatus)
    | KeepRoot(id: string)
    | KeepArtifact(artifact: Artifact)
    | KeepSet(id: string, named: NamedSet<Artifact>)
    | KeepArguments(arguments: seq<string>)
    | NoteTestResult
    | NoteFinished(success: bool)
    | NoteExecRequest(shouldExecute: bool)

  function OptionBytes(s: Option<string>): nat {
    if s.Some? then |s.value| else 0
  }

  function TextBytes(texts: seq<string>): nat {
    if texts == [] then 0 else TextBytes(texts[..|texts| - 1]) + |texts[|texts| - 1]|
  }

  function ArtifactBytes(artifacts: seq<Artifact>): nat {
    if artifacts == [] then 0
    else
      var last := artifacts[|artifacts| - 1];
      ArtifactBytes(artifacts[..|artifacts| - 1]) + |last.name| + |last.uri|
  }

  function FindAttempt(attempts: seq<Attempts>, name: string): (r: Option<nat>)
    ensures r.Some? ==> r.value < |attempts| && attempts[r.value].name == name
    ensures r.None? ==> forall i :: 0 <= i < |attempts| ==> attempts[i].name != name
  {
    if attempts == [] then None
    else if attempts[|attempts| - 1].name == name then Some(|attempts| - 1)
    else FindAttempt(attempts[..|attempts| - 1], name)
  }

  /** What keeping an entry costs; `None` when nothing needs to be reserved. */
  function Cost(c: Content, e: Entry): Option<(nat, nat)> {
    match e
    case KeepDiagnostic(d) => Some((1, |d.message| + OptionBytes(d.target) + OptionBytes(d.action)))
    case KeepTarget(t) => Some((1, |t.name|))
    case KeepTest(t) => Some((1, |t.name| + OptionBytes(t.logUnavailable)))
    case KeepAttempt(name, _) => if FindAttempt(c.attempts, name).Some? then None else Some((1, |name|))
    case KeepRoot(id) => Some((1, |id|))
    case KeepArtifact(a) => Some((1, |a.name| + |a.uri|))
    case KeepSet(id, named) =>
      Some((1 + |named.files| + |named.children|, |id| + ArtifactBytes(named.files) + TextBytes(named.children)))
    case KeepArguments(arguments) => if c.arguments.Some? then None else Some((|arguments|, TextBytes(arguments)))
    case _ => None
  }

  /** The content with an entry in it. */
  function Put(c: Content, e: Entry): Content {
    match e
    case KeepDiagnostic(d) => c.(diagnostics := c.diagnostics + [d])
    case KeepTarget(t) => c.(targets := c.targets + [t])
    case KeepTest(t) => c.(tests := c.tests + [t])
    case KeepAttempt(name, status) =>
      var at := FindAttempt(c.attempts, name);
      c.(attempts :=
           if at.Some? then c.attempts[at.value := ObserveAttempt(c.attempts[at.value], status)]
           else Insert(AttemptsLe, c.attempts, ObserveAttempt(Attempts(name, false, false, false, 0), status)))
    case KeepRoot(id) => c.(roots := c.roots + [id])
    case KeepArtifact(a) => c.(direct := c.direct + [a])
    case KeepSet(id, named) => c.(namedSets := c.namedSets[id := named])
    case KeepArguments(arguments) => if c.arguments.Some? then c else c.(arguments := Some(arguments))
    case NoteTestResult => c.(outcome := c.outcome.(testSeen := true))
    case NoteFinished(success) => c.(outcome := c.outcome.(buildSuccess := Some(success)))
    case NoteExecRequest(should) => c.(outcome := c.outcome.(shouldExecute := Some(should)))
  }

  /** `reserve`. */
  function Reserve(u: Usage, items: nat, bytes: nat): (Usage, bool) {
    var nextItems, nextBytes := SatAdd(u.items, items), SatAdd(u.bytes, bytes);
    if nextItems > STREAM_MAX_ITEMS || nextBytes > STREAM_MAX_RETAINED_BYTES then (u.(truncated := true), false)
    else (Usage(nextItems, nextBytes, u.truncated), true)
  }

  /** The content `after` if its cost, if it has one, can be reserved. */
  function Grant(s: State, cost: Option<(nat, nat)>, after: Content): State {
    if cost.None? then s.(content := after)
    else
      var (usage, granted) := Reserve(s.usage, cost.value.0, cost.value.1);
      State(if granted then after else s.content, usage)
  }

  function Keep(s: State, e: Entry): State {
    Grant(s, Cost(s.content, e), Put(s.content, e))
  }

  function KeepAll(s: State, es: seq<Entry>): State {
    if es == [] then s else Keep(KeepAll(s, es[..|es| - 1]), es[|es| - 1])
  }

  // ------------------------------------------------------------ what events hold

  /** The artifacts of files that name a location. */
  function Made(files: seq<FileView>): seq<Artifact> {
    if files == [] then []
    else
      var init, last := Made(files[..|files| - 1]), FileArtifact(files[|files| - 1]);
      if last.Some? then init + [last.value] else init
  }

  function ArtifactEntries(artifacts: seq<Artifact>): seq<Entry> {
    seq(|artifacts|, i requires 0 <= i < |artifacts| => KeepArtifact(artifacts[i]))
  }

  function RootEntries(ids: seq<string>): seq<Entry> {
    seq(|ids|, i requires 0 <= i < |ids| => KeepRoot(BoundedText(ids[i], ID_CAP)))
  }

  function GroupEntries(groups: seq<OutputGroup>): seq<Entry> {
    if groups == [] then []
    else
      var last := groups[|groups| - 1];
      GroupEntries(groups[..|groups| - 1]) + (RootEntries(last.fileSets) + ArtifactEntries(Made(last.inlineFiles)))
  }

  function BoundedTexts(texts: seq<string>, cap: nat): seq<string> {
    seq(|texts|, i requires 0 <= i < |texts| => BoundedText(texts[i], cap))
  }

  function TestEntries(id: Option<EventId>, p: Payload): seq<Entry>
    requires p.TestSummary?
  {
    var name, status := LabelOr(id, "<unknown test>"), StatusOf(p.status);
    var d := TestDiagnostic(name, status);
    (if d.Some? then [KeepDiagnostic(d.value)] else []) +
    [KeepTest(SummaryTest(name, status, p.durationMs, p.attemptCount, p.shardCount))]
  }

  /** What an event asks to keep, in order. */
  function Entries(event: BuildEvent): seq<Entry> {
    match event.payload
    case Aborted(reason, description) =>
      [KeepDiagnostic(AbortDiagnostic(event.id, reason, BoundedText(description, MESSAGE_CAP)))]
    case ActionExecuted(success, actionType, exitCode, target, output) =>
      if success then []
      else [KeepDiagnostic(ActionDiagnostic(event.id, actionType, exitCode, target))]
           + ArtifactEntries(Made(if output.Some? then [output.value] else []))
    case Completed(success, groups, important, directory) =>
      [KeepTarget(TargetResult(LabelOr(event.id, "<unknown target>"), success))]
      + (GroupEntries(groups) + ArtifactEntries(Made(important + directory)))
    case TestSummary(_, _, _, _) => TestEntries(event.id, event.payload)
    case TestAttempt(status, outputs) =>
      [NoteTestResult]
      + ((if LabelOf(event.id).Some? then [KeepAttempt(LabelOf(event.id).value, StatusOf(status))] else [])
         + ArtifactEntries(Made(outputs)))
    case NamedSetOfFiles(files, fileSets) =>
      if event.id.Some? && event.id.value.NamedSetId? then
        [KeepSet(BoundedText(event.id.value.id, ID_CAP), NamedSet(Made(files), BoundedTexts(fileSets, ID_CAP)))]
      else []
    case OptionsParsed(startup, cmdLine) => [KeepArguments(BoundedTexts(startup + cmdLine, MESSAGE_CAP))]
    case Finished(success) => [NoteFinished(success)]
    case ExecRequest(should) => [NoteExecRequest(should)]
    case OtherPayload => []
  }

  function Observe(s: State, event: BuildEvent): State {
    KeepAll(s, Entries(event))
  }

  function ObserveAll(events: seq<BuildEvent>): State {
    if events == [] then START else Observe(ObserveAll(events[..|events| - 1]), events[|events| - 1])
  }
}
