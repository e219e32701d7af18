/** The part of the build event protocol that reduction looks at. A string holds one
    character for each byte of the UTF-8 text it stands for. */
module Events {
  import opened Base
  import opened Decimals
  import opened Summary
  import opened Artifacts

  type I32 = n: int | -0x8000_0000 <= n <= 0x7FFF_FFFF

  /** An event's identity: most kinds carry a label. */
  datatype EventId = Labelled(name: string) | NamedSetId(id: string) | OtherId

  datatype FileContents = Uri(uri: string) | SymlinkTarget(path: string) | Inline

  datatype FileView = FileView(pathPrefix: seq<string>, name: string, contents: Option<FileContents>, length: int)

  datatype OutputGroup = OutputGroup(fileSets: seq<string>, inlineFiles: seq<FileView>)

  datatype Payload =
    | Aborted(reason: I32, description: string)
    | ActionExecuted(success: bool, actionType: string, exitCode: I32, target: string, output: Option<FileView>)
    | Completed(success: bool, groups: seq<OutputGroup>, importantOutput: seq<FileView>,
                directoryOutput: seq<FileView>)
    | TestSummary(status: I32, durationMs: int, attemptCount: I32, shardCount: I32)
    | TestAttempt(status: I32, outputs: seq<FileView>)
    | NamedSetOfFiles(files: seq<FileView>, fileSets: seq<string>)
    | OptionsParsed(startupOptions: seq<string>, cmdLine: seq<string>)
    | Finished(success: bool)
    | ExecRequest(shouldExec: bool)
    | OtherPayload

  /** The id is absent when it cannot be decoded. */
  datatype BuildEvent = BuildEvent(id: Option<EventId>, payload: Payload)

  function Nonempty(s: string): Option<string> {
    if s == [] then None else Some(s)
  }

  /** `label_from_id`. */
  function LabelOf(id: Option<EventId>): Option<string> {
    if id.Some? && id.value.Labelled? then Nonempty(id.value.name) else None
  }

  function LabelOr(id: Option<EventId>, other: string): string {
    if LabelOf(id).Some? then LabelOf(id).value else other
  }

  // ------------------------------------------------------------------------ texts

  function CharStart(v: string, i: nat): (r: nat)
    requires i < |v|
    ensures r <= i
  {
    if i == 0 || !(128 <= v[i] as int < 192) then i else CharStart(v, i - 1)
  }

  const ELLIPSIS := "\U{E2}\U{80}\U{A6}"

  /** `bounded_text`. */
  function BoundedText(v: string, maxBytes: nat): string {
    if |v| <= maxBytes then v else v[..CharStart(v, maxBytes)] + ELLIPSIS
  }

  function JoinPath(parts: seq<string>): string {
    if parts == [] then []
    else
      var init, last := JoinPath(parts[..|parts| - 1]), parts[|parts| - 1];
      if last == [] then init else if init == [] then last else init + "/" + last
  }

  predicate OccursAt(v: string, i: nat, part: string) {
    i + |part| <= |v| && v[i..i + |part|] == part
  }

  predicate Contains(v: string, part: string) {
    exists i: nat :: i <= |v| && OccursAt(v, i, part)
  }

  predicate EndsWith(v: string, part: string) {
    |part| <= |v| && OccursAt(v, |v| - |part|, part)
  }

  // ------------------------------------------------------------------------ files

  function UriKind(name: string, uri: string): ArtifactKind {
    if name == "test.log" || name == "test.xml" then TestLog
    else if Contains(name, "coverage") || EndsWith(name, ".dat") then Coverage
    else if "file:" <= uri then File
    else Remote
  }

  /** `file_artifact`. */
  function FileArtifact(file: FileView): Option<Artifact> {
    var name := BoundedText(JoinPath(file.pathPrefix + [file.name]), 1_000);
    var size := if file.length >= 0 then Some(file.length) else None;
    match file.contents
    case None => None
    case Some(Uri(uri)) =>
      Some(Artifact(name, UriKind(file.name, uri), BoundedText(uri, 1_000), size, "file:" <= uri))
    case Some(SymlinkTarget(path)) => Some(Artifact(name, File, BoundedText(path, 1_000), size, true))
    case Some(Inline) => Some(Artifact(name, File, "inline://redacted", size, true))
  }

  // ------------------------------------------------------------------ diagnostics

  function AbortCategory(reason: int): Category {
    if reason == 5 then Loading else if reason == 6 then Analysis else Bazel
  }

  function AbortDiagnostic(id: Option<EventId>, reason: int, message: string): Diagnostic {
    Diagnostic(Error, AbortCategory(reason), message, None, LabelOf(id), None, 1)
  }

  function ActionDiagnostic(id: Option<EventId>, actionType: string, exitCode: int, target: string): Diagnostic {
    Diagnostic(Error, Action,
               (if actionType == [] then "Bazel" else actionType)
               + " action failed with exit code " + Decimal(exitCode),
               None, if LabelOf(id).Some? then LabelOf(id) else Nonempty(target), Nonempty(actionType), 1)
  }

  /** `test_status`. */
  function StatusOf(value: int): TestStatus {
    match value
    case 1 => Passed
    case 2 => Flaky
    case 3 => TimedOut
    case 4 => Failed
    case 7 => Failed
    case 8 => Failed
    case 5 => Incomplete
    case 6 => RemoteOnly
    case _ => Incomplete
  }

  /** `test_outcome_diagnostic`. */
  function TestDiagnostic(name: string, status: TestStatus): Option<Diagnostic> {
    var failure := (severity, message) => Some(Diagnostic(severity, Test, message + name, None, Some(name), None, 1));
    match status
    case Passed => None
    case Skipped => None
    case Flaky => failure(Warning, "Test was flaky: ")
    case Failed => failure(Error, "Test failed: ")
    case TimedOut => failure(Error, "Test timed out: ")
    case Incomplete => failure(Error, "Test was incomplete: ")
    case RemoteOnly => failure(Error, "Test result was unavailable: ")
  }

  function SummaryTest(name: string, status: TestStatus, durationMs: int, attemptCount: I32, shardCount: I32)
    : TestResult
  {
    TestResult(name, status,
               if durationMs >= 0 then Some(durationMs) else None,
               if attemptCount > 1 then attemptCount else 1,
               if shardCount > 0 then Some(shardCount) else None,
               if status.Passed? then None else Some("test_log_not_snapshotted"))
  }
}
