/** What an invocation is reduced to. A string holds one character for each byte of
    the UTF-8 text it stands for. */
module Summary {
  import opened Base

  const U32_MAX: nat := 0xFFFF_FFFF

  type U32 = n: int | 0 <= n <= U32_MAX

  datatype Severity = Error | Warning | Note

  datatype Category = Workspace | Loading | Analysis | Visibility | Action | Compilation | Test | Bazel | Unknown

  datatype Location = Location(path: string, line: Option<nat>, column: Option<nat>)

  datatype Diagnostic = Diagnostic(
    severity: Severity, category: Category, message: string, location: Option<Location>,
    target: Option<string>, action: Option<string>, count: U32)

  datatype InspectHint =
    | InspectDiagnostics | InspectTests | InspectTestLog | InspectCoverage
    | InspectArtifacts | InspectQueryResults | InspectLog

  datatype TestStatus = Passed | Failed | Flaky | Skipped | TimedOut | Incomplete | RemoteOnly

  datatype TargetResult = TargetResult(name: string, success: bool)

  datatype TestResult = TestResult(
    name: string, status: TestStatus, durationMs: Option<nat>, attempts: U32, shard: Option<U32>,
    logUnavailable: Option<string>)

  datatype TargetCounts = TargetCounts(requested: nat, succeeded: nat, failed: nat)

  datatype TestCounts = TestCounts(passed: nat, failed: nat, flaky: nat, skipped: nat, incomplete: nat)

  datatype InvocationSummary = InvocationSummary(
    success: bool, headline: string, targets: seq<TargetResult>, targetCounts: TargetCounts,
    diagnostics: seq<Diagnostic>, tests: seq<TestResult>, testCounts: TestCounts, elapsedMs: nat,
    truncated: bool, inspectHint: Option<InspectHint>)

  datatype Budget = Budget(maxBytes: nat, maxItems: nat)
}
