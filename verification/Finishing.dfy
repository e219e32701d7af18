/** Ending a stream: tests that only attempts told about are recovered after a success,
    artifacts are resolved, and the summary is made. */
module Finishing {
  import opened Base
  import opened Sorting
  import opened Summary
  import opened Artifacts
  import opened Accumulator
  import opened Concluding

  datatype StreamOutput = StreamOutput(
    summary: InvocationSummary, artifacts: seq<Artifact>, arguments: Option<seq<string>>, outcome: RunOutcome)

  predicate HasTest(tests: seq<TestResult>, name: string) {
    HasName(TestName, tests, name)
  }

  /** A test without a summary whose attempts say how it went. */
  predicate Recoverable(a: Attempts, tests: seq<TestResult>) {
    !HasTest(tests, a.name) && SuccessfulStatus(a).Some?
  }

  function RecoveredTest(a: Attempts): TestResult
    requires SuccessfulStatus(a).Some?
  {
    TestResult(a.name, SuccessfulStatus(a).value, None, a.count, None, None)
  }

  function RecoveredTests(attempts: seq<Attempts>, tests: seq<TestResult>): seq<TestResult> {
    if attempts == [] then []
    else
      var before, last := RecoveredTests(attempts[..|attempts| - 1], tests), attempts[|attempts| - 1];
      if Recoverable(last, tests) then before + [RecoveredTest(last)] else before
  }

  /** Exactly the recoverable attempts give a test, with their status and count. */
  lemma {:induction false} RecoveredExactly(attempts: seq<Attempts>, tests: seq<TestResult>, t: TestResult)
    ensures t in RecoveredTests(attempts, tests) <==>
              exists i :: 0 <= i < |attempts| && Recoverable(attempts[i], tests) && RecoveredTest(attempts[i]) == t
  {
    if attempts != [] {
      var init := attempts[..|attempts| - 1];
      RecoveredExactly(init, tests, t);
      assert forall i :: 0 <= i < |init| ==> init[i] == attempts[i];
    }
  }

  /** Attempts as the source's map lists them: by name, each name once. */
  predicate NamesInOrder(attempts: seq<Attempts>) {
    forall i, j :: 0 <= i < j < |attempts| ==>
      StringLe(attempts[i].name, attempts[j].name) && attempts[i].name != attempts[j].name
  }

  /** Recovered tests come by name, each name once, and no name that is already there. */
  lemma {:induction false} RecoveredInOrder(attempts: seq<Attempts>, tests: seq<TestResult>)
    requires NamesInOrder(attempts)
    ensures var r := RecoveredTests(attempts, tests);
            && Sorted(TestLe, r)
            && (forall i, j :: 0 <= i < j < |r| ==> r[i].name != r[j].name)
            && (forall i :: 0 <= i < |r| ==> !HasTest(tests, r[i].name))
  {
    if attempts != [] {
      var init, last := attempts[..|attempts| - 1], attempts[|attempts| - 1];
      RecoveredInOrder(init, tests);
      forall t | t in RecoveredTests(init, tests) ensures StringLe(t.name, last.name) && t.name != last.name {
        RecoveredExactly(init, tests, t);
        var i :| 0 <= i < |init| && Recoverable(init[i], tests) && RecoveredTest(init[i]) == t;
        assert attempts[i].name == t.name;
      }
    }
  }

  /** Only a build that succeeded, by its exit code and by its own account, recovers tests. */
  function Recovered(c: Content, output: Output): seq<TestResult> {
    if output.exitCode == Some(0) && c.outcome.buildSuccess == Some(true) then
      RecoveredTests(c.attempts, TestsByLabel(c.tests))
    else []
  }

  function FinishedTests(c: Content, output: Output): seq<TestResult> {
    SortBy(TestLe, TestsByLabel(c.tests) + Recovered(c, output))
  }

  function StreamSummary(parse: Parser, s: State, output: Output, budget: Budget): InvocationSummary {
    Summarize(WithText(parse, s.content.diagnostics, output), TargetsByLabel(s.content.targets),
              FinishedTests(s.content, output), output, s.usage.truncated, budget)
  }

  ghost function Finished(parse: Parser, s: State, output: Output, budget: Budget): StreamOutput {
    var c := s.content;
    StreamOutput(
      StreamSummary(parse, s, output, budget), Resolved(c.namedSets, c.roots, c.direct), c.arguments,
      c.outcome.(recovered := c.outcome.recovered + |Recovered(c, output)|))
  }

  lemma TestsOrder()
    ensures ByName(TestLe, TestName) && TotalPreorder(TestLe)
  {
    assert ByName(TestLe, TestName);
    ByNameOrder(TestLe, TestName);
  }

  /** Without recovered tests, sorting again changes nothing. */
  lemma NothingRecovered(c: Content, output: Output)
    requires Recovered(c, output) == []
    ensures FinishedTests(c, output) == TestsByLabel(c.tests)
  {
    TestsOrder();
    ByLabelLaws(TestLe, TestName, c.tests);
    assert TestsByLabel(c.tests) + [] == TestsByLabel(c.tests);
    SortBySorted(TestLe, TestsByLabel(c.tests));
  }

  /** A recovered test shows in the summary. */
  lemma RecoveryShows(c: Content, output: Output)
    requires Recovered(c, output) != []
    ensures |FinishedTests(c, output)| > |TestsByLabel(c.tests)|
  {
    TestsOrder();
    SortByLaws(TestLe, TestsByLabel(c.tests) + Recovered(c, output));
  }

  /** The recovery loop of `finish`. */
  method RecoverTests(attempts: seq<Attempts>, tests: seq<TestResult>) returns (r: seq<TestResult>)
    ensures r == RecoveredTests(attempts, tests)
    ensures forall t :: t in r <==> exists i ::
              0 <= i < |attempts| && Recoverable(attempts[i], tests) && RecoveredTest(attempts[i]) == t
  {
    r := [];
    for i := 0 to |attempts|
      invariant r == RecoveredTests(attempts[..i], tests)
    {
      assert attempts[..i + 1][..i] == attempts[..i];
      if HasTest(tests, attempts[i].name) {
        continue;
      }
      var status := SuccessfulStatus(attempts[i]);
      if status.Some? {
        r := r + [TestResult(attempts[i].name, status.value, None, attempts[i].count, None, None)];
      }
    }
    assert attempts[..|attempts|] == attempts;
    forall t ensures t in r <==> exists i ::
        0 <= i < |attempts| && Recoverable(attempts[i], tests) && RecoveredTest(attempts[i]) == t
    {
      RecoveredExactly(attempts, tests, t);
    }
  }
}
