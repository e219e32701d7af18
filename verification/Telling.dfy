/** What the summary of an invocation says, told by the raw events: test status codes,
    success flags, labels and texts as Bazel reports them. */
module Telling {
  import opened Base
  import opened Decimals
  import opened Sorting
  import opened Summary
  import opened Events
  import opened Finalize
  import opened Concluding
  import opened Batch

  /** The label of an event, or what stands for one. */
  function Name(e: BuildEvent, unknown: string): string {
    if e.id.Some? && e.id.value.Labelled? && e.id.value.name != "" then e.id.value.name else unknown
  }

  function TestNamed(e: BuildEvent): Option<string> {
    if e.payload.TestSummary? then Some(Name(e, "<unknown test>")) else None
  }

  function TargetNamed(e: BuildEvent): Option<string> {
    if e.payload.Completed? then Some(Name(e, "<unknown target>")) else None
  }

  /** The first event about a name. */
  function FirstAbout(about: BuildEvent -> Option<string>, events: seq<BuildEvent>, name: string): Option<nat> {
    if events == [] then None
    else
      var before, n := FirstAbout(about, events[..|events| - 1], name), |events| - 1;
      if before.Some? then before else if about(events[n]) == Some(name) then Some(n) else None
  }

  lemma {:induction false} FirstAboutIs(about: BuildEvent -> Option<string>, events: seq<BuildEvent>, name: string)
    ensures
      var r := FirstAbout(about, events, name);
      var n := if r.Some? then r.value else |events|;
      && n <= |events|
      && (r.Some? ==> n < |events| && about(events[n]) == Some(name))
      && (forall j :: 0 <= j < n ==> about(events[j]) != Some(name))
  {
    if events != [] {
      FirstAboutIs(about, events[..|events| - 1], name);
    }
  }

  // ------------------------------------------------------- one result for each name

  /** The results of the events that have one, in order. */
  function Results<T>(resultOf: BuildEvent -> Option<T>, events: seq<BuildEvent>): seq<T> {
    if events == [] then []
    else
      var before, last := Results(resultOf, events[..|events| - 1]), resultOf(events[|events| - 1]);
      if last.Some? then before + [last.value] else before
  }

  /** Results are for the names their events are about. */
  ghost predicate Matched<T(!new)>(
    nameOf: T -> string, about: BuildEvent -> Option<string>, resultOf: BuildEvent -> Option<T>)
  {
    forall e :: about(e) == if resultOf(e).Some? then Some(nameOf(resultOf(e).value)) else None
  }

  lemma {:induction false} TieIsFirst<T(!new)>(
    le: (T, T) -> bool, nameOf: T -> string, about: BuildEvent -> Option<string>,
    resultOf: BuildEvent -> Option<T>, events: seq<BuildEvent>, x: T)
    requires ByName(le, nameOf) && Matched(nameOf, about, resultOf)
    ensures
      var ties, first := Ties(le, Results(resultOf, events), x), FirstAbout(about, events, nameOf(x));
      if first.Some? then
        ties != [] && first.value < |events| && resultOf(events[first.value]) == Some(ties[0])
      else ties == []
  {
    if events != [] {
      var init, last := events[..|events| - 1], events[|events| - 1];
      TieIsFirst(le, nameOf, about, resultOf, init, x);
      if resultOf(last).Some? {
        var before, y := Results(resultOf, init), resultOf(last).value;
        assert (before + [y])[..|before|] == before;
        StringLeTotal(nameOf(x), nameOf(y));
      }
    }
  }

  lemma {:induction false} ListedFirst<T(!new)>(
    le: (T, T) -> bool, nameOf: T -> string, about: BuildEvent -> Option<string>,
    resultOf: BuildEvent -> Option<T>, events: seq<BuildEvent>)
    requires ByName(le, nameOf) && Matched(nameOf, about, resultOf)
    ensures
      var r := Deduped(nameOf, SortBy(le, Results(resultOf, events)));
      && Sorted(le, r)
      && (forall i, j :: 0 <= i < j < |r| ==> nameOf(r[i]) != nameOf(r[j]))
      && (forall i :: 0 <= i < |r| ==>
            var first := FirstAbout(about, events, nameOf(r[i]));
            first.Some? && first.value < |events| && resultOf(events[first.value]) == Some(r[i]))
      && (forall name :: FirstAbout(about, events, name).Some? ==> HasName(nameOf, r, name))
  {
    var all := Results(resultOf, events);
    var r := Deduped(nameOf, SortBy(le, all));
    ByLabelLaws(le, nameOf, all);
    forall i | 0 <= i < |r| ensures
      var first := FirstAbout(about, events, nameOf(r[i]));
      first.Some? && first.value < |events| && resultOf(events[first.value]) == Some(r[i])
    {
      assert r[i] in r;
      TieIsFirst(le, nameOf, about, resultOf, events, r[i]);
    }
    forall name | FirstAbout(about, events, name).Some? ensures HasName(nameOf, r, name) {
      ResultsNamed(nameOf, about, resultOf, events, name);
    }
  }

  lemma {:induction false} ResultsNamed<T(!new)>(
    nameOf: T -> string, about: BuildEvent -> Option<string>, resultOf: BuildEvent -> Option<T>,
    events: seq<BuildEvent>, name: string)
    requires Matched(nameOf, about, resultOf)
    ensures FirstAbout(about, events, name).Some? <==> HasName(nameOf, Results(resultOf, events), name)
  {
    if events != [] {
      var init, last := events[..|events| - 1], events[|events| - 1];
      ResultsNamed(nameOf, about, resultOf, init, name);
      if resultOf(last).Some? {
        HasNameSnoc(nameOf, Results(resultOf, init), resultOf(last).value, name);
      }
    }
  }

  // ------------------------------------------------------------------------- tests

  /** Which status a code reads as. */
  predicate Reads(code: int, status: TestStatus) {
    match status
    case Passed => code == 1
    case Flaky => code == 2
    case TimedOut => code == 3
    case Failed => code in {4, 7, 8}
    case RemoteOnly => code == 6
    case Incomplete => code !in {1, 2, 3, 4, 6, 7, 8}
    case Skipped => false
  }

  /** The test is what the summary event says of it. */
  predicate TestTold(e: BuildEvent, t: TestResult) {
    && e.payload.TestSummary? && t.name == Name(e, "<unknown test>") && Reads(e.payload.status, t.status)
    && t.durationMs == (if e.payload.durationMs < 0 then None else Some(e.payload.durationMs))
    && t.attempts == (if e.payload.attemptCount < 1 then 1 else e.payload.attemptCount)
    && t.shard == (if e.payload.shardCount < 1 then None else Some(e.payload.shardCount))
    && t.logUnavailable == (if e.payload.status == 1 then None else Some("test_log_not_snapshotted"))
  }

  function TestOf(e: BuildEvent): Option<TestResult> {
    if e.payload.TestSummary? then Some(TestsIn(e)[0]) else None
  }

  lemma {:induction false} TestOfTold(e: BuildEvent)
    requires e.payload.TestSummary?
    ensures TestTold(e, TestOf(e).value)
  {
  }

  lemma {:induction false} TestsCollected(events: seq<BuildEvent>)
    ensures SeeAll(events).tests == Results(TestOf, events)
  {
    if events != [] {
      TestsCollected(events[..|events| - 1]);
      var before := SeeAll(events[..|events| - 1]).tests;
      assert before + [] == before;
    }
  }

  /** The tests listed: by name, one for each name that has a summary event and no
      other, and it is what the first of these events says. */
  ghost predicate TestsTold(events: seq<BuildEvent>, ts: seq<TestResult>) {
    && Sorted(TestLe, ts)
    && (forall i, j :: 0 <= i < j < |ts| ==> ts[i].name != ts[j].name)
    && (forall i :: 0 <= i < |ts| ==>
          var first := FirstAbout(TestNamed, events, ts[i].name);
          first.Some? && first.value < |events| && TestTold(events[first.value], ts[i]))
    && (forall name :: FirstAbout(TestNamed, events, name).Some? ==> HasName(TestName, ts, name))
  }

  lemma {:induction false} ListedTestsTold(events: seq<BuildEvent>)
    ensures TestsTold(events, TestsByLabel(SeeAll(events).tests))
  {
    TestsCollected(events);
    assert ByName(TestLe, TestName) && Matched(TestName, TestNamed, TestOf);
    ListedFirst(TestLe, TestName, TestNamed, TestOf, events);
    var ts := TestsByLabel(SeeAll(events).tests);
    forall i | 0 <= i < |ts| ensures
      var first := FirstAbout(TestNamed, events, ts[i].name);
      first.Some? && first.value < |events| && TestTold(events[first.value], ts[i])
    {
      var first := FirstAbout(TestNamed, events, TestName(ts[i]));
      TestOfTold(events[first.value]);
    }
  }

  // ----------------------------------------------------------------------- targets

  function TargetOf(e: BuildEvent): Option<TargetResult> {
    if e.payload.Completed? then Some(TargetsIn(e)[0]) else None
  }

  lemma {:induction false} TargetsCollected(events: seq<BuildEvent>)
    ensures SeeAll(events).targets == Results(TargetOf, events)
  {
    if events != [] {
      TargetsCollected(events[..|events| - 1]);
      var before := SeeAll(events[..|events| - 1]).targets;
      assert before + [] == before;
    }
  }

  predicate TargetTold(e: BuildEvent, t: TargetResult) {
    e.payload.Completed? && t.name == Name(e, "<unknown target>") && t.success == e.payload.success
  }

  /** The targets listed: by name, one for each completed one, which succeeded exactly if
      its first completion says so. */
  ghost predicate TargetsTold(events: seq<BuildEvent>, ts: seq<TargetResult>) {
    && Sorted(TargetLe, ts)
    && (forall i, j :: 0 <= i < j < |ts| ==> ts[i].name != ts[j].name)
    && (forall i :: 0 <= i < |ts| ==>
          var first := FirstAbout(TargetNamed, events, ts[i].name);
          first.Some? && first.value < |events| && TargetTold(events[first.value], ts[i]))
    && (forall name :: FirstAbout(TargetNamed, events, name).Some? ==> HasName(TargetName, ts, name))
  }

  lemma {:induction false} TargetOfTold(e: BuildEvent)
    requires e.payload.Completed?
    ensures TargetTold(e, TargetOf(e).value)
  {
  }

  lemma {:induction false} ListedTargetsTold(events: seq<BuildEvent>)
    ensures TargetsTold(events, TargetsByLabel(SeeAll(events).targets))
  {
    TargetsCollected(events);
    assert ByName(TargetLe, TargetName) && Matched(TargetName, TargetNamed, TargetOf);
    ListedFirst(TargetLe, TargetName, TargetNamed, TargetOf, events);
    var ts := TargetsByLabel(SeeAll(events).targets);
    forall i | 0 <= i < |ts| ensures
      var first := FirstAbout(TargetNamed, events, ts[i].name);
      first.Some? && first.value < |events| && TargetTold(events[first.value], ts[i])
    {
      var first := FirstAbout(TargetNamed, events, TargetName(ts[i]));
      TargetOfTold(events[first.value]);
    }
  }

  // ------------------------------------------------------------------------ counts

  function CountIf<T>(p: T -> bool, xs: seq<T>): nat {
    if xs == [] then 0 else CountIf(p, xs[..|xs| - 1]) + (if p(xs[|xs| - 1]) then 1 else 0)
  }

  function NamesIf<T>(nameOf: T -> string, p: T -> bool, xs: seq<T>): set<string> {
    set i | 0 <= i < |xs| && p(xs[i]) :: nameOf(xs[i])
  }

  /** With distinct names, counting results is counting names. */
  lemma {:induction false} CountedNames<T>(nameOf: T -> string, p: T -> bool, xs: seq<T>)
    requires forall i, j :: 0 <= i < j < |xs| ==> nameOf(xs[i]) != nameOf(xs[j])
    ensures |NamesIf(nameOf, p, xs)| == CountIf(p, xs)
  {
    if xs != [] {
      var init, last := xs[..|xs| - 1], xs[|xs| - 1];
      CountedNames(nameOf, p, init);
      var before := NamesIf(nameOf, p, init);
      assert forall i :: 0 <= i < |init| ==> init[i] == xs[i];
      assert nameOf(last) !in before;
      assert NamesIf(nameOf, p, xs) == if p(last) then before + {nameOf(last)} else before;
    }
  }

  predicate IsPassed(t: TestResult) { t.status.Passed? }

  predicate IsFailed(t: TestResult) { t.status.Failed? }

  predicate IsFlaky(t: TestResult) { t.status.Flaky? }

  predicate IsSkipped(t: TestResult) { t.status.Skipped? }

  predicate IsUndecided(t: TestResult) { t.status.TimedOut? || t.status.Incomplete? || t.status.RemoteOnly? }

  predicate HasSucceeded(t: TargetResult) { t.success }

  /** Every field counts the tests of its own statuses. */
  lemma {:induction false} TestsCounted(ts: seq<TestResult>)
    ensures CountTests(ts) == TestCounts(
              CountIf(IsPassed, ts), CountIf(IsFailed, ts), CountIf(IsFlaky, ts), CountIf(IsSkipped, ts),
              CountIf(IsUndecided, ts))
  {
    if ts != [] {
      TestsCounted(ts[..|ts| - 1]);
    }
  }

  lemma {:induction false} TargetsCounted(ts: seq<TargetResult>)
    ensures CountTargets(ts).requested == |ts|
    ensures CountTargets(ts).succeeded == CountIf(HasSucceeded, ts)
    ensures CountTargets(ts).failed == |ts| - CountIf(HasSucceeded, ts)
  {
    SucceededCounted(ts);
  }

  lemma {:induction false} SucceededCounted(ts: seq<TargetResult>)
    ensures Succeeded(ts) == CountIf(HasSucceeded, ts)
  {
    if ts != [] {
      SucceededCounted(ts[..|ts| - 1]);
    }
  }

  /** The names of tests whose first summary event carries one of the codes. */
  function TestsWith(events: seq<BuildEvent>, carries: int -> bool): set<string> {
    set i | 0 <= i < |events| && events[i].payload.TestSummary? && carries(events[i].payload.status)
            && FirstAbout(TestNamed, events, Name(events[i], "<unknown test>")) == Some(i)
         :: Name(events[i], "<unknown test>")
  }

  predicate PassCode(code: int) { code == 1 }

  predicate FailCode(code: int) { code in {4, 7, 8} }

  predicate FlakyCode(code: int) { code == 2 }

  predicate UndecidedCode(code: int) { code !in {1, 2, 4, 7, 8} }

  lemma {:induction false} NamesTold(
    events: seq<BuildEvent>, ts: seq<TestResult>, carries: int -> bool, p: TestResult -> bool)
    requires TestsTold(events, ts)
    requires forall code: int, t: TestResult :: Reads(code, t.status) ==> (p(t) <==> carries(code))
    ensures NamesIf(TestName, p, ts) == TestsWith(events, carries)
  {
    forall name ensures name in NamesIf(TestName, p, ts) <==> name in TestsWith(events, carries) {
      FirstAboutIs(TestNamed, events, name);
      var first := FirstAbout(TestNamed, events, name);
      if name in NamesIf(TestName, p, ts) {
        var i :| 0 <= i < |ts| && p(ts[i]) && TestName(ts[i]) == name;
        assert TestTold(events[first.value], ts[i]);
      }
      if name in TestsWith(events, carries) {
        assert HasName(TestName, ts, name);
        var i :| 0 <= i < |ts| && TestName(ts[i]) == name;
        assert TestTold(events[first.value], ts[i]);
      }
    }
  }

  /** The names of targets, and of those whose first completion is a success. */
  function TargetsWith(events: seq<BuildEvent>, onlySucceeded: bool): set<string> {
    set i | 0 <= i < |events| && events[i].payload.Completed? && (onlySucceeded ==> events[i].payload.success)
            && FirstAbout(TargetNamed, events, Name(events[i], "<unknown target>")) == Some(i)
         :: Name(events[i], "<unknown target>")
  }

  predicate IsListed(t: TargetResult) { true }

  lemma {:induction false} TargetNamesTold(
    events: seq<BuildEvent>, ts: seq<TargetResult>, onlySucceeded: bool, p: TargetResult -> bool)
    requires TargetsTold(events, ts)
    requires forall t :: p(t) <==> (onlySucceeded ==> t.success)
    ensures NamesIf(TargetName, p, ts) == TargetsWith(events, onlySucceeded)
  {
    forall name ensures name in NamesIf(TargetName, p, ts) <==> name in TargetsWith(events, onlySucceeded) {
      FirstAboutIs(TargetNamed, events, name);
      var first := FirstAbout(TargetNamed, events, name);
      if name in NamesIf(TargetName, p, ts) {
        var i :| 0 <= i < |ts| && p(ts[i]) && TargetName(ts[i]) == name;
        assert TargetTold(events[first.value], ts[i]);
      }
      if name in TargetsWith(events, onlySucceeded) {
        assert HasName(TargetName, ts, name);
        var i :| 0 <= i < |ts| && TargetName(ts[i]) == name;
        assert TargetTold(events[first.value], ts[i]);
      }
    }
  }

  lemma {:induction false} CountAll(ts: seq<TargetResult>)
    ensures CountIf(IsListed, ts) == |ts|
  {
    if ts != [] {
      CountAll(ts[..|ts| - 1]);
    }
  }

  lemma {:induction false} TargetCountsTold(events: seq<BuildEvent>, ts: seq<TargetResult>)
    requires TargetsTold(events, ts)
    ensures
      var c := CountTargets(ts);
      && c.requested == |TargetsWith(events, false)|
      && c.succeeded == |TargetsWith(events, true)|
      && c.failed == c.requested - c.succeeded
  {
    TargetsCounted(ts);
    CountAll(ts);
    CountedNames(TargetName, IsListed, ts);
    CountedNames(TargetName, HasSucceeded, ts);
    TargetNamesTold(events, ts, false, IsListed);
    TargetNamesTold(events, ts, true, HasSucceeded);
  }

  lemma {:induction false} NoneSkipped(ts: seq<TestResult>)
    requires forall i :: 0 <= i < |ts| ==> !ts[i].status.Skipped?
    ensures CountIf(IsSkipped, ts) == 0
  {
    if ts != [] {
      NoneSkipped(ts[..|ts| - 1]);
    }
  }

  lemma {:induction false} TestCountsTold(events: seq<BuildEvent>, ts: seq<TestResult>)
    requires TestsTold(events, ts)
    ensures CountTests(ts) == TestCounts(
              |TestsWith(events, PassCode)|, |TestsWith(events, FailCode)|, |TestsWith(events, FlakyCode)|, 0,
              |TestsWith(events, UndecidedCode)|)
  {
    TestsCounted(ts);
    NoSkips(events, ts);
    PassesTold(events, ts);
    FailuresTold(events, ts);
    FlakesTold(events, ts);
    UndecidedTold(events, ts);
  }

  lemma {:induction false} NoSkips(events: seq<BuildEvent>, ts: seq<TestResult>)
    requires TestsTold(events, ts)
    ensures CountIf(IsSkipped, ts) == 0
  {
    NoneSkipped(ts);
  }

  lemma {:induction false} PassesTold(events: seq<BuildEvent>, ts: seq<TestResult>)
    requires TestsTold(events, ts)
    ensures CountIf(IsPassed, ts) == |TestsWith(events, PassCode)|
  {
    FieldTold(events, ts, PassCode, IsPassed);
  }

  lemma {:induction false} FailuresTold(events: seq<BuildEvent>, ts: seq<TestResult>)
    requires TestsTold(events, ts)
    ensures CountIf(IsFailed, ts) == |TestsWith(events, FailCode)|
  {
    FieldTold(events, ts, FailCode, IsFailed);
  }

  lemma {:induction false} FlakesTold(events: seq<BuildEvent>, ts: seq<TestResult>)
    requires TestsTold(events, ts)
    ensures CountIf(IsFlaky, ts) == |TestsWith(events, FlakyCode)|
  {
    FieldTold(events, ts, FlakyCode, IsFlaky);
  }

  lemma {:induction false} UndecidedTold(events: seq<BuildEvent>, ts: seq<TestResult>)
    requires TestsTold(events, ts)
    ensures CountIf(IsUndecided, ts) == |TestsWith(events, UndecidedCode)|
  {
    FieldTold(events, ts, UndecidedCode, IsUndecided);
  }

  lemma {:induction false} FieldTold(
    events: seq<BuildEvent>, ts: seq<TestResult>, carries: int -> bool, p: TestResult -> bool)
    requires TestsTold(events, ts)
    requires forall code: int, t: TestResult :: Reads(code, t.status) ==> (p(t) <==> carries(code))
    ensures CountIf(p, ts) == |TestsWith(events, carries)|
  {
    CountedNames(TestName, p, ts);
    NamesTold(events, ts, carries, p);
  }

  // ------------------------------------------------------------------- diagnostics

  /** An event that gives a diagnostic. */
  predicate Complains(e: BuildEvent) {
    match e.payload
    case Aborted(_, _) => true
    case ActionExecuted(success, _, _, _, _) => !success
    case TestSummary(code, _, _, _) => code != 1
    case _ => false
  }

  function Labelled(e: BuildEvent): Option<string> {
    if Name(e, "") == "" then None else Some(Name(e, ""))
  }

  function Text(s: string): Option<string> {
    if s == "" then None else Some(s)
  }

  predicate AbortTold(reason: int, c: Category) {
    match c
    case Loading => reason == 5
    case Analysis => reason == 6
    case Bazel => reason !in {5, 6}
    case _ => false
  }

  /** How a test that did not pass is reported. */
  predicate TestComplaint(code: int, name: string, severity: Severity, message: string) {
    && (severity.Warning? <==> code == 2) && !severity.Note?
    && message ==
         (if code == 2 then "Test was flaky: "
          else if code == 3 then "Test timed out: "
          else if code in {4, 7, 8} then "Test failed: "
          else if code == 6 then "Test result was unavailable: "
          else "Test was incomplete: ") + name
  }

  /** The diagnostic is what the event complains about. */
  predicate Complaint(e: BuildEvent, d: Diagnostic) {
    && d.location.None? && d.count == 1
    && match e.payload
       case Aborted(reason, description) =>
         && d.severity.Error? && AbortTold(reason, d.category) && d.message == description
         && d.target == Labelled(e) && d.action.None?
       case ActionExecuted(success, actionType, exitCode, target, _) =>
         && !success && d.severity.Error? && d.category.Action?
         && d.message == (if actionType == "" then "Bazel" else actionType)
                         + " action failed with exit code " + Decimal(exitCode)
         && d.target == (if Labelled(e).Some? then Labelled(e) else Text(target)) && d.action == Text(actionType)
       case TestSummary(code, _, _, _) =>
         var name := Name(e, "<unknown test>");
         && code != 1 && d.category.Test? && TestComplaint(code, name, d.severity, d.message)
         && d.target == Some(name) && d.action.None?
       case _ => false
  }

  /** The diagnostics collected: one for each event that gives one, in order. */
  predicate ComplaintsTold(events: seq<BuildEvent>, ds: seq<Diagnostic>) {
    if events == [] then ds == []
    else
      var init, last := events[..|events| - 1], events[|events| - 1];
      if Complains(last) then ds != [] && Complaint(last, ds[|ds| - 1]) && ComplaintsTold(init, ds[..|ds| - 1])
      else ComplaintsTold(init, ds)
  }

  lemma {:induction false} ComplaintOf(e: BuildEvent)
    ensures |DiagnosticsIn(e)| == if Complains(e) then 1 else 0
    ensures Complains(e) ==> Complaint(e, DiagnosticsIn(e)[0])
  {
  }

  lemma {:induction false} CollectedTold(events: seq<BuildEvent>)
    ensures ComplaintsTold(events, SeeAll(events).diagnostics)
  {
    if events != [] {
      var init, last := events[..|events| - 1], events[|events| - 1];
      CollectedTold(init);
      ComplaintOf(last);
      var before := SeeAll(init).diagnostics;
      if Complains(last) {
        assert (before + DiagnosticsIn(last))[..|before|] == before;
      } else {
        assert before + [] == before;
      }
    }
  }

  lemma {:induction false} ToldMembers(events: seq<BuildEvent>, ds: seq<Diagnostic>, d: Diagnostic)
    requires ComplaintsTold(events, ds)
    ensures d in ds <==> exists i :: 0 <= i < |events| && Complaint(events[i], d)
  {
    if events != [] {
      var init, last := events[..|events| - 1], events[|events| - 1];
      assert forall i :: 0 <= i < |init| ==> init[i] == events[i];
      assert Complaint(last, d) ==> Complains(last);
      if Complains(last) {
        ToldMembers(init, ds[..|ds| - 1], d);
        assert ds == ds[..|ds| - 1] + [ds[|ds| - 1]];
        ComplaintUnique(last, d, ds[|ds| - 1]);
      } else {
        ToldMembers(init, ds, d);
      }
    }
  }

  lemma {:induction false} ComplaintUnique(e: BuildEvent, a: Diagnostic, b: Diagnostic)
    ensures Complaint(e, a) && Complaint(e, b) ==> a == b
  {
  }

  /** A test is reported as failed if and only if one of its summary events carries a
      failing code. */
  lemma {:induction false} FailureReported(events: seq<BuildEvent>, name: string)
    ensures
      var failure := Diagnostic(Error, Test, "Test failed: " + name, None, Some(name), None, 1);
      failure in SeeAll(events).diagnostics <==> exists i ::
        0 <= i < |events| && TestNamed(events[i]) == Some(name) && FailCode(events[i].payload.status)
  {
    var failure := Diagnostic(Error, Test, "Test failed: " + name, None, Some(name), None, 1);
    CollectedTold(events);
    ToldMembers(events, SeeAll(events).diagnostics, failure);
    forall i | 0 <= i < |events| ensures Complaint(events[i], failure)
      <==> TestNamed(events[i]) == Some(name) && FailCode(events[i].payload.status)
    {
      if events[i].payload.TestSummary? && TestNamed(events[i]) == Some(name) {
        FailureMessage(events[i].payload.status, name);
      }
    }
  }

  lemma {:induction false} FailureMessage(code: int, name: string)
    ensures code != 1 && TestComplaint(code, name, Error, "Test failed: " + name) <==> FailCode(code)
  {
    var failed := "Test failed: " + name;
    assert failed[5] == 'f';
    assert ("Test timed out: " + name)[5] == 't' && ("Test result was unavailable: " + name)[5] == 'r';
    assert ("Test was incomplete: " + name)[5] == 'w';
  }

  // --------------------------------------------------------------------- arguments

  function OptionsNamed(e: BuildEvent): Option<string> {
    if e.payload.OptionsParsed? then Some("") else None
  }

  /** The arguments are those of the first event with parsed options, startup options
      first. */
  lemma {:induction false} ArgumentsTold(events: seq<BuildEvent>)
    ensures
      var first := FirstAbout(OptionsNamed, events, "");
      SeeAll(events).arguments ==
        if first.Some? && first.value < |events| && events[first.value].payload.OptionsParsed? then
          Some(events[first.value].payload.startupOptions + events[first.value].payload.cmdLine)
        else None
  {
    FirstAboutIs(OptionsNamed, events, "");
    if events != [] {
      var init := events[..|events| - 1];
      FirstAboutIs(OptionsNamed, init, "");
      ArgumentsTold(init);
    }
  }

  // ------------------------------------------------------------------- the summary

  /** The headline when there is nothing to point at. */
  predicate HeadlineTold(exitCode: Option<int>, elapsedMs: nat, headline: string) {
    match exitCode
    case Some(0) => headline == "Bazel completed successfully in " + Decimal(elapsedMs) + " ms"
    case Some(code) => headline == "Bazel failed with exit code Some(" + Decimal(code) + ")"
    case None => headline == "Bazel failed with exit code None"
  }

  lemma {:induction false} HeadlineIs(exitCode: Option<int>, elapsedMs: nat)
    ensures HeadlineTold(exitCode, elapsedMs, BaseHeadline(exitCode, elapsedMs))
  {
    if exitCode.Some? {
      assert "Bazel failed with exit code " + ("Some(" + Decimal(exitCode.value) + ")")
          == "Bazel failed with exit code Some(" + Decimal(exitCode.value) + ")";
    }
  }

  /** What a summary reports: the most urgent of what the events complain about and,
      after a failure, of what the two texts say, stderr first. */
  lemma {:induction false} BatchReports(parse: Parser, events: seq<BuildEvent>, output: Output, budget: Budget)
    ensures
      var r, ds := BatchSummary(parse, events, output, budget), SeeAll(events).diagnostics;
      var failed := output.exitCode != Some(0);
      && ComplaintsTold(events, ds)
      && r.diagnostics ==
           Bounded(if failed then ds + parse(output.stderr) + parse(output.stdout) else ds, budget)
      && (if failed && r.diagnostics != [] then r.headline == "Bazel failed: " + r.diagnostics[0].message
          else HeadlineTold(output.exitCode, output.elapsedMs, r.headline))
      && (r.inspectHint == if r.truncated then Some(InspectDiagnostics) else None)
  {
    CollectedTold(events);
    HeadlineIs(output.exitCode, output.elapsedMs);
  }

  /** The batch summary of any events: its targets, tests and counts are those the events
      tell, and it succeeds exactly when Bazel exited with 0. */
  lemma {:induction false} BatchTold(parse: Parser, events: seq<BuildEvent>, output: Output, budget: Budget)
    ensures
      var r := BatchSummary(parse, events, output, budget);
      && TestsTold(events, r.tests) && TargetsTold(events, r.targets)
      && r.testCounts == TestCounts(
           |TestsWith(events, PassCode)|, |TestsWith(events, FailCode)|, |TestsWith(events, FlakyCode)|, 0,
           |TestsWith(events, UndecidedCode)|)
      && r.targetCounts.requested == |TargetsWith(events, false)|
      && r.targetCounts.succeeded == |TargetsWith(events, true)|
      && r.targetCounts.failed == r.targetCounts.requested - r.targetCounts.succeeded
      && r.success == (output.exitCode == Some(0)) && r.elapsedMs == output.elapsedMs
  {
    ListedTestsTold(events);
    ListedTargetsTold(events);
    TestCountsTold(events, TestsByLabel(SeeAll(events).tests));
    TargetCountsTold(events, TargetsByLabel(SeeAll(events).targets));
  }
}
