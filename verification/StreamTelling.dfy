/** What the streaming reducer reports, told by the raw events. */
module StreamTelling {
  import opened Base
  import opened Sorting
  import opened Summary
  import opened Artifacts
  import opened Events
  import opened Accumulator
  import opened Keeping
  import opened Finalize
  import opened Concluding
  import opened Finishing
  import opened Recovery
  import opened Batch
  import opened Telling
  import opened Refinement

  // ------------------------------------------------------------------- the outcome

  /** What the last event of the kind says about running the built target. */
  function ExecResult(events: seq<BuildEvent>): Option<bool> {
    if events == [] then None
    else
      var last := events[|events| - 1].payload;
      if last.ExecRequest? then Some(last.shouldExec) else ExecResult(events[..|events| - 1])
  }

  predicate SawTest(events: seq<BuildEvent>) {
    exists i :: 0 <= i < |events| && events[i].payload.TestAttempt?
  }

  predicate IsNote(e: Entry) {
    e.NoteTestResult? || e.NoteFinished? || e.NoteExecRequest?
  }

  lemma {:induction false} UnnotedOutcome(s: State, es: seq<Entry>)
    requires forall i :: 0 <= i < |es| ==> !IsNote(es[i])
    ensures KeepAll(s, es).content.outcome == s.content.outcome
  {
    if es != [] {
      UnnotedOutcome(s, es[..|es| - 1]);
      assert !IsNote(es[|es| - 1]);
    }
  }

  lemma {:induction false} GroupsUnnoted(groups: seq<OutputGroup>)
    ensures forall i :: 0 <= i < |GroupEntries(groups)| ==> !IsNote(GroupEntries(groups)[i])
  {
    GroupsAreQuiet(groups);
    assert forall i :: 0 <= i < |GroupEntries(groups)| ==> Quiet(GroupEntries(groups)[i]);
  }

  lemma {:induction false} EntriesUnnoted(e: BuildEvent)
    requires !e.payload.TestAttempt? && !e.payload.Finished? && !e.payload.ExecRequest?
    ensures forall i :: 0 <= i < |Entries(e)| ==> !IsNote(Entries(e)[i])
  {
    match e.payload
    case Completed(_, groups, _, _) => GroupsUnnoted(groups);
    case _ =>
  }

  /** Notes are taken even when there is no room. */
  lemma {:induction false} EventNoted(s: State, e: BuildEvent)
    ensures
      var p, before := e.payload, s.content.outcome;
      Observe(s, e).content.outcome ==
        if p.TestAttempt? then before.(testSeen := true)
        else if p.Finished? then before.(buildSuccess := Some(p.success))
        else if p.ExecRequest? then before.(shouldExecute := Some(p.shouldExec))
        else before
  {
    var p := e.payload;
    if p.TestAttempt? {
      var rest := Entries(e)[1..];
      assert Entries(e) == [NoteTestResult] + rest;
      KeepAllCons(s, NoteTestResult, rest);
      UnnotedOutcome(Keep(s, NoteTestResult), rest);
    } else if p.Finished? || p.ExecRequest? {
      var note := Entries(e)[0];
      assert Entries(e) == [note] + [];
      KeepAllCons(s, note, []);
    } else {
      EntriesUnnoted(e);
      UnnotedOutcome(s, Entries(e));
    }
  }

  /** Of every stream, truncated or not, the outcome is what its last finish, its last
      request to run and the presence of test attempts tell. */
  lemma {:induction false} OutcomeTold(events: seq<BuildEvent>)
    ensures ObserveAll(events).content.outcome ==
      RunOutcome(BuildResult(events), ExecResult(events), SawTest(events), 0)
  {
    if events != [] {
      var init, last := events[..|events| - 1], events[|events| - 1];
      OutcomeTold(init);
      EventNoted(ObserveAll(init), last);
      InitLast(events);
      SawSnoc(init, last);
    }
  }

  lemma {:induction false} SawSnoc(events: seq<BuildEvent>, e: BuildEvent)
    ensures SawTest(events + [e]) <==> SawTest(events) || e.payload.TestAttempt?
  {
    var all := events + [e];
    assert all[|events|] == e;
    assert forall i :: 0 <= i < |events| ==> all[i] == events[i];
  }

  // ------------------------------------------------------------------ the attempts

  predicate AttemptOf(e: BuildEvent, name: string) {
    e.payload.TestAttempt? && Telling.Labelled(e) == Some(name)
  }

  /** Some attempt of the test carries one of the codes. */
  predicate SomeAttempt(events: seq<BuildEvent>, name: string, carries: int -> bool) {
    exists i :: 0 <= i < |events| && AttemptOf(events[i], name) && carries(events[i].payload.status)
  }

  function AttemptCount(events: seq<BuildEvent>, name: string): nat {
    if events == [] then 0
    else AttemptCount(events[..|events| - 1], name) + (if AttemptOf(events[|events| - 1], name) then 1 else 0)
  }

  predicate OtherCode(code: int) { code !in {1, 2} }

  /** What the events tell about the attempts of a test. */
  function AttemptsTold(events: seq<BuildEvent>, name: string): Option<Attempts> {
    var n := AttemptCount(events, name);
    if n == 0 then None
    else Some(Attempts(name, SomeAttempt(events, name, PassCode), SomeAttempt(events, name, OtherCode),
                       SomeAttempt(events, name, FlakyCode), if n > U32_MAX then U32_MAX else n))
  }

  function Lookup(attempts: seq<Attempts>, name: string): Option<Attempts> {
    var at := FindAttempt(attempts, name);
    if at.Some? then Some(attempts[at.value]) else None
  }

  lemma {:induction false} LookupSnoc(attempts: seq<Attempts>, a: Attempts, name: string)
    ensures Lookup(attempts + [a], name) == if a.name == name then Some(a) else Lookup(attempts, name)
  {
    assert (attempts + [a])[..|attempts|] == attempts;
  }

  lemma {:induction false} LookupInsert(attempts: seq<Attempts>, a: Attempts, name: string)
    requires forall i :: 0 <= i < |attempts| ==> attempts[i].name != a.name
    ensures Lookup(Insert(AttemptsLe, attempts, a), name) ==
      if a.name == name then Some(a) else Lookup(attempts, name)
  {
    LookupSnoc(attempts, a, name);
    if attempts == [] {
      assert attempts + [a] == [a];
    } else {
      var init, last := attempts[..|attempts| - 1], attempts[|attempts| - 1];
      assert attempts == init + [last];
      if !AttemptsLe(last, a) {
        LookupInsert(init, a, name);
        LookupSnoc(Insert(AttemptsLe, init, a), last, name);
        LookupSnoc(init, last, name);
      }
    }
  }

  lemma {:induction false} LookupUpdate(attempts: seq<Attempts>, k: nat, a: Attempts, name: string)
    requires FindAttempt(attempts, a.name) == Some(k)
    ensures Lookup(attempts[k := a], name) == if a.name == name then Some(a) else Lookup(attempts, name)
  {
    var init, last := attempts[..|attempts| - 1], attempts[|attempts| - 1];
    if k < |attempts| - 1 {
      LookupUpdate(init, k, a, name);
      assert attempts[k := a] == init[k := a] + [last];
      LookupSnoc(init[k := a], last, name);
    } else {
      assert attempts[k := a] == init + [a];
      LookupSnoc(init, a, name);
    }
    LookupSnoc(init, last, name);
    assert attempts == init + [last];
  }

  /** One attempt more, by its raw code. */
  predicate OneMore(before: Option<Attempts>, code: int, test: string, after: Option<Attempts>) {
    var a := if before.Some? then before.value else Attempts(test, false, false, false, 0);
    && after.Some? && after.value.name == a.name
    && (after.value.passed <==> a.passed || code == 1)
    && (after.value.flaky <==> a.flaky || code == 2)
    && (after.value.notPassed <==> a.notPassed || code !in {1, 2})
    && after.value.count == (if a.count == U32_MAX then U32_MAX else a.count + 1)
  }

  lemma {:induction false} AttemptLooked(c: Content, test: string, code: int, name: string)
    ensures
      var before, after := Lookup(c.attempts, name), Lookup(Put(c, KeepAttempt(test, StatusOf(code))).attempts, name);
      if name == test then OneMore(before, code, test, after) else after == before
  {
    var at := FindAttempt(c.attempts, test);
    if at.Some? {
      LookupUpdate(c.attempts, at.value, ObserveAttempt(c.attempts[at.value], StatusOf(code)), name);
    } else {
      LookupInsert(c.attempts, ObserveAttempt(Attempts(test, false, false, false, 0), StatusOf(code)), name);
    }
  }

  lemma {:induction false} NotedAttemptLooked(c: Content, test: string, code: int, name: string)
    ensures
      var keep := KeepAttempt(test, StatusOf(code));
      var before, after := Lookup(c.attempts, name), Lookup(PutAll(c, [NoteTestResult] + [keep]).attempts, name);
      if name == test then OneMore(before, code, test, after) else after == before
  {
    var keep := KeepAttempt(test, StatusOf(code));
    PutAllCons(c, NoteTestResult, [keep]);
    PutAllCons(Put(c, NoteTestResult), keep, []);
    assert [keep] + [] == [keep];
    AttemptLooked(Put(c, NoteTestResult), test, code, name);
  }

  lemma {:induction false} OtherAttemptsStay(c: Content, e: BuildEvent)
    requires !e.payload.TestAttempt? || LabelOf(e.id).None?
    ensures PutAll(c, Loud(e)).attempts == c.attempts
  {
    if Loud(e) != [] {
      var only := Loud(e)[0];
      assert Loud(e) == [only] + [];
      PutAllCons(c, only, []);
    }
  }

  lemma {:induction false} EventLooked(c: Content, e: BuildEvent, name: string)
    ensures
      var before, after := Lookup(c.attempts, name), Lookup(PutAll(c, Entries(e)).attempts, name);
      if AttemptOf(e, name) then OneMore(before, e.payload.status, name, after) else after == before
  {
    LoudPuts(c, e);
    if e.payload.TestAttempt? && LabelOf(e.id).Some? {
      NotedAttemptLooked(c, LabelOf(e.id).value, e.payload.status, name);
    } else {
      OtherAttemptsStay(c, e);
    }
  }

  lemma {:induction false} ToldSnoc(events: seq<BuildEvent>, e: BuildEvent, name: string)
    ensures
      var before, after := AttemptsTold(events, name), AttemptsTold(events + [e], name);
      if AttemptOf(e, name) then OneMore(before, e.payload.status, name, after) else after == before
  {
    var all := events + [e];
    assert all[..|events|] == events && all[|events|] == e;
    SomeSnoc(events, e, name, PassCode);
    SomeSnoc(events, e, name, FlakyCode);
    SomeSnoc(events, e, name, OtherCode);
    if AttemptCount(events, name) == 0 {
      NoAttempt(events, name);
    }
  }

  lemma {:induction false} SomeSnoc(events: seq<BuildEvent>, e: BuildEvent, name: string, carries: int -> bool)
    ensures SomeAttempt(events + [e], name, carries)
       <==> SomeAttempt(events, name, carries) || (AttemptOf(e, name) && carries(e.payload.status))
  {
    var all := events + [e];
    assert all[|events|] == e;
    assert forall i :: 0 <= i < |events| ==> all[i] == events[i];
  }

  lemma {:induction false} NoAttempt(events: seq<BuildEvent>, name: string)
    requires AttemptCount(events, name) == 0
    ensures forall i :: 0 <= i < |events| ==> !AttemptOf(events[i], name)
  {
    if events != [] {
      NoAttempt(events[..|events| - 1], name);
    }
  }

  lemma OneMoreUnique(before: Option<Attempts>, code: int, test: string, a: Option<Attempts>, b: Option<Attempts>)
    requires OneMore(before, code, test, a) && OneMore(before, code, test, b)
    ensures a == b
  {
  }

  lemma {:induction false} AttemptsNext(c: Content, events: seq<BuildEvent>, e: BuildEvent, name: string)
    requires Lookup(c.attempts, name) == AttemptsTold(events, name)
    ensures Lookup(PutAll(c, Entries(e)).attempts, name) == AttemptsTold(events + [e], name)
  {
    var before := AttemptsTold(events, name);
    var looked, told := Lookup(PutAll(c, Entries(e)).attempts, name), AttemptsTold(events + [e], name);
    EventLooked(c, e, name);
    ToldSnoc(events, e, name);
    if AttemptOf(e, name) {
      OneMoreUnique(before, e.payload.status, name, looked, told);
    }
  }

  /** With enough room, the attempts kept of a test are what the events tell about it:
      how many there were, and whether some passed, some were flaky, some neither. */
  lemma {:induction false} StreamAttemptsTold(events: seq<BuildEvent>, name: string)
    requires !ObserveAll(events).usage.truncated
    ensures Lookup(ObserveAll(events).content.attempts, name) == AttemptsTold(events, name)
  {
    if events != [] {
      var init, last := events[..|events| - 1], events[|events| - 1];
      KeepAllGranted(ObserveAll(init), Entries(last));
      StreamAttemptsTold(init, name);
      AttemptsNext(ObserveAll(init).content, init, last, name);
      InitLast(events);
    }
  }

  // -------------------------------------------------------------- recovered tests

  lemma {:induction false} OwnLookup(attempts: seq<Attempts>, i: nat)
    requires NamesInOrder(attempts) && i < |attempts|
    ensures Lookup(attempts, attempts[i].name) == Some(attempts[i])
  {
    var init, last := attempts[..|attempts| - 1], attempts[|attempts| - 1];
    if i < |attempts| - 1 {
      OwnLookup(init, i);
      LookupSnoc(init, last, attempts[i].name);
      assert attempts == init + [last];
    }
  }

  /** The test as its attempts alone tell it: flaky when one of them was or when some
      passed and some did not, passed when all of them did. */
  predicate RecoveredTold(events: seq<BuildEvent>, t: TestResult) {
    var passed, flaky, other :=
      SomeAttempt(events, t.name, PassCode), SomeAttempt(events, t.name, FlakyCode),
      SomeAttempt(events, t.name, OtherCode);
    && (passed || flaky)
    && t.status == (if flaky || other then Flaky else Passed)
    && t.attempts == (if AttemptCount(events, t.name) > U32_MAX then U32_MAX else AttemptCount(events, t.name))
    && t.durationMs.None? && t.shard.None? && t.logUnavailable.None?
  }

  lemma {:induction false} RecoverableTold(events: seq<BuildEvent>, a: Attempts, t: TestResult)
    requires AttemptsTold(events, a.name) == Some(a)
    ensures SuccessfulStatus(a).Some? && RecoveredTest(a) == t <==> a.name == t.name && RecoveredTold(events, t)
  {
  }

  lemma {:induction false} SomeCounted(events: seq<BuildEvent>, name: string, carries: int -> bool)
    requires SomeAttempt(events, name, carries)
    ensures AttemptCount(events, name) > 0
  {
    if AttemptCount(events, name) == 0 {
      NoAttempt(events, name);
    }
  }

  /** After a success, a test is recovered if and only if no summary event names it and
      some attempt of it passed or was flaky; it is what its attempts tell. */
  lemma {:induction false} RecoveredIsTold(events: seq<BuildEvent>, output: Output, t: TestResult)
    requires !ObserveAll(events).usage.truncated
    requires output.exitCode == Some(0) && BuildResult(events) == Some(true)
    ensures t in Recovered(ObserveAll(events).content, output)
       <==> !Summarized(events, t.name) && RecoveredTold(events, t)
  {
    var c := ObserveAll(events).content;
    var tests := TestsByLabel(c.tests);
    StreamTells(events);
    TestsOrder();
    ByLabelLaws(TestLe, TestName, c.tests);
    AttemptsInOrder(events);
    StreamAttemptsTold(events, t.name);
    RecoveredExactly(c.attempts, tests, t);
    if t in Recovered(c, output) {
      var i :| 0 <= i < |c.attempts| && Recoverable(c.attempts[i], tests) && RecoveredTest(c.attempts[i]) == t;
      OwnLookup(c.attempts, i);
      RecoverableTold(events, c.attempts[i], t);
    }
    if !Summarized(events, t.name) && RecoveredTold(events, t) {
      var carries := if SomeAttempt(events, t.name, PassCode) then PassCode else FlakyCode;
      SomeCounted(events, t.name, carries);
      var i := FindAttempt(c.attempts, t.name).value;
      RecoverableTold(events, c.attempts[i], t);
      assert Recoverable(c.attempts[i], tests) && RecoveredTest(c.attempts[i]) == t;
    }
  }

  // --------------------------------------------------------------------- a summary

  lemma {:induction false} FinishedMembers(c: Content, output: Output, t: TestResult)
    ensures t in FinishedTests(c, output) <==> t in TestsByLabel(c.tests) || t in Recovered(c, output)
  {
    TestsOrder();
    SortByMembers(TestLe, TestsByLabel(c.tests) + Recovered(c, output));
  }

  /** The summary of a stream that had enough room and no text too long: a test is listed
      exactly if its first summary event says so or, after a success, its attempts do;
      targets and diagnostics are those the events tell. */
  lemma {:induction false} StreamTold(parse: Parser, events: seq<BuildEvent>, output: Output, budget: Budget)
    returns (listed: seq<TestResult>, ds: seq<Diagnostic>)
    requires !ObserveAll(events).usage.truncated
    requires forall i :: 0 <= i < |events| ==> WithinCaps(events[i])
    ensures TestsTold(events, listed) && ComplaintsTold(events, ds)
    ensures
      var r := StreamSummary(parse, ObserveAll(events), output, budget);
      && (forall t :: t in r.tests <==>
            || t in listed
            || (&& output.exitCode == Some(0) && BuildResult(events) == Some(true)
                && !Summarized(events, t.name) && RecoveredTold(events, t)))
      && TargetsTold(events, r.targets)
      && r.diagnostics ==
           Bounded(if output.exitCode == Some(0) then ds else ds + parse(output.stderr) + parse(output.stdout), budget)
  {
    var c := ObserveAll(events).content;
    StreamAgrees(events);
    listed, ds := TestsByLabel(c.tests), c.diagnostics;
    ListedTestsTold(events);
    ListedTargetsTold(events);
    CollectedTold(events);
    StreamTestsTold(events, output);
  }

  lemma {:induction false} StreamTestsTold(events: seq<BuildEvent>, output: Output)
    requires !ObserveAll(events).usage.truncated
    ensures
      var c := ObserveAll(events).content;
      forall t :: t in FinishedTests(c, output) <==>
        || t in TestsByLabel(c.tests)
        || (&& output.exitCode == Some(0) && BuildResult(events) == Some(true)
            && !Summarized(events, t.name) && RecoveredTold(events, t))
  {
    var c := ObserveAll(events).content;
    StreamTells(events);
    forall t ensures t in FinishedTests(c, output) <==>
      || t in TestsByLabel(c.tests)
      || (&& output.exitCode == Some(0) && BuildResult(events) == Some(true)
          && !Summarized(events, t.name) && RecoveredTold(events, t))
    {
      FinishedMembers(c, output, t);
      if output.exitCode == Some(0) && BuildResult(events) == Some(true) {
        RecoveredIsTold(events, output, t);
      }
    }
  }
}
