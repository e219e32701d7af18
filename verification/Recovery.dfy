/** When finishing a stream recovers a test, told by the events that were observed. */
module Recovery {
  import opened Base
  import opened Sorting
  import opened Summary
  import opened Artifacts
  import opened Events
  import opened Accumulator
  import opened Keeping
  import opened Concluding
  import opened Finishing

  // ---------------------------------------------------------- attempts in order

  lemma {:induction false} InsertInOrder(attempts: seq<Attempts>, a: Attempts)
    requires NamesInOrder(attempts) && forall i :: 0 <= i < |attempts| ==> attempts[i].name != a.name
    ensures NamesInOrder(Insert(AttemptsLe, attempts, a))
  {
    if attempts != [] {
      var init, last := attempts[..|attempts| - 1], attempts[|attempts| - 1];
      if AttemptsLe(last, a) {
        forall i | 0 <= i < |init| ensures StringLe(attempts[i].name, a.name) {
          StringLeTransitive(attempts[i].name, last.name, a.name);
        }
      } else {
        InsertInOrder(init, a);
        InsertElements(AttemptsLe, init, a);
        StringLeTotal(last.name, a.name);
        forall x | x in Insert(AttemptsLe, init, a) ensures StringLe(x.name, last.name) && x.name != last.name {
          assert x in multiset(Insert(AttemptsLe, init, a));
          assert x in init || x == a;
        }
      }
    }
  }

  lemma {:induction false} KeepInOrder(s: State, e: Entry)
    requires NamesInOrder(s.content.attempts)
    ensures NamesInOrder(Keep(s, e).content.attempts)
  {
    if e.KeepAttempt? && FindAttempt(s.content.attempts, e.name).None? {
      InsertInOrder(s.content.attempts, ObserveAttempt(Attempts(e.name, false, false, false, 0), e.status));
    }
  }

  lemma {:induction false} KeepAllInOrder(s: State, es: seq<Entry>)
    requires NamesInOrder(s.content.attempts)
    ensures NamesInOrder(KeepAll(s, es).content.attempts)
  {
    if es != [] {
      KeepAllInOrder(s, es[..|es| - 1]);
      KeepInOrder(KeepAll(s, es[..|es| - 1]), es[|es| - 1]);
    }
  }

  lemma {:induction false} AttemptsInOrder(events: seq<BuildEvent>)
    ensures NamesInOrder(ObserveAll(events).content.attempts)
  {
    if events != [] {
      AttemptsInOrder(events[..|events| - 1]);
      KeepAllInOrder(ObserveAll(events[..|events| - 1]), Entries(events[|events| - 1]));
    }
  }

  /** Of every stream, truncated or not, the recovered tests come by name, each once, and
      none of them had a summary. */
  lemma {:induction false} StreamRecoversInOrder(events: seq<BuildEvent>, output: Output)
    ensures var c := ObserveAll(events).content;
            var r := Recovered(c, output);
            && Sorted(TestLe, r)
            && (forall i, j :: 0 <= i < j < |r| ==> r[i].name != r[j].name)
            && (forall i :: 0 <= i < |r| ==> !HasTest(TestsByLabel(c.tests), r[i].name))
  {
    AttemptsInOrder(events);
    RecoveredInOrder(ObserveAll(events).content.attempts, TestsByLabel(ObserveAll(events).content.tests));
  }

  // ------------------------------------------------------------- what events tell

  /** The event reports an attempt, of a test it names, that passed or was flaky. */
  predicate IsSuccess(e: BuildEvent) {
    e.payload.TestAttempt? && LabelOf(e.id).Some? && e.payload.status in {1, 2}
  }

  predicate ReportsSuccess(e: BuildEvent, name: string) {
    IsSuccess(e) && LabelOf(e.id).value == name
  }

  predicate Summarizes(e: BuildEvent, name: string) {
    e.payload.TestSummary? && LabelOr(e.id, "<unknown test>") == name
  }

  predicate Succeeded(events: seq<BuildEvent>, name: string) {
    exists i :: 0 <= i < |events| && ReportsSuccess(events[i], name)
  }

  predicate Summarized(events: seq<BuildEvent>, name: string) {
    exists i :: 0 <= i < |events| && Summarizes(events[i], name)
  }

  /** What the last finishing event says of the build. */
  function BuildResult(events: seq<BuildEvent>): Option<bool> {
    if events == [] then None
    else
      var last := events[|events| - 1].payload;
      if last.Finished? then Some(last.success) else BuildResult(events[..|events| - 1])
  }

  /** The invocation failed, or the build does not say that it succeeded, or every test
      with a successful attempt also has a summary. */
  predicate NothingToRecover(events: seq<BuildEvent>, output: Output) {
    output.exitCode == Some(0) && BuildResult(events) == Some(true) ==>
      forall i :: 0 <= i < |events| && IsSuccess(events[i]) ==> Summarized(events, LabelOf(events[i].id).value)
  }

  lemma {:induction false} AllSummarized(events: seq<BuildEvent>)
    ensures (forall name :: Succeeded(events, name) ==> Summarized(events, name))
       <==> forall i :: 0 <= i < |events| && IsSuccess(events[i]) ==> Summarized(events, LabelOf(events[i].id).value)
  {
    if forall name :: Succeeded(events, name) ==> Summarized(events, name) {
      forall i | 0 <= i < |events| && IsSuccess(events[i]) ensures Summarized(events, LabelOf(events[i].id).value) {
        assert ReportsSuccess(events[i], LabelOf(events[i].id).value);
        assert Succeeded(events, LabelOf(events[i].id).value);
      }
    }
  }

  // ----------------------------------------------------------- what the state says

  /** An entry that concerns neither tests nor the outcome. */
  predicate Quiet(e: Entry) {
    !e.KeepTest? && !e.KeepAttempt? && !e.NoteTestResult? && !e.NoteFinished? && !e.NoteExecRequest?
  }

  predicate AllQuiet(es: seq<Entry>) {
    forall i :: 0 <= i < |es| ==> Quiet(es[i])
  }

  predicate SameTests(a: Content, b: Content) {
    a.tests == b.tests && a.attempts == b.attempts && a.outcome == b.outcome
  }

  lemma {:induction false} QuietKeepsTests(c: Content, es: seq<Entry>)
    requires AllQuiet(es)
    ensures SameTests(PutAll(c, es), c)
  {
    if es != [] {
      QuietKeepsTests(c, es[..|es| - 1]);
      assert Quiet(es[|es| - 1]);
    }
  }

  lemma {:induction false} GroupsAreQuiet(groups: seq<OutputGroup>)
    ensures AllQuiet(GroupEntries(groups))
  {
    if groups != [] {
      GroupsAreQuiet(groups[..|groups| - 1]);
    }
  }

  /** The entry of an event that is not quiet, if there is one. */
  function Loud(event: BuildEvent): seq<Entry> {
    var p := event.payload;
    if p.TestSummary? then
      [KeepTest(SummaryTest(LabelOr(event.id, "<unknown test>"), StatusOf(p.status),
                            p.durationMs, p.attemptCount, p.shardCount))]
    else if p.TestAttempt? then
      [NoteTestResult]
      + (if LabelOf(event.id).Some? then [KeepAttempt(LabelOf(event.id).value, StatusOf(p.status))] else [])
    else if p.Finished? then [NoteFinished(p.success)]
    else if p.ExecRequest? then [NoteExecRequest(p.shouldExec)]
    else []
  }

  lemma {:induction false} OthersAreQuiet(event: BuildEvent)
    requires Loud(event) == []
    ensures AllQuiet(Entries(event))
  {
    match event.payload
    case Completed(_, groups, _, _) => GroupsAreQuiet(groups);
    case _ =>
  }

  /** An event's entries are its loud ones between quiet ones. */
  lemma {:induction false} LoudWithin(event: BuildEvent) returns (a: seq<Entry>, b: seq<Entry>)
    ensures AllQuiet(a) && AllQuiet(b) && Entries(event) == a + (Loud(event) + b)
  {
    var p, es := event.payload, Entries(event);
    if p.TestSummary? {
      a, b := es[..|es| - 1], [];
    } else if p.TestAttempt? {
      a, b := [], ArtifactEntries(Made(p.outputs));
    } else if Loud(event) == [] {
      OthersAreQuiet(event);
      a, b := [], es;
    } else {
      a, b := [], [];
    }
  }

  lemma {:induction false} SamePutAll(c: Content, d: Content, es: seq<Entry>)
    requires SameTests(c, d)
    ensures SameTests(PutAll(c, es), PutAll(d, es))
  {
    if es != [] {
      SamePutAll(c, d, es[..|es| - 1]);
    }
  }

  lemma {:induction false} LoudPuts(c: Content, event: BuildEvent)
    ensures SameTests(PutAll(c, Entries(event)), PutAll(c, Loud(event)))
  {
    var a, b := LoudWithin(event);
    var c1 := PutAll(c, a);
    PutAllJoin(c, a, Loud(event) + b);
    PutAllJoin(c1, Loud(event), b);
    QuietKeepsTests(c, a);
    QuietKeepsTests(PutAll(c1, Loud(event)), b);
    SamePutAll(c1, c, Loud(event));
  }

  /** Some attempts kept under the name end in success or flakiness. */
  predicate Successful(attempts: seq<Attempts>, name: string) {
    exists i :: 0 <= i < |attempts| && attempts[i].name == name && SuccessfulStatus(attempts[i]).Some?
  }

  /** What the state knows about tests is what the events told. */
  ghost predicate Tells(c: Content, events: seq<BuildEvent>) {
    && c.outcome.buildSuccess == BuildResult(events)
    && (forall name :: Successful(c.attempts, name) <==> Succeeded(events, name))
    && (forall name :: HasTest(c.tests, name) <==> Summarized(events, name))
  }

  lemma {:induction false} SuccessfulSnoc(attempts: seq<Attempts>, a: Attempts, name: string)
    ensures Successful(attempts + [a], name)
       <==> Successful(attempts, name) || (a.name == name && SuccessfulStatus(a).Some?)
  {
    var r := attempts + [a];
    assert r[|attempts|] == a;
    assert forall i :: 0 <= i < |attempts| ==> r[i] == attempts[i];
  }

  lemma {:induction false} SuccessfulInsert(attempts: seq<Attempts>, a: Attempts, name: string)
    ensures Successful(Insert(AttemptsLe, attempts, a), name)
       <==> Successful(attempts, name) || (a.name == name && SuccessfulStatus(a).Some?)
  {
    SuccessfulSnoc(attempts, a, name);
    if attempts == [] {
      assert attempts + [a] == [a];
    } else if !AttemptsLe(attempts[|attempts| - 1], a) {
      var init, last := attempts[..|attempts| - 1], attempts[|attempts| - 1];
      SuccessfulInsert(init, a, name);
      SuccessfulSnoc(Insert(AttemptsLe, init, a), last, name);
      SuccessfulSnoc(init, last, name);
      assert attempts == init + [last];
    }
  }

  lemma {:induction false} SuccessfulUpdate(attempts: seq<Attempts>, k: nat, status: TestStatus, name: string)
    requires k < |attempts|
    ensures Successful(attempts[k := ObserveAttempt(attempts[k], status)], name)
       <==> Successful(attempts, name) || (attempts[k].name == name && (status.Passed? || status.Flaky?))
  {
    var r := attempts[k := ObserveAttempt(attempts[k], status)];
    if Successful(attempts, name) {
      var i :| 0 <= i < |attempts| && attempts[i].name == name && SuccessfulStatus(attempts[i]).Some?;
      assert r[i].name == name && SuccessfulStatus(r[i]).Some?;
    }
    assert r[k].name == attempts[k].name;
  }

  lemma {:induction false} AttemptTells(c: Content, test: string, status: TestStatus, name: string)
    ensures Successful(Put(c, KeepAttempt(test, status)).attempts, name)
       <==> Successful(c.attempts, name) || (test == name && (status.Passed? || status.Flaky?))
  {
    var at := FindAttempt(c.attempts, test);
    if at.Some? {
      SuccessfulUpdate(c.attempts, at.value, status, name);
    } else {
      SuccessfulInsert(c.attempts, ObserveAttempt(Attempts(test, false, false, false, 0), status), name);
    }
  }

  lemma {:induction false} EventsSnoc(events: seq<BuildEvent>, e: BuildEvent, name: string)
    ensures Succeeded(events + [e], name) <==> Succeeded(events, name) || ReportsSuccess(e, name)
    ensures Summarized(events + [e], name) <==> Summarized(events, name) || Summarizes(e, name)
  {
    var all := events + [e];
    assert all[|events|] == e;
    assert forall i :: 0 <= i < |events| ==> all[i] == events[i];
  }

  lemma {:induction false} NotedAttemptTells(c: Content, test: string, status: TestStatus, name: string)
    ensures
      var after := PutAll(c, [NoteTestResult, KeepAttempt(test, status)]);
      && (Successful(after.attempts, name)
          <==> Successful(c.attempts, name) || (test == name && (status.Passed? || status.Flaky?)))
      && after.tests == c.tests && after.outcome.buildSuccess == c.outcome.buildSuccess
  {
    PutAllCons(c, NoteTestResult, [KeepAttempt(test, status)]);
    PutAllCons(Put(c, NoteTestResult), KeepAttempt(test, status), []);
    assert [NoteTestResult, KeepAttempt(test, status)] == [NoteTestResult] + [KeepAttempt(test, status)];
    AttemptTells(Put(c, NoteTestResult), test, status, name);
  }

  /** What an event's loud entries change. */
  lemma {:induction false} LoudTells(c: Content, e: BuildEvent, name: string)
    ensures var after := PutAll(c, Loud(e));
            && (Successful(after.attempts, name) <==> Successful(c.attempts, name) || ReportsSuccess(e, name))
            && (HasTest(after.tests, name) <==> HasTest(c.tests, name) || Summarizes(e, name))
            && after.outcome.buildSuccess ==
                 (if e.payload.Finished? then Some(e.payload.success) else c.outcome.buildSuccess)
  {
    var p := e.payload;
    if p.TestSummary? {
      PutAllCons(c, Loud(e)[0], []);
      HasNameSnoc(TestName, c.tests, Loud(e)[0].test, name);
    } else if p.TestAttempt? && LabelOf(e.id).Some? {
      NotedAttemptTells(c, LabelOf(e.id).value, StatusOf(p.status), name);
    } else if Loud(e) != [] {
      PutAllCons(c, Loud(e)[0], []);
    }
  }

  lemma {:induction false} TellsNext(c: Content, events: seq<BuildEvent>, e: BuildEvent)
    requires Tells(c, events)
    ensures Tells(PutAll(c, Entries(e)), events + [e])
  {
    LoudPuts(c, e);
    LoudTells(c, e, "");
    assert (events + [e])[..|events|] == events;
    forall name ensures
      var after := PutAll(c, Entries(e));
      && (Successful(after.attempts, name) <==> Succeeded(events + [e], name))
      && (HasTest(after.tests, name) <==> Summarized(events + [e], name))
    {
      LoudTells(c, e, name);
      EventsSnoc(events, e, name);
    }
  }

  lemma {:induction false} StreamTells(events: seq<BuildEvent>)
    requires !ObserveAll(events).usage.truncated
    ensures Tells(ObserveAll(events).content, events)
  {
    if events != [] {
      var init, last := events[..|events| - 1], events[|events| - 1];
      KeepAllGranted(ObserveAll(init), Entries(last));
      StreamTells(init);
      TellsNext(ObserveAll(init).content, init, last);
      InitLast(events);
    }
  }

  /** A stream with enough room recovers a test exactly when the invocation and the build
      succeeded and some test has a successful attempt and no summary. */
  lemma {:induction false} RecoversExactly(events: seq<BuildEvent>, output: Output)
    requires !ObserveAll(events).usage.truncated
    ensures Recovered(ObserveAll(events).content, output) == [] <==> NothingToRecover(events, output)
  {
    var c := ObserveAll(events).content;
    var tests := TestsByLabel(c.tests);
    StreamTells(events);
    TestsOrder();
    ByLabelLaws(TestLe, TestName, c.tests);
    if output.exitCode == Some(0) && BuildResult(events) == Some(true) {
      NoneRecoverable(c.attempts, tests);
      AllSummarized(events);
    }
  }

  lemma {:induction false} NoneRecoverable(attempts: seq<Attempts>, tests: seq<TestResult>)
    ensures RecoveredTests(attempts, tests) == []
       <==> forall name :: Successful(attempts, name) ==> HasTest(tests, name)
  {
    if RecoveredTests(attempts, tests) != [] {
      var t := RecoveredTests(attempts, tests)[0];
      RecoveredExactly(attempts, tests, t);
      assert Successful(attempts, t.name) && !HasTest(tests, t.name);
    } else {
      forall name | Successful(attempts, name) ensures HasTest(tests, name) {
        var i :| 0 <= i < |attempts| && attempts[i].name == name && SuccessfulStatus(attempts[i]).Some?;
        RecoveredExactly(attempts, tests, RecoveredTest(attempts[i]));
      }
    }
  }
}
