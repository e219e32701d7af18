/** `BepAccumulator`: the streaming reducer as the object that is updated event by event. */
module BepStream {
  import opened Base
  import opened Sorting
  import opened Summary
  import opened Artifacts
  import opened Events
  import opened Accumulator
  import opened Keeping
  import opened Concluding
  import Finalize
  import Finishing

  lemma MadeNext(files: seq<FileView>, i: nat)
    requires i < |files|
    ensures FileArtifact(files[i]).None? ==> Made(files[..i + 1]) == Made(files[..i])
    ensures FileArtifact(files[i]).Some? ==>
              ArtifactEntries(Made(files[..i + 1]))
              == ArtifactEntries(Made(files[..i])) + [KeepArtifact(FileArtifact(files[i]).value)]
  {
    assert files[..i + 1][..i] == files[..i];
  }

  lemma {:induction false} RootNext(s: State, ids: seq<string>, i: nat)
    requires i < |ids|
    ensures KeepAll(s, RootEntries(ids[..i + 1]))
         == Keep(KeepAll(s, RootEntries(ids[..i])), KeepRoot(BoundedText(ids[i], ID_CAP)))
  {
    var e := KeepRoot(BoundedText(ids[i], ID_CAP));
    assert RootEntries(ids[..i + 1]) == RootEntries(ids[..i]) + [e];
    KeepAllSnoc(s, RootEntries(ids[..i]), e);
  }

  lemma TestSummarySteps(s: State, event: BuildEvent)
    requires event.payload.TestSummary?
    ensures var p := event.payload;
            var name, status := LabelOr(event.id, "<unknown test>"), StatusOf(p.status);
            var test := SummaryTest(name, status, p.durationMs, p.attemptCount, p.shardCount);
            var d := TestDiagnostic(name, status);
            Observe(s, event) == Keep(if d.Some? then Keep(s, KeepDiagnostic(d.value)) else s, KeepTest(test))
  {
    var es := TestEntries(event.id, event.payload);
    var test := es[|es| - 1];
    if |es| == 2 {
      assert es == [es[0]] + [test];
      KeepAllCons(s, es[0], [test]);
      KeepAllCons(Keep(s, es[0]), test, []);
    } else {
      assert es == [test] + [];
      KeepAllCons(s, test, []);
    }
  }

  lemma TestAttemptSteps(s: State, event: BuildEvent)
    requires event.payload.TestAttempt?
    ensures var noted := Keep(s, NoteTestResult);
            var name, status := LabelOf(event.id), StatusOf(event.payload.status);
            Observe(s, event) ==
            KeepAll(if name.Some? then Keep(noted, KeepAttempt(name.value, status)) else noted,
                    ArtifactEntries(Made(event.payload.outputs)))
  {
    var files, noted := ArtifactEntries(Made(event.payload.outputs)), Keep(s, NoteTestResult);
    var name, status := LabelOf(event.id), StatusOf(event.payload.status);
    if name.Some? {
      KeepAllCons(s, NoteTestResult, [KeepAttempt(name.value, status)] + files);
      KeepAllCons(noted, KeepAttempt(name.value, status), files);
    } else {
      assert [] + files == files;
      KeepAllCons(s, NoteTestResult, files);
    }
  }

  class BepAccumulator {
    var diagnostics: seq<Diagnostic>
    var targets: seq<TargetResult>
    var tests: seq<TestResult>
    var testAttempts: seq<Attempts>
    var namedSets: NamedSets<Artifact>
    var artifactRoots: seq<string>
    var directArtifacts: seq<Artifact>
    var canonicalArguments: Option<seq<string>>
    var runBepOutcome: RunOutcome
    var retainedItems: nat
    var retainedBytes: nat
    var truncated: bool

    ghost function Kept(): Content
      reads this
    {
      Content(diagnostics, targets, tests, testAttempts, namedSets, artifactRoots, directArtifacts,
              canonicalArguments, runBepOutcome)
    }

    ghost function View(): State
      reads this
    {
      State(Kept(), Usage(retainedItems, retainedBytes, truncated))
    }

    constructor ()
      ensures View() == START
    {
      diagnostics, targets, tests, testAttempts := [], [], [], [];
      namedSets, artifactRoots, directArtifacts, canonicalArguments := map[], [], [], None;
      runBepOutcome := RunOutcome(None, None, false, 0);
      retainedItems, retainedBytes, truncated := 0, 0, false;
    }

    /** `reserve`. */
    method TryReserve(items: nat, bytes: nat) returns (granted: bool)
      modifies `retainedItems, `retainedBytes, `truncated
      ensures (View().usage, granted) == Reserve(old(View().usage), items, bytes)
    {
      var nextItems, nextBytes := SatAdd(retainedItems, items), SatAdd(retainedBytes, bytes);
      if nextItems > STREAM_MAX_ITEMS || nextBytes > STREAM_MAX_RETAINED_BYTES {
        truncated := true;
        return false;
      }
      retainedItems, retainedBytes := nextItems, nextBytes;
      return true;
    }

    method PushDiagnostic(d: Diagnostic)
      modifies this
      ensures View() == Keep(old(View()), KeepDiagnostic(d))
    {
      var granted := TryReserve(1, |d.message| + OptionBytes(d.target) + OptionBytes(d.action));
      if granted {
        diagnostics := diagnostics + [d];
      }
    }

    method PushTarget(t: TargetResult)
      modifies this
      ensures View() == Keep(old(View()), KeepTarget(t))
    {
      var granted := TryReserve(1, |t.name|);
      if granted {
        targets := targets + [t];
      }
    }

    method PushTest(t: TestResult)
      modifies this
      ensures View() == Keep(old(View()), KeepTest(t))
    {
      var granted := TryReserve(1, |t.name| + OptionBytes(t.logUnavailable));
      if granted {
        tests := tests + [t];
      }
    }

    /** `push_root`. */
    method PushRoot(id: string)
      modifies this
      ensures View() == Keep(old(View()), KeepRoot(BoundedText(id, ID_CAP)))
    {
      var bounded := BoundedText(id, ID_CAP);
      var granted := TryReserve(1, |bounded|);
      if granted {
        artifactRoots := artifactRoots + [bounded];
      }
    }

    /** `push_direct_artifact`. */
    method PushDirectArtifact(a: Artifact)
      modifies this
      ensures View() == Keep(old(View()), KeepArtifact(a))
    {
      var granted := TryReserve(1, |a.name| + |a.uri|);
      if granted {
        directArtifacts := directArtifacts + [a];
      }
    }

    method PushFiles(files: seq<FileView>)
      modifies this
      ensures View() == KeepAll(old(View()), ArtifactEntries(Made(files)))
    {
      for i := 0 to |files|
        invariant View() == KeepAll(old(View()), ArtifactEntries(Made(files[..i])))
      {
        MadeNext(files, i);
        var artifact := FileArtifact(files[i]);
        if artifact.Some? {
          KeepAllSnoc(old(View()), ArtifactEntries(Made(files[..i])), KeepArtifact(artifact.value));
          PushDirectArtifact(artifact.value);
        }
      }
      assert files[..|files|] == files;
    }

    method PushRoots(ids: seq<string>)
      modifies this
      ensures View() == KeepAll(old(View()), RootEntries(ids))
    {
      for i := 0 to |ids|
        invariant View() == KeepAll(old(View()), RootEntries(ids[..i]))
      {
        RootNext(old(View()), ids, i);
        PushRoot(ids[i]);
      }
      assert ids[..|ids|] == ids;
    }

    method PushGroups(groups: seq<OutputGroup>)
      modifies this
      ensures View() == KeepAll(old(View()), GroupEntries(groups))
    {
      for i := 0 to |groups|
        invariant View() == KeepAll(old(View()), GroupEntries(groups[..i]))
      {
        var group := groups[i];
        assert groups[..i + 1][..i] == groups[..i];
        KeepAllJoin(View(), RootEntries(group.fileSets), ArtifactEntries(Made(group.inlineFiles)));
        KeepAllJoin(old(View()), GroupEntries(groups[..i]),
                    RootEntries(group.fileSets) + ArtifactEntries(Made(group.inlineFiles)));
        PushRoots(group.fileSets);
        PushFiles(group.inlineFiles);
      }
      assert groups[..|groups|] == groups;
    }

    method CountAttempt(name: string, status: TestStatus)
      modifies this
      ensures View() == Keep(old(View()), KeepAttempt(name, status))
    {
      var at := FindAttempt(testAttempts, name);
      if at.Some? {
        testAttempts := testAttempts[at.value := ObserveAttempt(testAttempts[at.value], status)];
      } else {
        var granted := TryReserve(1, |name|);
        if granted {
          var attempts := ObserveAttempt(Attempts(name, false, false, false, 0), status);
          testAttempts := Insert(AttemptsLe, testAttempts, attempts);
        }
      }
    }

    method PushSet(id: string, named: NamedSet<Artifact>)
      modifies this
      ensures View() == Keep(old(View()), KeepSet(id, named))
    {
      var granted := TryReserve(1 + |named.files| + |named.children|,
                                |id| + ArtifactBytes(named.files) + TextBytes(named.children));
      if granted {
        namedSets := namedSets[id := named];
      }
    }

    method TakeArguments(arguments: seq<string>)
      modifies this
      ensures View() == Keep(old(View()), KeepArguments(arguments))
    {
      if canonicalArguments.None? {
        var granted := TryReserve(|arguments|, TextBytes(arguments));
        if granted {
          canonicalArguments := Some(arguments);
        }
      }
    }

    method ObserveTestSummary(event: BuildEvent)
      requires event.payload.TestSummary?
      modifies this
      ensures View() == Observe(old(View()), event)
    {
      TestSummarySteps(View(), event);
      var p := event.payload;
      var name, status := LabelOr(event.id, "<unknown test>"), StatusOf(p.status);
      var d := TestDiagnostic(name, status);
      if d.Some? {
        PushDiagnostic(d.value);
      }
      PushTest(SummaryTest(name, status, p.durationMs, p.attemptCount, p.shardCount));
    }

    method ObserveTestAttempt(event: BuildEvent)
      requires event.payload.TestAttempt?
      modifies this
      ensures View() == Observe(old(View()), event)
    {
      TestAttemptSteps(View(), event);
      runBepOutcome := runBepOutcome.(testSeen := true);
      var name := LabelOf(event.id);
      if name.Some? {
        CountAttempt(name.value, StatusOf(event.payload.status));
      }
      PushFiles(event.payload.outputs);
    }

    method ObserveCompleted(event: BuildEvent)
      requires event.payload.Completed?
      modifies this
      ensures View() == Observe(old(View()), event)
    {
      var p := event.payload;
      var target := TargetResult(LabelOr(event.id, "<unknown target>"), p.success);
      ghost var groups, files := GroupEntries(p.groups), ArtifactEntries(Made(p.importantOutput + p.directoryOutput));
      KeepAllCons(View(), KeepTarget(target), groups + files);
      PushTarget(target);
      KeepAllJoin(View(), groups, files);
      PushGroups(p.groups);
      PushFiles(p.importantOutput + p.directoryOutput);
    }

    method ObserveAction(event: BuildEvent)
      requires event.payload.ActionExecuted? && !event.payload.success
      modifies this
      ensures View() == Observe(old(View()), event)
    {
      var p := event.payload;
      var d := ActionDiagnostic(event.id, p.actionType, p.exitCode, p.target);
      var outputs := if p.output.Some? then [p.output.value] else [];
      KeepAllCons(View(), KeepDiagnostic(d), ArtifactEntries(Made(outputs)));
      PushDiagnostic(d);
      PushFiles(outputs);
    }

    /** `observe_view`. */
    method ObserveEvent(event: BuildEvent)
      modifies this
      ensures View() == Observe(old(View()), event)
    {
      match event.payload
      case Aborted(reason, description) =>
        var d := AbortDiagnostic(event.id, reason, BoundedText(description, MESSAGE_CAP));
        KeepAllCons(View(), KeepDiagnostic(d), []);
        PushDiagnostic(d);
      case ActionExecuted(success, _, _, _, _) =>
        if !success {
          ObserveAction(event);
        }
      case Completed(_, _, _, _) => ObserveCompleted(event);
      case TestSummary(_, _, _, _) => ObserveTestSummary(event);
      case TestAttempt(_, _) => ObserveTestAttempt(event);
      case NamedSetOfFiles(files, fileSets) =>
        if event.id.Some? && event.id.value.NamedSetId? {
          var id := BoundedText(event.id.value.id, ID_CAP);
          var named := NamedSet(Made(files), BoundedTexts(fileSets, ID_CAP));
          KeepAllCons(View(), KeepSet(id, named), []);
          PushSet(id, named);
        }
      case OptionsParsed(startup, cmdLine) =>
        var arguments := BoundedTexts(startup + cmdLine, MESSAGE_CAP);
        KeepAllCons(View(), KeepArguments(arguments), []);
        TakeArguments(arguments);
      case Finished(success) =>
        KeepAllCons(View(), NoteFinished(success), []);
        runBepOutcome := runBepOutcome.(buildSuccess := Some(success));
      case ExecRequest(should) =>
        KeepAllCons(View(), NoteExecRequest(should), []);
        runBepOutcome := runBepOutcome.(shouldExecute := Some(should));
      case OtherPayload =>
    }

    /** The tests of `finish`: sorted, one a label, with the recovered ones. */
    method FinishTests(output: Output) returns (sorted: seq<TestResult>, outcome: RunOutcome)
      ensures sorted == Finishing.FinishedTests(Kept(), output)
      ensures outcome == runBepOutcome.(
        recovered := runBepOutcome.recovered + |Finishing.Recovered(Kept(), output)|)
    {
      outcome := runBepOutcome;
      sorted := Deduped(TestName, SortBy(TestLe, tests));
      if output.exitCode == Some(0) && outcome.buildSuccess == Some(true) {
        var recovered := Finishing.RecoverTests(testAttempts, sorted);
        outcome := outcome.(recovered := outcome.recovered + |recovered|);
        sorted := SortBy(TestLe, sorted + recovered);
      } else {
        Finishing.NothingRecovered(Kept(), output);
      }
    }

    /** The summary, given the tests it lists. */
    method Summarized(parse: Parser, output: Output, budget: Budget, sortedTests: seq<TestResult>)
      returns (summary: InvocationSummary)
      requires sortedTests == Finishing.FinishedTests(Kept(), output)
      ensures summary == Finishing.StreamSummary(parse, View(), output, budget)
    {
      var ds := diagnostics;
      if output.exitCode != Some(0) {
        ds := ds + parse(output.stderr);
        ds := ds + parse(output.stdout);
      }
      var sortedTargets := Deduped(TargetName, SortBy(TargetLe, targets));
      var testCounts := CountAllTests(sortedTests);
      summary := InvocationSummary(
        output.exitCode == Some(0), BaseHeadline(output.exitCode, output.elapsedMs), sortedTargets,
        CountTargets(sortedTargets), ds, sortedTests, testCounts, output.elapsedMs, truncated,
        if truncated then Some(InspectDiagnostics) else None);
      summary := Finalize.FinalizeDiagnostics(summary, budget);
    }

    /** `finish`. */
    method Finish(parse: Parser, output: Output, budget: Budget) returns (r: Finishing.StreamOutput)
      ensures r == Finishing.Finished(parse, View(), output, budget)
    {
      var sortedTests, outcome := FinishTests(output);
      var artifacts := ResolveArtifacts(namedSets, artifactRoots, directArtifacts);
      var summary := Summarized(parse, output, budget, sortedTests);
      r := Finishing.StreamOutput(summary, artifacts, canonicalArguments, outcome);
    }
  }
}
