/** Streaming refines batch: unless it ran out of room, cut a long text or recovered a
    test, observing events one at a time gives what the three batch passes give. */
module Refinement {
  import opened Base
  import opened Sorting
  import opened Summary
  import opened Artifacts
  import opened Events
  import opened Accumulator
  import opened Keeping
  import opened Concluding
  import opened Finishing
  import opened Recovery
  import opened Batch

  // --------------------------------------------------- what is put in, all at once

  lemma {:induction false} PutArtifacts(c: Content, artifacts: seq<Artifact>)
    ensures PutAll(c, ArtifactEntries(artifacts)) == c.(direct := c.direct + artifacts)
  {
    var es := ArtifactEntries(artifacts);
    if artifacts == [] {
      assert c.direct + [] == c.direct;
    } else {
      var init, last := artifacts[..|artifacts| - 1], artifacts[|artifacts| - 1];
      PutArtifacts(c, init);
      assert es[..|es| - 1] == ArtifactEntries(init);
      assert artifacts == init + [last];
    }
  }

  predicate AllWithin(texts: seq<string>, cap: nat) {
    forall i :: 0 <= i < |texts| ==> |texts[i]| <= cap
  }

  lemma {:induction false} PutRoots(c: Content, ids: seq<string>)
    requires AllWithin(ids, ID_CAP)
    ensures PutAll(c, RootEntries(ids)) == c.(roots := c.roots + ids)
  {
    var es := RootEntries(ids);
    if ids == [] {
      assert c.roots + [] == c.roots;
    } else {
      var init, last := ids[..|ids| - 1], ids[|ids| - 1];
      PutRoots(c, init);
      assert es[..|es| - 1] == RootEntries(init);
      assert ids == init + [last];
    }
  }

  lemma {:induction false} MadeJoin(a: seq<FileView>, b: seq<FileView>)
    ensures Made(a + b) == Made(a) + Made(b)
    decreases |b|
  {
    if b == [] {
      assert a + b == a;
    } else {
      assert (a + b)[..|a + b| - 1] == a + b[..|b| - 1];
      MadeJoin(a, b[..|b| - 1]);
    }
  }

  predicate GroupsWithin(groups: seq<OutputGroup>) {
    forall i :: 0 <= i < |groups| ==> AllWithin(groups[i].fileSets, 4 * 1024)
  }

  lemma {:induction false} PutGroups(c: Content, groups: seq<OutputGroup>)
    requires GroupsWithin(groups)
    ensures PutAll(c, GroupEntries(groups))
         == c.(roots := c.roots + RootsOf(groups), direct := c.direct + Made(FilesOf(groups)))
  {
    if groups == [] {
      assert c.roots + [] == c.roots && c.direct + [] == c.direct;
    } else {
      var init, last := groups[..|groups| - 1], groups[|groups| - 1];
      PutGroups(c, init);
      var mid := PutAll(c, GroupEntries(init));
      PutAllJoin(c, GroupEntries(init), RootEntries(last.fileSets) + ArtifactEntries(Made(last.inlineFiles)));
      PutAllJoin(mid, RootEntries(last.fileSets), ArtifactEntries(Made(last.inlineFiles)));
      PutRoots(mid, last.fileSets);
      PutArtifacts(PutAll(mid, RootEntries(last.fileSets)), Made(last.inlineFiles));
      MadeJoin(FilesOf(init), last.inlineFiles);
      Assoc(c.roots, RootsOf(init), last.fileSets);
      Assoc(c.direct, Made(FilesOf(init)), Made(last.inlineFiles));
    }
  }

  // ---------------------------------------------------------------- event by event

  /** No text of the event is longer than the stream keeps: 64 KiB for a message or an
      argument, 4 KiB for a set id. */
  predicate WithinCaps(event: BuildEvent) {
    var p := event.payload;
    && (p.Aborted? ==> |p.description| <= 64 * 1024)
    && (p.Completed? ==> GroupsWithin(p.groups))
    && (p.NamedSetOfFiles? && event.id.Some? && event.id.value.NamedSetId? ==>
          |event.id.value.id| <= 4 * 1024 && AllWithin(p.fileSets, 4 * 1024))
    && (p.OptionsParsed? ==> AllWithin(p.startupOptions + p.cmdLine, 64 * 1024))
  }

  /** The sets with their files made into artifacts. */
  function MadeSets(sets: NamedSets<FileView>): NamedSets<Artifact> {
    map id | id in sets :: NamedSet(Made(sets[id].files), sets[id].children)
  }

  predicate Agrees(c: Content, b: Collected) {
    && c.diagnostics == b.diagnostics && c.targets == b.targets && c.tests == b.tests
    && c.roots == b.roots && c.direct == Made(b.direct) && c.namedSets == MadeSets(b.sets)
    && c.arguments == b.arguments
  }

  /** An event that holds nothing of a kind leaves that kind alone. */
  lemma SeeKeeps(b: Collected, event: BuildEvent)
    ensures DiagnosticsIn(event) == [] ==> See(b, event).diagnostics == b.diagnostics
    ensures TargetsIn(event) == [] ==> See(b, event).targets == b.targets
    ensures TestsIn(event) == [] ==> See(b, event).tests == b.tests
    ensures RootsIn(event) == [] ==> See(b, event).roots == b.roots
    ensures FilesIn(event) == [] ==> See(b, event).direct == b.direct
  {
  }

  /** Agreement after a diagnostic and some files. */
  lemma {:induction false} DiagnosedAgrees(
    c: Content, b: Collected, event: BuildEvent, d: Diagnostic, files: seq<FileView>)
    requires Agrees(c, b) && DiagnosticsIn(event) == [d] && FilesIn(event) == files
    requires TargetsIn(event) == [] && TestsIn(event) == [] && RootsIn(event) == [] && ArgumentsIn(event).None?
    requires !event.payload.NamedSetOfFiles?
    ensures Agrees(PutAll(c, [KeepDiagnostic(d)] + ArtifactEntries(Made(files))), See(b, event))
  {
    SeeKeeps(b, event);
    PutAllCons(c, KeepDiagnostic(d), ArtifactEntries(Made(files)));
    PutArtifacts(Put(c, KeepDiagnostic(d)), Made(files));
    MadeJoin(b.direct, files);
  }

  /** What a completed target puts in. */
  lemma {:induction false} PutCompleted(c: Content, e: Entry, groups: seq<OutputGroup>, files: seq<FileView>)
    requires e.KeepTarget? && GroupsWithin(groups)
    ensures PutAll(c, [e] + (GroupEntries(groups) + ArtifactEntries(Made(files))))
         == c.(targets := c.targets + [e.target], roots := c.roots + RootsOf(groups),
               direct := c.direct + Made(FilesOf(groups) + files))
  {
    var c1 := Put(c, e);
    PutAllCons(c, e, GroupEntries(groups) + ArtifactEntries(Made(files)));
    PutAllJoin(c1, GroupEntries(groups), ArtifactEntries(Made(files)));
    PutGroups(c1, groups);
    PutArtifacts(PutAll(c1, GroupEntries(groups)), Made(files));
    MadeJoin(FilesOf(groups), files);
    Assoc(c.direct, Made(FilesOf(groups)), Made(files));
  }

  lemma {:induction false} CompletedAgrees(c: Content, b: Collected, event: BuildEvent)
    requires Agrees(c, b) && WithinCaps(event) && event.payload.Completed?
    ensures Agrees(PutAll(c, Entries(event)), See(b, event))
  {
    var p := event.payload;
    SeeKeeps(b, event);
    PutCompleted(c, KeepTarget(TargetsIn(event)[0]), p.groups, p.importantOutput + p.directoryOutput);
    MadeJoin(b.direct, FilesIn(event));
  }

  lemma {:induction false} ActionAgrees(c: Content, b: Collected, event: BuildEvent)
    requires Agrees(c, b) && event.payload.ActionExecuted?
    ensures Agrees(PutAll(c, Entries(event)), See(b, event))
  {
    SeeKeeps(b, event);
    var p := event.payload;
    if !p.success {
      DiagnosedAgrees(c, b, event, DiagnosticsIn(event)[0], FilesIn(event));
    }
  }

  lemma {:induction false} TestSummaryAgrees(c: Content, b: Collected, event: BuildEvent)
    requires Agrees(c, b) && event.payload.TestSummary?
    ensures Agrees(PutAll(c, Entries(event)), See(b, event))
  {
    SeeKeeps(b, event);
    var ds, test := DiagnosticsIn(event), TestsIn(event)[0];
    if ds == [] {
      assert Entries(event) == [KeepTest(test)] + [];
      PutAllCons(c, KeepTest(test), []);
    } else {
      assert Entries(event) == [KeepDiagnostic(ds[0])] + [KeepTest(test)];
      PutAllCons(c, KeepDiagnostic(ds[0]), [KeepTest(test)]);
      PutAllCons(Put(c, KeepDiagnostic(ds[0])), KeepTest(test), []);
    }
  }

  lemma {:induction false} FilesAgree(c: Content, b: Collected, event: BuildEvent)
    requires Agrees(c, b) && event.payload.TestAttempt?
    ensures Agrees(PutAll(c, ArtifactEntries(Made(event.payload.outputs))), See(b, event))
  {
    SeeKeeps(b, event);
    PutArtifacts(c, Made(event.payload.outputs));
    MadeJoin(b.direct, event.payload.outputs);
  }

  lemma AttemptAgrees(c: Content, b: Collected, name: string, status: TestStatus)
    requires Agrees(c, b)
    ensures Agrees(Put(c, KeepAttempt(name, status)), b)
  {
  }

  lemma {:induction false} TestAttemptAgrees(c: Content, b: Collected, event: BuildEvent)
    requires Agrees(c, b) && event.payload.TestAttempt?
    ensures Agrees(PutAll(c, Entries(event)), See(b, event))
  {
    var files, noted := ArtifactEntries(Made(event.payload.outputs)), Put(c, NoteTestResult);
    var name, status := LabelOf(event.id), StatusOf(event.payload.status);
    if name.Some? {
      PutAllCons(c, NoteTestResult, [KeepAttempt(name.value, status)] + files);
      PutAllCons(noted, KeepAttempt(name.value, status), files);
      AttemptAgrees(noted, b, name.value, status);
      FilesAgree(Put(noted, KeepAttempt(name.value, status)), b, event);
    } else {
      assert [] + files == files;
      PutAllCons(c, NoteTestResult, files);
      FilesAgree(noted, b, event);
    }
  }

  lemma {:induction false} MadeSetsPut(sets: NamedSets<FileView>, id: string, named: NamedSet<FileView>)
    ensures MadeSets(sets[id := named]) == MadeSets(sets)[id := NamedSet(Made(named.files), named.children)]
  {
  }

  lemma {:induction false} NamedSetAgrees(c: Content, b: Collected, event: BuildEvent)
    requires Agrees(c, b) && WithinCaps(event) && event.payload.NamedSetOfFiles?
    ensures Agrees(PutAll(c, Entries(event)), See(b, event))
  {
    SeeKeeps(b, event);
    var p := event.payload;
    if event.id.Some? && event.id.value.NamedSetId? {
      assert BoundedTexts(p.fileSets, ID_CAP) == p.fileSets;
      var e := KeepSet(event.id.value.id, NamedSet(Made(p.files), p.fileSets));
      PutAllCons(c, e, []);
      assert [e] + [] == [e];
      MadeSetsPut(b.sets, event.id.value.id, NamedSet(p.files, p.fileSets));
    }
  }

  lemma {:induction false} OneEntryAgrees(c: Content, b: Collected, event: BuildEvent, e: Entry)
    requires Agrees(c, b) && WithinCaps(event) && Entries(event) == [e]
    requires event.payload.OptionsParsed? || event.payload.Finished? || event.payload.ExecRequest?
    ensures Agrees(PutAll(c, Entries(event)), See(b, event))
  {
    var p := event.payload;
    SeeKeeps(b, event);
    PutAllCons(c, e, []);
    assert [e] + [] == [e];
    if p.OptionsParsed? {
      assert BoundedTexts(p.startupOptions + p.cmdLine, MESSAGE_CAP) == p.startupOptions + p.cmdLine;
    }
  }

  /** One event keeps the two reducers in step. */
  lemma {:induction false} EventAgrees(c: Content, b: Collected, event: BuildEvent)
    requires Agrees(c, b) && WithinCaps(event)
    ensures Agrees(PutAll(c, Entries(event)), See(b, event))
  {
    match event.payload
    case Completed(_, _, _, _) => CompletedAgrees(c, b, event);
    case ActionExecuted(_, _, _, _, _) => ActionAgrees(c, b, event);
    case TestSummary(_, _, _, _) => TestSummaryAgrees(c, b, event);
    case TestAttempt(_, _) => TestAttemptAgrees(c, b, event);
    case NamedSetOfFiles(_, _) => NamedSetAgrees(c, b, event);
    case Aborted(_, description) =>
      DiagnosedAgrees(c, b, event, DiagnosticsIn(event)[0], []);
      assert Entries(event) + [] == Entries(event);
    case OtherPayload => SeeKeeps(b, event);
    case _ => OneEntryAgrees(c, b, event, Entries(event)[0]);
  }

  lemma {:induction false} StreamAgrees(events: seq<BuildEvent>)
    requires !ObserveAll(events).usage.truncated
    requires forall i :: 0 <= i < |events| ==> WithinCaps(events[i])
    ensures Agrees(ObserveAll(events).content, SeeAll(events))
  {
    if events == [] {
      assert MadeSets(map[]) == map[];
    } else {
      var init, last := events[..|events| - 1], events[|events| - 1];
      KeepAllGranted(ObserveAll(init), Entries(last));
      StreamAgrees(init);
      EventAgrees(ObserveAll(init).content, SeeAll(init), last);
    }
  }

  // -------------------------------------------------------------------- artifacts

  /** The search looks at ids and children only. */
  lemma {:induction false} VisitsMade(sets: NamedSets<FileView>, pending: seq<string>, visited: set<string>)
    ensures Visits(MadeSets(sets), pending, visited) == Visits(sets, pending, visited)
    decreases Unvisited(sets, visited), |pending|
  {
    if pending != [] {
      var rest, id := pending[..|pending| - 1], pending[|pending| - 1];
      VisitShrinks(sets, visited, id);
      if id in visited {
        VisitsMade(sets, rest, visited);
      } else if id in sets {
        VisitsMade(sets, rest + sets[id].children, visited + {id});
      } else {
        VisitsMade(sets, rest, visited + {id});
      }
    }
  }

  lemma {:induction false} FilesMade(sets: NamedSets<FileView>, ids: seq<string>)
    requires forall id :: id in ids ==> id in sets
    ensures Files(MadeSets(sets), ids) == Made(Files(sets, ids))
  {
    if ids != [] {
      FilesMade(sets, ids[1..]);
      MadeJoin(sets[ids[0]].files, Files(sets, ids[1..]));
    }
  }

  lemma {:induction false} ArtifactsAgree(c: Content, events: seq<BuildEvent>)
    requires Agrees(c, SeeAll(events))
    ensures Resolved(c.namedSets, c.roots, c.direct) == BatchArtifacts(events)
  {
    var b := SeeAll(events);
    VisitsReach(b.sets, b.roots, {});
    VisitsMade(b.sets, b.roots, {});
    FilesMade(b.sets, Visits(b.sets, b.roots, {}));
    MadeJoin(b.direct, Files(b.sets, Visits(b.sets, b.roots, {})));
  }

  // ------------------------------------------------------------------- the theorem

  /** If nothing was refused and no text was too long, the stream gives the same
      artifacts in the same order and the same canonical arguments as the batch, and
      the same summary exactly when the events leave no test to recover. */
  lemma {:induction false} StreamingRefinesBatch(
    parse: Parser, events: seq<BuildEvent>, output: Output, budget: Budget)
    requires !ObserveAll(events).usage.truncated
    requires forall i :: 0 <= i < |events| ==> WithinCaps(events[i])
    ensures var r := Finishing.Finished(parse, ObserveAll(events), output, budget);
            && r.artifacts == BatchArtifacts(events)
            && r.arguments == SeeAll(events).arguments
            && (r.summary == BatchSummary(parse, events, output, budget) <==> NothingToRecover(events, output))
  {
    var c := ObserveAll(events).content;
    StreamAgrees(events);
    ArtifactsAgree(c, events);
    RecoversExactly(events, output);
    if NothingToRecover(events, output) {
      NothingRecovered(c, output);
    } else {
      RecoveryShows(c, output);
    }
  }

  const PASSING_ATTEMPT := BuildEvent(Some(Labelled("t")), TestAttempt(1, []))
  const BUILD_SUCCEEDED := BuildEvent(None, Payload.Finished(true))

  /** A successful build with one passing attempt and no test summary: the stream reports
      a test that the batch does not. */
  lemma {:induction false} RecoveredTestDiffers(parse: Parser, output: Output, budget: Budget)
    requires output.exitCode == Some(0)
    ensures var events := [PASSING_ATTEMPT, BUILD_SUCCEEDED];
            && !ObserveAll(events).usage.truncated
            && Finishing.Finished(parse, ObserveAll(events), output, budget).summary
               != BatchSummary(parse, events, output, budget)
  {
    var events := [PASSING_ATTEMPT, BUILD_SUCCEEDED];
    SampleObserved();
    assert IsSuccess(events[0]) && !Summarized(events, "t");
    StreamingRefinesBatch(parse, events, output, budget);
  }

  lemma {:induction false} SampleObserved()
    ensures !ObserveAll([PASSING_ATTEMPT, BUILD_SUCCEEDED]).usage.truncated
  {
    SampleEntries();
    ObserveTwo(PASSING_ATTEMPT, BUILD_SUCCEEDED);
    var attempt := [NoteTestResult, KeepAttempt("t", Passed)];
    FewKeptOpen(START, attempt);
    FewKeptOpen(KeepAll(START, attempt), [NoteFinished(true)]);
  }

  lemma {:induction false} SampleEntries()
    ensures Entries(PASSING_ATTEMPT) == [NoteTestResult, KeepAttempt("t", Passed)]
    ensures Entries(BUILD_SUCCEEDED) == [NoteFinished(true)]
  {
    assert ArtifactEntries(Made([])) == [];
  }

  lemma {:induction false} ObserveTwo(a: BuildEvent, b: BuildEvent)
    ensures ObserveAll([a, b]) == KeepAll(KeepAll(START, Entries(a)), Entries(b))
  {
    assert [a][..0] == [];
    assert ObserveAll([a]) == Observe(START, a);
    assert [a, b][..1] == [a];
  }

  /** A few short entries leave room. */
  lemma {:induction false} FewKeptOpen(s: State, es: seq<Entry>)
    requires !s.usage.truncated && s.usage.items + |es| <= 1_000 && s.usage.bytes + 10 * |es| <= 10_000
    requires forall i :: 0 <= i < |es| ==>
               es[i].NoteTestResult? || es[i].NoteFinished? || (es[i].KeepAttempt? && |es[i].name| <= 10)
    ensures var u := KeepAll(s, es).usage;
            !u.truncated && u.items <= s.usage.items + |es| && u.bytes <= s.usage.bytes + 10 * |es|
  {
    if es != [] {
      FewKeptOpen(s, es[..|es| - 1]);
    }
  }
}
