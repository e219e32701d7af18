/** Custom reducers. Each may patch the summary; they are applied in order of
    priority, then name, and at most one of them may override what matched. */
module Reducers {
  import opened Base
  import opened Sorting
  import opened Summary
  import Wildcard

  datatype Mode = Augment | OverrideMatching

  datatype Event = Event(
    target: Option<string>, targetKind: Option<string>, actionType: Option<string>, message: Option<string>)

  /** What a reducer sees; `input` stands for the fields that no selector looks at. */
  datatype Context = Context(command: string, events: seq<Event>, inputTruncated: bool, input: string)

  datatype Selector = Selector(
    commands: set<string>, targetLabels: seq<string>, targetKinds: set<string>, actionTypes: set<string>)
  {
    predicate HasEventConstraints() {
      targetLabels != [] || targetKinds != {} || actionTypes != {}
    }

    predicate NamesTarget(target: string) {
      exists i :: 0 <= i < |targetLabels| && Wildcard.LabelMatches(targetLabels[i], target)
    }

    predicate MatchesEvent(event: Event) {
      || (event.target.Some? && NamesTarget(event.target.value))
      || (event.targetKind.Some? && event.targetKind.value in targetKinds)
      || (event.actionType.Some? && event.actionType.value in actionTypes)
    }

    predicate Matches(context: Context) {
      && (commands == {} || context.command in commands)
      && (!HasEventConstraints() || exists i :: 0 <= i < |context.events| && MatchesEvent(context.events[i]))
    }

    predicate MatchedLabel(context: Context, target: string) {
      exists i :: 0 <= i < |context.events| &&
        MatchesEvent(context.events[i]) && context.events[i].target == Some(target)
    }

    /** The diagnostic is about something this selector owns. */
    predicate Owns(context: Context, d: Diagnostic) {
      || (d.target.Some? && (MatchedLabel(context, d.target.value) || NamesTarget(d.target.value)))
      || (d.action.Some? && d.action.value in actionTypes)
    }
  }

  datatype Patch = Patch(headline: Option<string>, diagnostics: seq<Diagnostic>, suppressBuiltin: bool) {
    predicate IsEmpty() {
      headline.None? && diagnostics == [] && !suppressBuiltin
    }
  }

  datatype Reducer = Reducer(
    name: string, priority: int, mode: Mode, selector: Selector, reduce: Context -> Result<Patch, string>)

  datatype Failure = Failure(name: string, error: string)

  datatype Collision = Collision(name: string, owner: string)

  datatype Report = Report(
    applied: seq<string>, failures: seq<Failure>, collisions: seq<Collision>, headlineApplied: bool)

  // ----------------------------------------------------------------- registration

  predicate DistinctNames(rs: seq<Reducer>) {
    forall i, j :: 0 <= i < j < |rs| ==> rs[i].name != rs[j].name
  }

  /** Higher priority first, then by name. */
  predicate Before(a: Reducer, b: Reducer) {
    a.priority > b.priority || (a.priority == b.priority && StringLe(a.name, b.name))
  }

  lemma BeforeOrder()
    ensures TotalPreorder(Before)
  {
    forall a: Reducer, b: Reducer ensures Before(a, b) || Before(b, a) {
      StringLeTotal(a.name, b.name);
    }
    forall a: Reducer, b: Reducer, c: Reducer | Before(a, b) && Before(b, c) ensures Before(a, c) {
      if a.priority == b.priority == c.priority {
        StringLeTransitive(a.name, b.name, c.name);
      }
    }
  }

  lemma DistinctNoTies(rs: seq<Reducer>)
    requires DistinctNames(rs)
    ensures NoTies(Before, rs)
  {
    forall a, b | a in rs && b in rs && Before(a, b) && Before(b, a) ensures a == b {
      StringLeTotal(a.name, b.name);
      var i :| 0 <= i < |rs| && rs[i] == a;
      var j :| 0 <= j < |rs| && rs[j] == b;
      assert i == j;
    }
  }

  /** `ReducerPipeline::new`: refuses a name used twice. */
  method NewPipeline(reducers: seq<Reducer>) returns (r: Result<seq<Reducer>, string>)
    ensures r.Ok? <==> DistinctNames(reducers)
    ensures r.Ok? ==> r.value == SortBy(Before, reducers) && multiset(r.value) == multiset(reducers)
    ensures r.Ok? ==> forall i, j :: 0 <= i < j < |r.value| ==>
      || r.value[i].priority > r.value[j].priority
      || (r.value[i].priority == r.value[j].priority && StringLe(r.value[i].name, r.value[j].name))
    ensures r.Err? ==> exists i, j :: 0 <= i < j < |reducers| && reducers[i].name == reducers[j].name == r.error
  {
    var names: set<string> := {};
    for i := 0 to |reducers|
      invariant forall name :: name in names <==> exists j :: 0 <= j < i && reducers[j].name == name
      invariant DistinctNames(reducers[..i])
    {
      if reducers[i].name in names {
        return Err(reducers[i].name);
      }
      names := names + {reducers[i].name};
    }
    assert reducers[..|reducers|] == reducers;
    BeforeOrder();
    SortByLaws(Before, reducers);
    r := Ok(SortBy(Before, reducers));
  }

  // ------------------------------------------------------------------ application

  datatype Progress = Progress(
    summary: InvocationSummary, report: Report, owner: Option<string>, headlineSet: bool)

  function Suppressed(ds: seq<Diagnostic>, selector: Selector, context: Context): seq<Diagnostic> {
    if ds == [] then []
    else
      var rest, last := Suppressed(ds[..|ds| - 1], selector, context), ds[|ds| - 1];
      if selector.Owns(context, last) then rest else rest + [last]
  }

  function Patched(st: Progress, r: Reducer, patch: Patch, context: Context): Progress {
    var overriding := r.mode.OverrideMatching?;
    var builtin :=
      if overriding && patch.suppressBuiltin then Suppressed(st.summary.diagnostics, r.selector, context)
      else st.summary.diagnostics;
    var takes := !st.headlineSet && patch.headline.Some?;
    Progress(
      st.summary.(headline := if takes then patch.headline.value else st.summary.headline,
                  diagnostics := builtin + patch.diagnostics),
      st.report.(applied := st.report.applied + [r.name],
                 headlineApplied := st.report.headlineApplied || takes),
      if overriding then Some(r.name) else st.owner,
      st.headlineSet || takes)
  }

  function Turn(st: Progress, r: Reducer, context: Context): Progress {
    if !r.selector.Matches(context) then st
    else if r.mode.OverrideMatching? && st.owner.Some? then
      st.(report := st.report.(collisions := st.report.collisions + [Collision(r.name, st.owner.value)]))
    else
      match r.reduce(context)
      case Err(error) => st.(report := st.report.(failures := st.report.failures + [Failure(r.name, error)]))
      case Ok(patch) => if patch.IsEmpty() then st else Patched(st, r, patch, context)
  }

  function Turns(st: Progress, rs: seq<Reducer>, context: Context): Progress {
    if rs == [] then st else Turn(Turns(st, rs[..|rs| - 1], context), rs[|rs| - 1], context)
  }

  const NO_REPORT := Report([], [], [], false)

  function Begin(summary: InvocationSummary): Progress {
    Progress(summary, NO_REPORT, None, false)
  }

  function End(st: Progress, context: Context): (InvocationSummary, Report) {
    if st.report.applied != [] && context.inputTruncated then
      (st.summary.(truncated := true, inspectHint := Some(InspectLog)), st.report)
    else (st.summary, st.report)
  }

  function Applied(rs: seq<Reducer>, context: Context, summary: InvocationSummary): (InvocationSummary, Report) {
    End(Turns(Begin(summary), rs, context), context)
  }

  /** `suppress_matching_diagnostics`. */
  method SuppressMatching(diagnostics: seq<Diagnostic>, selector: Selector, context: Context)
    returns (r: seq<Diagnostic>)
    ensures r == Suppressed(diagnostics, selector, context)
  {
    r := [];
    for i := 0 to |diagnostics|
      invariant r == Suppressed(diagnostics[..i], selector, context)
    {
      assert diagnostics[..i + 1][..i] == diagnostics[..i];
      if !selector.Owns(context, diagnostics[i]) {
        r := r + [diagnostics[i]];
      }
    }
    assert diagnostics[..|diagnostics|] == diagnostics;
  }

  /** `ReducerPipeline::apply`. */
  method Apply(reducers: seq<Reducer>, context: Context, baseline: InvocationSummary)
    returns (summary: InvocationSummary, report: Report)
    ensures (summary, report) == Applied(reducers, context, baseline)
  {
    report := NO_REPORT;
    summary := baseline;
    var owner: Option<string>, headlineSet := None, false;
    for i := 0 to |reducers|
      invariant Progress(summary, report, owner, headlineSet) == Turns(Begin(baseline), reducers[..i], context)
    {
      var r := reducers[i];
      assert reducers[..i + 1][..i] == reducers[..i];
      if !r.selector.Matches(context) {
        continue;
      }
      if r.mode.OverrideMatching? && owner.Some? {
        report := report.(collisions := report.collisions + [Collision(r.name, owner.value)]);
        continue;
      }
      match r.reduce(context) {
        case Err(error) => report := report.(failures := report.failures + [Failure(r.name, error)]);
        case Ok(patch) =>
          if patch.IsEmpty() {
            continue;
          }
          if r.mode.OverrideMatching? {
            owner := Some(r.name);
            if patch.suppressBuiltin {
              var kept := SuppressMatching(summary.diagnostics, r.selector, context);
              summary := summary.(diagnostics := kept);
            }
          }
          if !headlineSet && patch.headline.Some? {
            summary := summary.(headline := patch.headline.value);
            headlineSet := true;
            report := report.(headlineApplied := true);
          }
          summary := summary.(diagnostics := summary.diagnostics + patch.diagnostics);
          report := report.(applied := report.applied + [r.name]);
      }
    }
    assert reducers[..|reducers|] == reducers;
    if report.applied != [] && context.inputTruncated {
      summary := summary.(truncated := true, inspectHint := Some(InspectLog));
    }
  }
}
