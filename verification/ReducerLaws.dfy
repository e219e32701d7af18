/** What applying custom reducers amounts to, whatever order they were registered in. */
module ReducerLaws {
  import opened Base
  import opened Sorting
  import opened Summary
  import opened Reducers
  import Wildcard

  // ----------------------------------------------------------- order independence

  lemma TwicePresent<T>(xs: seq<T>, i: nat, j: nat)
    requires i < j < |xs| && xs[i] == xs[j]
    ensures multiset(xs)[xs[i]] >= 2
  {
    assert xs == xs[..i] + [xs[i]] + xs[i + 1..];
    assert xs[j] in xs[i + 1..];
  }

  lemma TwiceFound<T>(xs: seq<T>, x: T) returns (i: nat, j: nat)
    requires multiset(xs)[x] >= 2
    ensures i < j < |xs| && xs[i] == xs[j] == x
  {
    i :| i < |xs| && xs[i] == x;
    assert xs == xs[..i] + [xs[i]] + xs[i + 1..];
    assert multiset(xs) == multiset(xs[..i]) + multiset{x} + multiset(xs[i + 1..]);
    if x in xs[i + 1..] {
      var k :| 0 <= k < |xs[i + 1..]| && xs[i + 1..][k] == x;
      j := i + 1 + k;
    } else {
      var k :| 0 <= k < |xs[..i]| && xs[..i][k] == x;
      i, j := k, i;
    }
  }

  lemma NamesPermuted(xs: seq<Reducer>, ys: seq<Reducer>)
    requires DistinctNames(xs) && multiset(xs) == multiset(ys)
    ensures DistinctNames(ys)
  {
    forall i, j | 0 <= i < j < |ys| ensures ys[i].name != ys[j].name {
      if ys[i] == ys[j] {
        TwicePresent(ys, i, j);
        var p, q := TwiceFound(xs, ys[i]);
      } else {
        assert ys[i] in multiset(xs) && ys[j] in multiset(xs);
        var p :| 0 <= p < |xs| && xs[p] == ys[i];
        var q :| 0 <= q < |xs| && xs[q] == ys[j];
        assert p < q || q < p;
      }
    }
  }

  /** Uniquely named reducers give the same summary and the same report in whatever
      order they were registered. */
  lemma {:induction false} OrderIndependent(
    xs: seq<Reducer>, ys: seq<Reducer>, context: Context, summary: InvocationSummary)
    requires DistinctNames(xs) && multiset(xs) == multiset(ys)
    ensures DistinctNames(ys)
    ensures Applied(SortBy(Before, xs), context, summary) == Applied(SortBy(Before, ys), context, summary)
  {
    NamesPermuted(xs, ys);
    DistinctNoTies(xs);
    BeforeOrder();
    SortByPermuted(Before, xs, ys);
  }

  // ---------------------------------------------------------------- contributions

  datatype Contribution = Contribution(reducer: Reducer, patch: Patch)

  /** The reducer is selected and asks for something. */
  predicate Contributes(r: Reducer, context: Context) {
    && r.selector.Matches(context) && r.reduce(context).Ok?
    && var patch := r.reduce(context).value;
       patch.headline.Some? || patch.diagnostics != [] || patch.suppressBuiltin
  }

  predicate Overrides(c: Contribution) {
    c.reducer.mode.OverrideMatching?
  }

  predicate HasOverride(cs: seq<Contribution>) {
    exists i :: 0 <= i < |cs| && Overrides(cs[i])
  }

  /** The patches that count: every one that is not empty, but only the first of
      those that override. */
  function Chosen(rs: seq<Reducer>, context: Context): seq<Contribution> {
    if rs == [] then []
    else
      var before, last := Chosen(rs[..|rs| - 1], context), rs[|rs| - 1];
      if Contributes(last, context) && (last.mode.Augment? || !HasOverride(before)) then
        before + [Contribution(last, last.reduce(context).value)]
      else before
  }

  function Names(cs: seq<Contribution>): seq<string> {
    seq(|cs|, i requires 0 <= i < |cs| => cs[i].reducer.name)
  }

  function Evidence(cs: seq<Contribution>): seq<Diagnostic> {
    if cs == [] then [] else Evidence(cs[..|cs| - 1]) + cs[|cs| - 1].patch.diagnostics
  }

  /** The headline of the first patch that has one. */
  function Headline(cs: seq<Contribution>): Option<string> {
    if cs == [] then None
    else
      var before := Headline(cs[..|cs| - 1]);
      if before.Some? then before else cs[|cs| - 1].patch.headline
  }

  /** What becomes of the diagnostics: the overriding patch, if it asks for it, removes
      those it owns from what was there before it; everything else is added. */
  function Diagnosed(base: seq<Diagnostic>, cs: seq<Contribution>, context: Context): seq<Diagnostic> {
    if cs == [] then base
    else
      var before, last := Diagnosed(base, cs[..|cs| - 1], context), cs[|cs| - 1];
      (if Overrides(last) && last.patch.suppressBuiltin then Suppressed(before, last.reducer.selector, context)
       else before) + last.patch.diagnostics
  }

  function OwnerOf(cs: seq<Contribution>): Option<string> {
    if cs == [] then None
    else if Overrides(cs[|cs| - 1]) then Some(cs[|cs| - 1].reducer.name)
    else OwnerOf(cs[..|cs| - 1])
  }

  lemma {:induction false} OwnerExists(cs: seq<Contribution>)
    ensures OwnerOf(cs).Some? <==> HasOverride(cs)
  {
    if cs != [] {
      OwnerExists(cs[..|cs| - 1]);
      assert forall i :: 0 <= i < |cs| - 1 ==> cs[..|cs| - 1][i] == cs[i];
      assert cs[|cs| - 1] == cs[|cs| - 1];
    }
  }

  /** The loop's state after some reducers, told by their contributions. */
  predicate Told(st: Progress, base: InvocationSummary, cs: seq<Contribution>, context: Context) {
    && st.owner == OwnerOf(cs)
    && st.headlineSet == st.report.headlineApplied == Headline(cs).Some?
    && st.report.applied == Names(cs)
    && st.summary == base.(headline := if Headline(cs).Some? then Headline(cs).value else base.headline,
                           diagnostics := Diagnosed(base.diagnostics, cs, context))
  }

  lemma ToldNext(st: Progress, base: InvocationSummary, cs: seq<Contribution>, context: Context, c: Contribution)
    requires Told(st, base, cs, context)
    ensures Told(Patched(st, c.reducer, c.patch, context), base, cs + [c], context)
  {
    assert (cs + [c])[..|cs|] == cs;
  }

  lemma {:induction false} TurnsTold(base: InvocationSummary, rs: seq<Reducer>, context: Context)
    ensures Told(Turns(Begin(base), rs, context), base, Chosen(rs, context), context)
  {
    if rs != [] {
      var init, last := rs[..|rs| - 1], rs[|rs| - 1];
      TurnsTold(base, init, context);
      var cs := Chosen(init, context);
      OwnerExists(cs);
      if Contributes(last, context) && (last.mode.Augment? || !HasOverride(cs)) {
        ToldNext(Turns(Begin(base), init, context), base, cs, context,
                 Contribution(last, last.reduce(context).value));
      }
    }
  }

  /** Applying reducers is determined by the patches that count. */
  lemma {:induction false} AppliedMeaning(rs: seq<Reducer>, context: Context, base: InvocationSummary)
    ensures var (summary, report) := Applied(rs, context, base);
            var cs := Chosen(rs, context);
            && report.applied == Names(cs)
            && report.headlineApplied == Headline(cs).Some?
            && summary.headline == (if Headline(cs).Some? then Headline(cs).value else base.headline)
            && summary.diagnostics == Diagnosed(base.diagnostics, cs, context)
            && summary.truncated == (base.truncated || (cs != [] && context.inputTruncated))
            && summary.inspectHint ==
               (if cs != [] && context.inputTruncated then Some(InspectLog) else base.inspectHint)
            && summary == base.(headline := summary.headline, diagnostics := summary.diagnostics,
                                truncated := summary.truncated, inspectHint := summary.inspectHint)
  {
    TurnsTold(base, rs, context);
    assert |Names(Chosen(rs, context))| == |Chosen(rs, context)|;
  }

  /** Overriding reducers that come after the owner, and the owner they collide with. */
  function Collided(rs: seq<Reducer>, context: Context): seq<Collision> {
    if rs == [] then []
    else
      var init, last := rs[..|rs| - 1], rs[|rs| - 1];
      var owner := OwnerOf(Chosen(init, context));
      if last.selector.Matches(context) && last.mode.OverrideMatching? && owner.Some? then
        Collided(init, context) + [Collision(last.name, owner.value)]
      else Collided(init, context)
  }

  /** Matching reducers that failed; those that collide are not asked. */
  function Refused(rs: seq<Reducer>, context: Context): seq<Failure> {
    if rs == [] then []
    else
      var init, last := rs[..|rs| - 1], rs[|rs| - 1];
      if && last.selector.Matches(context) && last.reduce(context).Err?
         && (last.mode.Augment? || !HasOverride(Chosen(init, context))) then
        Refused(init, context) + [Failure(last.name, last.reduce(context).error)]
      else Refused(init, context)
  }

  lemma {:induction false} ReportTold(base: InvocationSummary, rs: seq<Reducer>, context: Context)
    ensures Turns(Begin(base), rs, context).report.collisions == Collided(rs, context)
    ensures Turns(Begin(base), rs, context).report.failures == Refused(rs, context)
  {
    if rs != [] {
      var init := rs[..|rs| - 1];
      ReportTold(base, init, context);
      TurnsTold(base, init, context);
      OwnerExists(Chosen(init, context));
    }
  }

  /** The report names exactly the collisions and the failures. */
  lemma {:induction false} ReportMeaning(rs: seq<Reducer>, context: Context, base: InvocationSummary)
    ensures Applied(rs, context, base).1.collisions == Collided(rs, context)
    ensures Applied(rs, context, base).1.failures == Refused(rs, context)
  {
    ReportTold(base, rs, context);
  }

  // ------------------------------------------------------------------------- laws

  /** At most one overriding reducer is ever applied. */
  lemma {:induction false} AtMostOneOverride(rs: seq<Reducer>, context: Context)
    ensures forall i, j :: 0 <= i < j < |Chosen(rs, context)| ==>
              !(Overrides(Chosen(rs, context)[i]) && Overrides(Chosen(rs, context)[j]))
  {
    if rs != [] {
      AtMostOneOverride(rs[..|rs| - 1], context);
    }
  }

  lemma {:induction false} NoHeadline(cs: seq<Contribution>)
    ensures Headline(cs).None? <==> forall i :: 0 <= i < |cs| ==> cs[i].patch.headline.None?
  {
    if cs != [] {
      NoHeadline(cs[..|cs| - 1]);
      assert forall i :: 0 <= i < |cs| - 1 ==> cs[..|cs| - 1][i] == cs[i];
    }
  }

  /** The headline is that of the first applied patch that has one. */
  lemma {:induction false} HeadlineIsFirst(cs: seq<Contribution>, k: nat)
    requires k < |cs| && cs[k].patch.headline.Some?
    requires forall i :: 0 <= i < k ==> cs[i].patch.headline.None?
    ensures Headline(cs) == cs[k].patch.headline
    decreases |cs|
  {
    var init := cs[..|cs| - 1];
    if k == |cs| - 1 {
      NoHeadline(init);
    } else {
      HeadlineIsFirst(init, k);
    }
  }

  /** The reducers behind the contributions. */
  function ReducersOf(cs: seq<Contribution>): seq<Reducer> {
    seq(|cs|, i requires 0 <= i < |cs| => cs[i].reducer)
  }

  lemma {:induction false} ChosenAgain(rs: seq<Reducer>, context: Context)
    ensures Chosen(ReducersOf(Chosen(rs, context)), context) == Chosen(rs, context)
  {
    if rs != [] {
      var init, last := rs[..|rs| - 1], rs[|rs| - 1];
      ChosenAgain(init, context);
      var before, now := Chosen(init, context), Chosen(rs, context);
      if |now| > |before| {
        var again := ReducersOf(now);
        assert again[..|again| - 1] == ReducersOf(before) && again[|again| - 1] == last;
      }
    }
  }

  /** Reducers that fail, do not match, return an empty patch or collide leave the
      summary untouched: without them it is the same. */
  lemma {:induction false} OthersHarmless(rs: seq<Reducer>, context: Context, base: InvocationSummary)
    ensures Applied(rs, context, base).0 == Applied(ReducersOf(Chosen(rs, context)), context, base).0
  {
    ChosenAgain(rs, context);
    AppliedMeaning(rs, context, base);
    AppliedMeaning(ReducersOf(Chosen(rs, context)), context, base);
  }

  /** Nothing is removed by patches that do not override. */
  lemma {:induction false} AugmentOnlyAdds(
    base: seq<Diagnostic>, before: seq<Contribution>, cs: seq<Contribution>, context: Context)
    requires forall i :: 0 <= i < |cs| ==> !Overrides(cs[i])
    ensures Diagnosed(base, before + cs, context) == Diagnosed(base, before, context) + Evidence(cs)
    decreases |cs|
  {
    if cs == [] {
      assert before + cs == before;
    } else {
      var init, last := cs[..|cs| - 1], cs[|cs| - 1];
      assert (before + cs)[..|before + cs| - 1] == before + init;
      AugmentOnlyAdds(base, before, init, context);
      Assoc(Diagnosed(base, before, context), Evidence(init), last.patch.diagnostics);
    }
  }

  /** Around an overriding patch: what came before it is filtered if it asks for that;
      its own diagnostics and all later ones are kept. */
  lemma {:induction false} OverrideReplaces(
    base: seq<Diagnostic>, before: seq<Contribution>, c: Contribution, after: seq<Contribution>, context: Context)
    requires !HasOverride(before) && Overrides(c) && !HasOverride(after)
    ensures var earlier := base + Evidence(before);
            Diagnosed(base, before + [c] + after, context) ==
            (if c.patch.suppressBuiltin then Suppressed(earlier, c.reducer.selector, context) else earlier)
            + c.patch.diagnostics + Evidence(after)
  {
    AugmentOnlyAdds(base, [], before, context);
    assert [] + before == before && (before + [c])[..|before|] == before;
    AugmentOnlyAdds(base, before + [c], after, context);
  }

  lemma {:induction false} SuppressedMembers(ds: seq<Diagnostic>, selector: Selector, context: Context, d: Diagnostic)
    ensures d in Suppressed(ds, selector, context) <==> d in ds && !selector.Owns(context, d)
  {
    if ds != [] {
      SuppressedMembers(ds[..|ds| - 1], selector, context, d);
      assert ds == ds[..|ds| - 1] + [ds[|ds| - 1]];
    }
  }

  /** Suppression looks at one diagnostic at a time and keeps the order: wherever a
      diagnostic stands, it alone decides whether it stays there. */
  lemma {:induction false} SuppressedExactly(
    before: seq<Diagnostic>, d: Diagnostic, after: seq<Diagnostic>, selector: Selector, context: Context)
    ensures Suppressed(before + [d] + after, selector, context) ==
      Suppressed(before, selector, context)
      + (if selector.Owns(context, d) then [] else [d]) + Suppressed(after, selector, context)
    ensures Suppressed([], selector, context) == []
    decreases |after|
  {
    var kept := if selector.Owns(context, d) then [] else [d];
    if after == [] {
      assert before + [d] + after == before + [d] && (before + [d])[..|before|] == before;
    } else {
      var init, last := after[..|after| - 1], after[|after| - 1];
      SuppressedExactly(before, d, init, selector, context);
      var all := before + [d] + after;
      assert all[..|all| - 1] == before + [d] + init && all[|all| - 1] == last;
      Assoc(Suppressed(before, selector, context) + kept, Suppressed(init, selector, context), [last]);
    }
  }

  // -------------------------------------------------------------------- selection

  /** The pattern takes the target: a prefix and three dots, or a glob. */
  ghost predicate Takes(pattern: string, target: string) {
    if exists prefix :: pattern == prefix + "..." then exists prefix :: pattern == prefix + "..." && prefix <= target
    else Wildcard.Glob(pattern, target)
  }

  lemma {:induction false} TakesExactly(pattern: string, target: string)
    requires Wildcard.InnerStarFree(target)
    ensures Wildcard.LabelMatches(pattern, target) <==> Takes(pattern, target)
  {
    Wildcard.LabelsExactly(pattern, target);
  }

  /** No target of the events or the diagnostic has a star before its last byte. */
  predicate Starless(context: Context) {
    forall i :: 0 <= i < |context.events| ==>
      context.events[i].target.Some? ==> Wildcard.InnerStarFree(context.events[i].target.value)
  }

  ghost predicate TakesTarget(s: Selector, target: string) {
    exists p :: p in s.targetLabels && Takes(p, target)
  }

  /** The event has a target, a kind or an action type that the selector lists. */
  ghost predicate Concerns(s: Selector, e: Event) {
    || (e.target.Some? && TakesTarget(s, e.target.value))
    || (exists kind :: e.targetKind == Some(kind) && kind in s.targetKinds)
    || (exists action :: e.actionType == Some(action) && action in s.actionTypes)
  }

  lemma {:induction false} NamesExactly(s: Selector, target: string)
    requires Wildcard.InnerStarFree(target)
    ensures s.NamesTarget(target) <==> TakesTarget(s, target)
  {
    forall i | 0 <= i < |s.targetLabels|
      ensures Wildcard.LabelMatches(s.targetLabels[i], target) <==> Takes(s.targetLabels[i], target)
    {
      TakesExactly(s.targetLabels[i], target);
    }
  }

  lemma {:induction false} EventExactly(s: Selector, e: Event)
    requires e.target.Some? ==> Wildcard.InnerStarFree(e.target.value)
    ensures s.MatchesEvent(e) <==> Concerns(s, e)
  {
    if e.target.Some? {
      NamesExactly(s, e.target.value);
    }
  }

  /** A selector selects a build exactly when it lists the command, or no command, and it
      concerns some event, or lists nothing an event could have. */
  lemma {:induction false} SelectsExactly(s: Selector, context: Context)
    requires Starless(context)
    ensures s.Matches(context) <==>
      && (s.commands == {} || context.command in s.commands)
      && (|| (s.targetLabels == [] && s.targetKinds == {} && s.actionTypes == {})
          || exists e :: e in context.events && Concerns(s, e))
  {
    forall i | 0 <= i < |context.events| ensures s.MatchesEvent(context.events[i]) <==> Concerns(s, context.events[i]) {
      EventExactly(s, context.events[i]);
    }
  }

  /** It owns a diagnostic exactly when it lists its action, takes its target, or concerns
      an event of that target. */
  lemma {:induction false} OwnsExactly(s: Selector, context: Context, d: Diagnostic)
    requires Starless(context) && (d.target.Some? ==> Wildcard.InnerStarFree(d.target.value))
    ensures s.Owns(context, d) <==>
      || (d.action.Some? && d.action.value in s.actionTypes)
      || (d.target.Some? && TakesTarget(s, d.target.value))
      || (d.target.Some? && exists e :: e in context.events && Concerns(s, e) && e.target == d.target)
  {
    forall i | 0 <= i < |context.events| ensures s.MatchesEvent(context.events[i]) <==> Concerns(s, context.events[i]) {
      EventExactly(s, context.events[i]);
    }
    if d.target.Some? {
      NamesExactly(s, d.target.value);
    }
  }
}
