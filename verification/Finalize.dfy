/** Ranking and bounding the diagnostics of a summary, and adding the notices of
    custom reducers to it. */
module Finalize {
  import opened Base
  import opened Sorting
  import opened Summary
  import opened Diagnostics

  // --------------------------------------------------------------------- priority

  function Lower(c: char): char {
    if 'A' <= c <= 'Z' then (c as int + 32) as char else c
  }

  predicate SameIgnoringCase(a: string, b: string) {
    |a| == |b| && forall i :: 0 <= i < |a| ==> Lower(a[i]) == Lower(b[i])
  }

  predicate MentionsAt(value: string, i: nat, needle: string) {
    i + |needle| <= |value| && SameIgnoringCase(value[i..i + |needle|], needle)
  }

  predicate Mentions(value: string, needle: string) {
    exists i: nat :: i <= |value| && MentionsAt(value, i, needle)
  }

  predicate StartsWith(value: string, prefix: string) {
    MentionsAt(value, 0, prefix)
  }

  function SeverityRank(s: Severity): nat {
    match s
    case Error => 0
    case Warning => 1
    case Note => 2
  }

  function CategoryRank(c: Category): nat {
    match c
    case Loading => 0
    case Visibility => 0
    case Analysis => 0
    case Compilation => 0
    case Test => 1
    case Workspace => 2
    case Bazel => 3
    case Unknown => 4
    case Action => 5
  }

  function EvidenceRank(d: Diagnostic): nat {
    var m := d.message;
    var rustFailure := Mentions(m, "panicked at") || (Mentions(m, "assertion") && Mentions(m, " failed"));
    if d.location.Some? || (Mentions(m, "root_cause") && !Mentions(m, "error executing")) then 0
    else if d.category.Test? && rustFailure then 1
    else if || StartsWith(m, "test failed:") || StartsWith(m, "test timed out:")
            || StartsWith(m, "test was incomplete:") || StartsWith(m, "test result was unavailable:") then 3
    else if Mentions(m, "error executing") then 2
    else 1
  }

  /** `diagnostic_priority`; smaller comes first. */
  function Priority(d: Diagnostic): (nat, nat, nat) {
    (SeverityRank(d.severity), CategoryRank(d.category), EvidenceRank(d))
  }

  predicate RankLe(a: (nat, nat, nat), b: (nat, nat, nat)) {
    a.0 < b.0 || (a.0 == b.0 && (a.1 < b.1 || (a.1 == b.1 && a.2 <= b.2)))
  }

  predicate PriorityLe(a: Diagnostic, b: Diagnostic) {
    RankLe(Priority(a), Priority(b))
  }

  // ------------------------------------------------------------ what comes first

  predicate CaseOnly(a: char, b: char) {
    || a == b
    || ('A' <= a <= 'Z' && b as int == a as int + 32)
    || ('A' <= b <= 'Z' && a as int == b as int + 32)
  }

  /** The same text up to the case of its letters. */
  predicate SameText(a: string, b: string) {
    |a| == |b| && forall i :: 0 <= i < |a| ==> CaseOnly(a[i], b[i])
  }

  ghost predicate Says(message: string, text: string) {
    exists before, said, after :: message == before + said + after && SameText(said, text)
  }

  ghost predicate Opens(message: string, text: string) {
    exists said, after :: message == said + after && SameText(said, text)
  }

  /** It names a place, or a root cause. */
  ghost predicate Pointed(d: Diagnostic) {
    d.location.Some? || (Says(d.message, "root_cause") && !Says(d.message, "error executing"))
  }

  /** A test's own account of why it failed. */
  ghost predicate Panics(d: Diagnostic) {
    && d.category.Test?
    && (Says(d.message, "panicked at") || (Says(d.message, "assertion") && Says(d.message, " failed")))
  }

  /** Nothing but the outcome of a test. */
  ghost predicate BareOutcome(d: Diagnostic) {
    && !Pointed(d) && !Panics(d)
    && (|| Opens(d.message, "test failed:") || Opens(d.message, "test timed out:")
        || Opens(d.message, "test was incomplete:") || Opens(d.message, "test result was unavailable:"))
  }

  /** Nothing but that a command failed. */
  ghost predicate BareCommand(d: Diagnostic) {
    !Pointed(d) && !Panics(d) && !BareOutcome(d) && Says(d.message, "error executing")
  }

  predicate BuildCategory(c: Category) {
    c.Loading? || c.Visibility? || c.Analysis? || c.Compilation?
  }

  predicate SameClass(a: Category, b: Category) {
    a == b || (BuildCategory(a) && BuildCategory(b))
  }

  /** What broke the build, then tests, workspace, Bazel, the rest, and actions last. */
  predicate ClassMayPrecede(a: Category, b: Category) {
    && (BuildCategory(b) ==> BuildCategory(a))
    && (b.Test? ==> BuildCategory(a) || a.Test?)
    && (b.Workspace? ==> BuildCategory(a) || a.Test? || a.Workspace?)
    && (b.Bazel? ==> !a.Unknown? && !a.Action?)
    && (b.Unknown? ==> !a.Action?)
  }

  /** Errors, then warnings, then notes; within a severity by class; within a class what
      points somewhere first, bare commands later and bare outcomes last. */
  ghost predicate MayPrecede(a: Diagnostic, b: Diagnostic) {
    && (b.severity.Error? ==> a.severity.Error?) && (a.severity.Note? ==> b.severity.Note?)
    && (a.severity == b.severity ==> ClassMayPrecede(a.category, b.category))
    && (a.severity == b.severity && SameClass(a.category, b.category) ==>
          && (Pointed(b) ==> Pointed(a))
          && (BareCommand(a) ==> BareCommand(b) || BareOutcome(b))
          && (BareOutcome(a) ==> BareOutcome(b)))
  }

  lemma SameTextExactly(a: string, b: string)
    ensures SameIgnoringCase(a, b) <==> SameText(a, b)
  {
    forall i | 0 <= i < |a| && |a| == |b| ensures Lower(a[i]) == Lower(b[i]) <==> CaseOnly(a[i], b[i]) {
      LowerExactly(a[i], b[i]);
    }
  }

  lemma LowerExactly(a: char, b: char)
    ensures Lower(a) == Lower(b) <==> CaseOnly(a, b)
  {
  }

  lemma {:induction false} MentionsExactly(message: string, text: string)
    ensures Mentions(message, text) <==> Says(message, text)
  {
    if Mentions(message, text) {
      var i: nat :| i <= |message| && MentionsAt(message, i, text);
      var said := message[i..i + |text|];
      SameTextExactly(said, text);
      assert message == message[..i] + said + message[i + |text|..];
    }
    if before, said, after :| message == before + said + after && SameText(said, text) {
      assert message[|before|..|before| + |text|] == said;
      SameTextExactly(said, text);
      assert MentionsAt(message, |before|, text);
    }
  }

  lemma {:induction false} StartsExactly(message: string, text: string)
    ensures StartsWith(message, text) <==> Opens(message, text)
  {
    if StartsWith(message, text) {
      SameTextExactly(message[0..|text|], text);
      assert message == message[0..|text|] + message[|text|..];
    }
    if said, after :| message == said + after && SameText(said, text) {
      assert message[0..|text|] == said;
      SameTextExactly(said, text);
    }
  }

  lemma {:induction false} EvidenceExactly(d: Diagnostic)
    ensures EvidenceRank(d) ==
      if Pointed(d) then 0 else if BareOutcome(d) then 3 else if BareCommand(d) then 2 else 1
  {
    var m := d.message;
    MentionsExactly(m, "panicked at");
    MentionsExactly(m, "assertion");
    MentionsExactly(m, " failed");
    MentionsExactly(m, "root_cause");
    MentionsExactly(m, "error executing");
    StartsExactly(m, "test failed:");
    StartsExactly(m, "test timed out:");
    StartsExactly(m, "test was incomplete:");
    StartsExactly(m, "test result was unavailable:");
  }

  lemma CategoryExactly(a: Category, b: Category)
    ensures CategoryRank(a) <= CategoryRank(b) <==> ClassMayPrecede(a, b)
    ensures CategoryRank(a) == CategoryRank(b) <==> SameClass(a, b)
  {
  }

  lemma {:induction false} PriorityExactly(a: Diagnostic, b: Diagnostic)
    ensures PriorityLe(a, b) <==> MayPrecede(a, b)
  {
    CategoryExactly(a.category, b.category);
    EvidenceExactly(a);
    EvidenceExactly(b);
  }

  /** The priority orders any two diagnostics, exactly as described. */
  lemma PriorityOrder()
    ensures TotalPreorder(PriorityLe)
    ensures forall a, b :: PriorityLe(a, b) <==> MayPrecede(a, b)
  {
    forall a, b ensures PriorityLe(a, b) || PriorityLe(b, a) {
      RankTotal(Priority(a), Priority(b), Priority(b));
    }
    forall a, b, c | PriorityLe(a, b) && PriorityLe(b, c) ensures PriorityLe(a, c) {
      RankTotal(Priority(a), Priority(b), Priority(c));
    }
    forall a, b ensures PriorityLe(a, b) <==> MayPrecede(a, b) {
      PriorityExactly(a, b);
    }
  }

  lemma RankTotal(a: (nat, nat, nat), b: (nat, nat, nat), c: (nat, nat, nat))
    ensures RankLe(a, b) || RankLe(b, a)
    ensures RankLe(a, b) && RankLe(b, c) ==> RankLe(a, c)
  {
  }

  // --------------------------------------------------------------------- the bound

  /** Message bytes, as the counter holds them. */
  function Bytes(ds: seq<Diagnostic>): nat {
    if ds == [] then 0 else SatAdd(Bytes(ds[..|ds| - 1]), |ds[|ds| - 1].message|)
  }

  /** Message bytes. */
  function MessageBytes(ds: seq<Diagnostic>): nat {
    if ds == [] then 0 else MessageBytes(ds[..|ds| - 1]) + |ds[|ds| - 1].message|
  }

  /** The counter is exact below its limit. */
  lemma {:induction false} BytesExact(ds: seq<Diagnostic>)
    ensures Bytes(ds) == if MessageBytes(ds) > USIZE_MAX then USIZE_MAX else MessageBytes(ds)
  {
    if ds != [] {
      BytesExact(ds[..|ds| - 1]);
    }
  }

  /** What is kept of a list within a byte limit; one that does not fit is skipped. */
  function Fitting(ds: seq<Diagnostic>, maxBytes: nat): seq<Diagnostic> {
    if ds == [] then []
    else
      var kept, last := Fitting(ds[..|ds| - 1], maxBytes), ds[|ds| - 1];
      if SatAdd(Bytes(kept), |last.message|) > maxBytes then kept else kept + [last]
  }

  lemma {:induction false} FittingNext(ds: seq<Diagnostic>, i: nat, maxBytes: nat)
    requires i < |ds|
    ensures var kept := Fitting(ds[..i], maxBytes);
            var next := SatAdd(Bytes(kept), |ds[i].message|);
            && (next > maxBytes ==> Fitting(ds[..i + 1], maxBytes) == kept)
            && (next <= maxBytes ==> Fitting(ds[..i + 1], maxBytes) == kept + [ds[i]])
            && Bytes(kept + [ds[i]]) == next
  {
    assert ds[..i + 1][..i] == ds[..i];
    var kept := Fitting(ds[..i], maxBytes);
    assert (kept + [ds[i]])[..|kept|] == kept;
  }

  function Ranked(ds: seq<Diagnostic>): seq<Diagnostic> {
    SortBy(PriorityLe, Deduplicated(ds))
  }

  function Leading<T>(xs: seq<T>, n: nat): seq<T> {
    if |xs| > n then xs[..n] else xs
  }

  function Bounded(ds: seq<Diagnostic>, budget: Budget): seq<Diagnostic> {
    Fitting(Leading(Ranked(ds), budget.maxItems), budget.maxBytes)
  }

  function Finalized(s: InvocationSummary, budget: Budget): InvocationSummary {
    var kept := Bounded(s.diagnostics, budget);
    var truncated := s.truncated || |kept| < |Ranked(s.diagnostics)|;
    s.(diagnostics := kept,
       truncated := truncated,
       inspectHint := if truncated then Some(InspectDiagnostics) else s.inspectHint,
       headline := if !s.success && kept != [] then "Bazel failed: " + kept[0].message else s.headline)
  }

  /** The `retain` of `finalize_diagnostics`: a running total decides what stays. */
  method RetainWithin(diagnostics: seq<Diagnostic>, maxBytes: nat)
    returns (kept: seq<Diagnostic>, truncated: bool)
    ensures kept == Fitting(diagnostics, maxBytes)
    ensures |kept| <= |diagnostics| && (truncated <==> |kept| < |diagnostics|)
  {
    var used := 0;
    kept, truncated := [], false;
    for i := 0 to |diagnostics|
      invariant kept == Fitting(diagnostics[..i], maxBytes) && |kept| <= i
      invariant used == Bytes(kept)
      invariant truncated <==> |kept| < i
    {
      FittingNext(diagnostics, i, maxBytes);
      var next := SatAdd(used, |diagnostics[i].message|);
      if next > maxBytes {
        truncated := true;
      } else {
        used := next;
        kept := kept + [diagnostics[i]];
      }
    }
    assert diagnostics[..|diagnostics|] == diagnostics;
  }

  /** `finalize_diagnostics`. */
  method FinalizeDiagnostics(summary: InvocationSummary, budget: Budget) returns (r: InvocationSummary)
    ensures r == Finalized(summary, budget)
  {
    var diagnostics := DeduplicateDiagnostics(summary.diagnostics);
    diagnostics := SortBy(PriorityLe, diagnostics);
    var cut := |diagnostics| > budget.maxItems;
    diagnostics := Leading(diagnostics, budget.maxItems);
    var kept, truncated := RetainWithin(diagnostics, budget.maxBytes);
    truncated := cut || truncated;
    r := summary.(diagnostics := kept, truncated := summary.truncated || truncated);
    if r.truncated {
      r := r.(inspectHint := Some(InspectDiagnostics));
    }
    if !r.success && r.diagnostics != [] {
      r := r.(headline := "Bazel failed: " + r.diagnostics[0].message);
    }
  }

  // ------------------------------------------------------------------------- laws

  /** `ys` is `xs` with some elements left out. */
  ghost predicate Thinned<T(!new)>(xs: seq<T>, ys: seq<T>) {
    if xs == [] then ys == []
    else
      var init, last := xs[..|xs| - 1], xs[|xs| - 1];
      Thinned(init, ys) || (ys != [] && ys[|ys| - 1] == last && Thinned(init, ys[..|ys| - 1]))
  }

  lemma {:induction false} ThinnedMembers<T(!new)>(xs: seq<T>, ys: seq<T>)
    requires Thinned(xs, ys)
    ensures |ys| <= |xs| && forall y :: y in ys ==> y in xs
  {
    if xs != [] {
      var init, last := xs[..|xs| - 1], xs[|xs| - 1];
      if Thinned(init, ys) {
        ThinnedMembers(init, ys);
      } else {
        ThinnedMembers(init, ys[..|ys| - 1]);
        assert ys == ys[..|ys| - 1] + [last];
      }
    }
  }

  lemma {:induction false} ThinnedSorted<T(!new)>(le: (T, T) -> bool, xs: seq<T>, ys: seq<T>)
    requires Thinned(xs, ys) && Sorted(le, xs)
    ensures Sorted(le, ys)
  {
    if xs != [] {
      var init, last := xs[..|xs| - 1], xs[|xs| - 1];
      if Thinned(init, ys) {
        ThinnedSorted(le, init, ys);
      } else {
        ThinnedSorted(le, init, ys[..|ys| - 1]);
        ThinnedMembers(init, ys[..|ys| - 1]);
        assert ys == ys[..|ys| - 1] + [last];
        forall y | y in ys[..|ys| - 1] ensures le(y, last) {
          var i :| 0 <= i < |init| && init[i] == y;
          assert le(xs[i], xs[|xs| - 1]);
        }
      }
    }
  }

  lemma {:induction false} ThinnedKeys(xs: seq<Diagnostic>, ys: seq<Diagnostic>)
    requires Thinned(xs, ys) && DistinctKeys(xs)
    ensures DistinctKeys(ys)
  {
    if xs != [] {
      var init, last := xs[..|xs| - 1], xs[|xs| - 1];
      if Thinned(init, ys) {
        ThinnedKeys(init, ys);
      } else {
        ThinnedKeys(init, ys[..|ys| - 1]);
        ThinnedMembers(init, ys[..|ys| - 1]);
        assert ys == ys[..|ys| - 1] + [last];
        forall y | y in ys[..|ys| - 1] ensures KeyOf(y) != KeyOf(last) {
          var i :| 0 <= i < |init| && init[i] == y;
          assert KeyOf(xs[i]) != KeyOf(xs[|xs| - 1]);
        }
      }
    }
  }

  lemma {:induction false} ThinnedSelf<T(!new)>(xs: seq<T>)
    ensures Thinned(xs, xs)
  {
    if xs != [] {
      ThinnedSelf(xs[..|xs| - 1]);
    }
  }

  lemma {:induction false} ThinnedPrefix<T(!new)>(xs: seq<T>, n: nat)
    requires n <= |xs|
    ensures Thinned(xs, xs[..n])
    decreases |xs|
  {
    if n == |xs| {
      ThinnedSelf(xs);
      assert xs[..n] == xs;
    } else {
      ThinnedPrefix(xs[..|xs| - 1], n);
      assert xs[..|xs| - 1][..n] == xs[..n];
    }
  }

  lemma {:induction false} FittingLaws(ds: seq<Diagnostic>, maxBytes: nat)
    ensures Thinned(ds, Fitting(ds, maxBytes))
    ensures Bytes(Fitting(ds, maxBytes)) <= maxBytes
  {
    if ds != [] {
      var init, last := ds[..|ds| - 1], ds[|ds| - 1];
      FittingLaws(init, maxBytes);
      var kept := Fitting(init, maxBytes);
      assert (kept + [last])[..|kept|] == kept;
    }
  }

  lemma {:induction false} FittingAll(ds: seq<Diagnostic>, maxBytes: nat)
    requires Bytes(ds) <= maxBytes
    ensures Fitting(ds, maxBytes) == ds
  {
    if ds != [] {
      FittingAll(ds[..|ds| - 1], maxBytes);
      assert ds == ds[..|ds| - 1] + [ds[|ds| - 1]];
    }
  }

  lemma {:induction false} FittingPrefix(ds: seq<Diagnostic>, n: nat, maxBytes: nat)
    requires n <= |ds|
    ensures Fitting(ds[..n], maxBytes) <= Fitting(ds, maxBytes)
    decreases |ds|
  {
    if n == |ds| {
      assert ds[..n] == ds;
    } else {
      var init := ds[..|ds| - 1];
      FittingPrefix(init, n, maxBytes);
      assert init[..n] == ds[..n];
    }
  }

  lemma {:induction false} InsertDistinct(xs: seq<Diagnostic>, x: Diagnostic)
    requires DistinctKeys(xs) && !HasKey(xs, KeyOf(x))
    ensures DistinctKeys(Insert(PriorityLe, xs, x))
    decreases |xs|
  {
    if xs != [] && !PriorityLe(xs[|xs| - 1], x) {
      var init, last := xs[..|xs| - 1], xs[|xs| - 1];
      assert forall i :: 0 <= i < |init| ==> init[i] == xs[i];
      InsertDistinct(init, x);
      var grown := Insert(PriorityLe, init, x);
      InsertElements(PriorityLe, init, x);
      forall y | y in grown ensures KeyOf(y) != KeyOf(last) {
        assert y in multiset(grown);
        assert y in multiset(init) || y == x;
      }
    }
  }

  lemma {:induction false} RankedDistinct(ds: seq<Diagnostic>)
    requires DistinctKeys(ds)
    ensures DistinctKeys(SortBy(PriorityLe, ds))
  {
    if ds != [] {
      var init, last := ds[..|ds| - 1], ds[|ds| - 1];
      RankedDistinct(init);
      PriorityOrder();
      SortByMembers(PriorityLe, init);
      forall y | y in SortBy(PriorityLe, init) ensures KeyOf(y) != KeyOf(last) {
        var i :| 0 <= i < |init| && init[i] == y;
        assert KeyOf(ds[i]) != KeyOf(ds[|ds| - 1]);
      }
      InsertDistinct(SortBy(PriorityLe, init), last);
    }
  }

  /** Ordered by priority, one diagnostic per key, within both limits. */
  lemma BoundedLaws(ds: seq<Diagnostic>, budget: Budget)
    ensures Sorted(PriorityLe, Bounded(ds, budget)) && DistinctKeys(Bounded(ds, budget))
    ensures |Bounded(ds, budget)| <= budget.maxItems && Bytes(Bounded(ds, budget)) <= budget.maxBytes
    ensures forall d :: d in Bounded(ds, budget) ==> d in Deduplicated(ds)
    ensures |Bounded(ds, budget)| <= |Deduplicated(ds)| == |Ranked(ds)|
  {
    PriorityOrder();
    DeduplicatedKeys(ds);
    RankedDistinct(Deduplicated(ds));
    SortByLaws(PriorityLe, Deduplicated(ds));
    SortByMembers(PriorityLe, Deduplicated(ds));
    var ranked := Ranked(ds);
    var items := Leading(ranked, budget.maxItems);
    ThinnedPrefix(ranked, |items|);
    assert items == ranked[..|items|];
    ThinnedSorted(PriorityLe, ranked, items);
    ThinnedKeys(ranked, items);
    ThinnedMembers(ranked, items);
    FittingLaws(items, budget.maxBytes);
    ThinnedSorted(PriorityLe, items, Bounded(ds, budget));
    ThinnedKeys(items, Bounded(ds, budget));
    ThinnedMembers(items, Bounded(ds, budget));
  }

  /** A list that already obeys the laws is left as it is. */
  lemma {:induction false} BoundedStays(ds: seq<Diagnostic>, budget: Budget)
    requires Sorted(PriorityLe, ds) && DistinctKeys(ds)
    requires |ds| <= budget.maxItems && Bytes(ds) <= budget.maxBytes
    ensures Ranked(ds) == ds && Bounded(ds, budget) == ds
  {
    DistinctStays(ds);
    SortBySorted(PriorityLe, ds);
    FittingAll(ds, budget.maxBytes);
  }

  /** A finalized summary obeys the laws, and is marked truncated exactly when it
      already was or something was left out. */
  lemma FinalizedLaws(s: InvocationSummary, budget: Budget)
    ensures var r := Finalized(s, budget);
            && (forall i, j :: 0 <= i < j < |r.diagnostics| ==> MayPrecede(r.diagnostics[i], r.diagnostics[j]))
            && NoneAlike(r.diagnostics)
            && |r.diagnostics| <= budget.maxItems && Bytes(r.diagnostics) <= budget.maxBytes
            && (budget.maxBytes < USIZE_MAX ==> MessageBytes(r.diagnostics) <= budget.maxBytes)
            && (r.truncated <==> s.truncated || |r.diagnostics| < |Deduplicated(s.diagnostics)|)
            && r.inspectHint == (if r.truncated then Some(InspectDiagnostics) else s.inspectHint)
            && r == s.(diagnostics := r.diagnostics, truncated := r.truncated, inspectHint := r.inspectHint,
                       headline := r.headline)
            && r.headline == (if !s.success && r.diagnostics != [] then "Bazel failed: " + r.diagnostics[0].message
                              else s.headline)
  {
    BoundedLaws(s.diagnostics, budget);
    BytesExact(Bounded(s.diagnostics, budget));
    DistinctExactly(Bounded(s.diagnostics, budget));
    forall i, j | 0 <= i < j < |Bounded(s.diagnostics, budget)|
      ensures MayPrecede(Bounded(s.diagnostics, budget)[i], Bounded(s.diagnostics, budget)[j])
    {
      PriorityExactly(Bounded(s.diagnostics, budget)[i], Bounded(s.diagnostics, budget)[j]);
    }
  }

  /** Of the first `maxItems` in priority order, each is kept exactly when its message
      still fits after those kept before it; one that does not fit is passed over. */
  lemma RetainsExactly(s: InvocationSummary, budget: Budget, i: nat)
    requires i < |Ranked(s.diagnostics)| && i < budget.maxItems && budget.maxBytes < USIZE_MAX
    ensures
      var ranked := Ranked(s.diagnostics);
      var before, after := Fitting(ranked[..i], budget.maxBytes), Fitting(ranked[..i + 1], budget.maxBytes);
      && after ==
           (if MessageBytes(before) + |ranked[i].message| <= budget.maxBytes then before + [ranked[i]] else before)
      && after <= Finalized(s, budget).diagnostics
      && (i + 1 == |ranked| || i + 1 == budget.maxItems ==> after == Finalized(s, budget).diagnostics)
  {
    var ranked := Ranked(s.diagnostics);
    var items := Leading(ranked, budget.maxItems);
    FittingNext(ranked, i, budget.maxBytes);
    BytesExact(Fitting(ranked[..i], budget.maxBytes));
    FittingLaws(ranked[..i], budget.maxBytes);
    assert items[..i + 1] == ranked[..i + 1];
    FittingPrefix(items, i + 1, budget.maxBytes);
    assert i + 1 == |items| ==> items[..i + 1] == items;
  }

  /** Finalizing again changes nothing. */
  lemma FinalizedIdempotent(s: InvocationSummary, budget: Budget)
    ensures Finalized(Finalized(s, budget), budget) == Finalized(s, budget)
  {
    BoundedLaws(s.diagnostics, budget);
    BoundedStays(Bounded(s.diagnostics, budget), budget);
  }

  lemma {:induction false} ThinnedFull<T(!new)>(xs: seq<T>, ys: seq<T>)
    requires Thinned(xs, ys) && |ys| == |xs|
    ensures ys == xs
  {
    if xs != [] {
      var init, last := xs[..|xs| - 1], xs[|xs| - 1];
      if Thinned(init, ys) {
        ThinnedMembers(init, ys);
      } else {
        ThinnedFull(init, ys[..|ys| - 1]);
        assert ys == ys[..|ys| - 1] + [last];
      }
    }
  }

  /** Everything stays exactly when it fits both limits; then nothing is reordered
      beyond the priority sort and nothing is marked. */
  lemma FinalizedComplete(s: InvocationSummary, budget: Budget)
    ensures
      var r, ranked := Finalized(s, budget), Ranked(s.diagnostics);
      && (|r.diagnostics| == |Deduplicated(s.diagnostics)|
          <==> |ranked| <= budget.maxItems && Bytes(ranked) <= budget.maxBytes)
      && (|r.diagnostics| == |Deduplicated(s.diagnostics)| ==>
            r.diagnostics == ranked && r.truncated == s.truncated)
  {
    var ranked, kept := Ranked(s.diagnostics), Bounded(s.diagnostics, budget);
    var items := Leading(ranked, budget.maxItems);
    PriorityOrder();
    SortByLaws(PriorityLe, Deduplicated(s.diagnostics));
    FittingLaws(items, budget.maxBytes);
    ThinnedMembers(items, kept);
    if |kept| == |ranked| {
      ThinnedFull(items, kept);
    } else if |ranked| <= budget.maxItems && Bytes(ranked) <= budget.maxBytes {
      FittingAll(ranked, budget.maxBytes);
    }
  }

  // ---------------------------------------------------------------------- notices

  const RESULT_DEFAULT := Budget(4 * 1024, 20)

  const NOTICES := Budget(1024, 4)

  const EMPTY_SUMMARY := InvocationSummary(
    true, "", [], TargetCounts(0, 0, 0), [], [], TestCounts(0, 0, 0, 0, 0), 0, false, None)

  function Remaining(kept: seq<Diagnostic>): Budget {
    Budget(SatSub(RESULT_DEFAULT.maxBytes, Bytes(kept)), SatSub(RESULT_DEFAULT.maxItems, |kept|))
  }

  function WithNotices(s: InvocationSummary, notices: seq<Diagnostic>): InvocationSummary {
    var noticed := Finalized(EMPTY_SUMMARY.(diagnostics := notices), NOTICES);
    var r := Finalized(s, Remaining(noticed.diagnostics));
    r.(diagnostics := r.diagnostics + noticed.diagnostics,
       truncated := r.truncated || noticed.truncated,
       inspectHint := if noticed.truncated then Some(InspectDiagnostics) else r.inspectHint)
  }

  /** `finalize_with_custom_notices`. */
  method FinalizeWithCustomNotices(summary: InvocationSummary, notices: seq<Diagnostic>)
    returns (r: InvocationSummary)
    ensures r == if notices == [] then Finalized(summary, Budget(4 * 1024, 20)) else WithNotices(summary, notices)
  {
    if notices == [] {
      r := FinalizeDiagnostics(summary, RESULT_DEFAULT);
      return;
    }
    var noticeSummary := FinalizeDiagnostics(EMPTY_SUMMARY.(diagnostics := notices), NOTICES);
    var kept := noticeSummary.diagnostics;
    r := FinalizeDiagnostics(summary, Remaining(kept));
    r := r.(diagnostics := r.diagnostics + kept);
    if noticeSummary.truncated {
      r := r.(truncated := true, inspectHint := Some(InspectDiagnostics));
    }
  }

  lemma {:induction false} BytesJoin(a: seq<Diagnostic>, b: seq<Diagnostic>)
    requires Bytes(a) + Bytes(b) < USIZE_MAX
    ensures Bytes(a + b) == Bytes(a) + Bytes(b)
    decreases |b|
  {
    if b == [] {
      assert a + b == a;
    } else {
      var init := b[..|b| - 1];
      BytesJoin(a, init);
      assert (a + b)[..|a + b| - 1] == a + init;
    }
  }

  /** With or without notices the result stays within the default budget, and
      notices take at most their own share of it. */
  lemma NoticesWithinBudget(s: InvocationSummary, notices: seq<Diagnostic>)
    ensures var r := if notices == [] then Finalized(s, RESULT_DEFAULT) else WithNotices(s, notices);
            && |r.diagnostics| <= RESULT_DEFAULT.maxItems && MessageBytes(r.diagnostics) <= RESULT_DEFAULT.maxBytes
            && (r.truncated ==> r.inspectHint == Some(InspectDiagnostics))
  {
    BytesExact(if notices == [] then Bounded(s.diagnostics, RESULT_DEFAULT) else WithNotices(s, notices).diagnostics);
    if notices == [] {
      BoundedLaws(s.diagnostics, RESULT_DEFAULT);
    } else {
      var kept := Bounded(notices, NOTICES);
      BoundedLaws(notices, NOTICES);
      BoundedLaws(s.diagnostics, Remaining(kept));
      BytesJoin(Bounded(s.diagnostics, Remaining(kept)), kept);
    }
  }

  lemma NoticesKept(notices: seq<Diagnostic>)
    ensures var kept := Bounded(notices, NOTICES);
            && |kept| <= 4 && MessageBytes(kept) <= 1024 && Bytes(kept) == MessageBytes(kept)
            && (|kept| == |Deduplicated(notices)| <==> |Ranked(notices)| <= 4 && Bytes(Ranked(notices)) <= 1024)
  {
    BoundedLaws(notices, NOTICES);
    BytesExact(Bounded(notices, NOTICES));
    FinalizedComplete(EMPTY_SUMMARY.(diagnostics := notices), NOTICES);
  }

  /** The notices kept come last, in priority order: all of them exactly when there are at
      most four of a KiB in all. They take their place out of 20 items and 4 KiB, and the
      diagnostics get the rest. */
  lemma NoticesComeLast(s: InvocationSummary, notices: seq<Diagnostic>)
    requires notices != []
    ensures var kept := Bounded(notices, NOTICES);
            && |kept| <= 4 && MessageBytes(kept) <= 1024
            && (|kept| == |Deduplicated(notices)| <==> |Ranked(notices)| <= 4 && Bytes(Ranked(notices)) <= 1024)
            && WithNotices(s, notices).diagnostics ==
                 Bounded(s.diagnostics, Budget(4 * 1024 - MessageBytes(kept), 20 - |kept|)) + kept
  {
    NoticesKept(notices);
    var kept := Bounded(notices, NOTICES);
    assert Remaining(kept) == Budget(4 * 1024 - MessageBytes(kept), 20 - |kept|);
  }

  /** The summary is marked truncated exactly when it was or a diagnostic or a notice was
      left out; notices never make the headline. */
  lemma NoticesMark(s: InvocationSummary, notices: seq<Diagnostic>)
    ensures
      var r, kept := WithNotices(s, notices), Bounded(notices, NOTICES);
      var own := Bounded(s.diagnostics, Remaining(kept));
      && r.diagnostics == own + kept
      && (r.truncated <==>
            s.truncated || |own| < |Deduplicated(s.diagnostics)| || |kept| < |Deduplicated(notices)|)
      && r.inspectHint == (if r.truncated then Some(InspectDiagnostics) else s.inspectHint)
      && r.headline == (if !s.success && own != [] then "Bazel failed: " + own[0].message else s.headline)
  {
    BoundedLaws(notices, NOTICES);
    BoundedLaws(s.diagnostics, Remaining(Bounded(notices, NOTICES)));
  }
}
