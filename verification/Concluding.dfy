/** From what was observed to a summary: results in label order, one per label, counted. */
module Concluding {
  import opened Base
  import opened Decimals
  import opened Sorting
  import opened Summary
  import opened Finalize

  // ------------------------------------------------------------- one result a label

  /** `dedup_by`: of neighbours with the same name, the first stays. */
  function Deduped<T>(nameOf: T -> string, xs: seq<T>): (r: seq<T>)
    ensures xs != [] ==> r != [] && nameOf(r[|r| - 1]) == nameOf(xs[|xs| - 1])
    ensures xs == [] ==> r == []
  {
    if xs == [] then []
    else
      var init, last := Deduped(nameOf, xs[..|xs| - 1]), xs[|xs| - 1];
      if init != [] && nameOf(init[|init| - 1]) == nameOf(last) then init else init + [last]
  }

  function TargetName(t: TargetResult): string { t.name }

  function TestName(t: TestResult): string { t.name }

  predicate TargetLe(a: TargetResult, b: TargetResult) { StringLe(a.name, b.name) }

  predicate TestLe(a: TestResult, b: TestResult) { StringLe(a.name, b.name) }

  function TargetsByLabel(ts: seq<TargetResult>): seq<TargetResult> {
    Deduped(TargetName, SortBy(TargetLe, ts))
  }

  function TestsByLabel(ts: seq<TestResult>): seq<TestResult> {
    Deduped(TestName, SortBy(TestLe, ts))
  }

  /** The order is by name alone. */
  ghost predicate ByName<T(!new)>(le: (T, T) -> bool, nameOf: T -> string) {
    forall a, b :: le(a, b) <==> StringLe(nameOf(a), nameOf(b))
  }

  lemma ByNameOrder<T(!new)>(le: (T, T) -> bool, nameOf: T -> string)
    requires ByName(le, nameOf)
    ensures TotalPreorder(le)
  {
    forall a, b ensures le(a, b) || le(b, a) {
      StringLeTotal(nameOf(a), nameOf(b));
    }
    forall a, b, c | le(a, b) && le(b, c) ensures le(a, c) {
      StringLeTransitive(nameOf(a), nameOf(b), nameOf(c));
    }
  }

  predicate HasName<T>(nameOf: T -> string, xs: seq<T>, name: string) {
    exists i :: 0 <= i < |xs| && nameOf(xs[i]) == name
  }

  lemma {:induction false} HasNameSnoc<T>(nameOf: T -> string, xs: seq<T>, x: T, name: string)
    ensures HasName(nameOf, xs + [x], name) <==> HasName(nameOf, xs, name) || nameOf(x) == name
  {
    var ys := xs + [x];
    assert ys[|xs|] == x;
    assert forall i :: 0 <= i < |xs| ==> ys[i] == xs[i];
  }

  lemma {:induction false} HasNameMembers<T>(nameOf: T -> string, xs: seq<T>, ys: seq<T>, name: string)
    requires forall x :: x in xs ==> x in ys
    ensures HasName(nameOf, xs, name) ==> HasName(nameOf, ys, name)
  {
    if HasName(nameOf, xs, name) {
      var i :| 0 <= i < |xs| && nameOf(xs[i]) == name;
      assert xs[i] in ys;
      var j :| 0 <= j < |ys| && ys[j] == xs[i];
      assert nameOf(ys[j]) == name;
    }
  }

  /** No name is lost. */
  lemma {:induction false} DedupedNames<T>(nameOf: T -> string, xs: seq<T>, name: string)
    ensures HasName(nameOf, Deduped(nameOf, xs), name) <==> HasName(nameOf, xs, name)
  {
    if xs != [] {
      var init, last := xs[..|xs| - 1], xs[|xs| - 1];
      var kept := Deduped(nameOf, init);
      DedupedNames(nameOf, init, name);
      HasNameSnoc(nameOf, init, last, name);
      assert xs == init + [last];
      if kept != [] && nameOf(kept[|kept| - 1]) == nameOf(last) {
        assert nameOf(last) == name ==> HasName(nameOf, kept, name);
      } else {
        HasNameSnoc(nameOf, kept, last, name);
      }
    }
  }

  lemma {:induction false} DedupedMembers<T(!new)>(nameOf: T -> string, xs: seq<T>)
    ensures forall x :: x in Deduped(nameOf, xs) ==> x in xs
  {
    if xs != [] {
      DedupedMembers(nameOf, xs[..|xs| - 1]);
      assert forall x :: x in xs[..|xs| - 1] ==> x in xs;
    }
  }

  lemma {:induction false} DedupedSorted<T(!new)>(le: (T, T) -> bool, nameOf: T -> string, xs: seq<T>)
    requires ByName(le, nameOf) && Sorted(le, xs)
    ensures Sorted(le, Deduped(nameOf, xs))
  {
    if xs != [] {
      var init, last := xs[..|xs| - 1], xs[|xs| - 1];
      DedupedSorted(le, nameOf, init);
      DedupedMembers(nameOf, init);
      forall x | x in Deduped(nameOf, init) ensures le(x, last) {
        var i :| 0 <= i < |init| && init[i] == x;
        assert le(xs[i], xs[|xs| - 1]);
      }
    }
  }

  lemma {:induction false} DedupedDistinct<T(!new)>(le: (T, T) -> bool, nameOf: T -> string, xs: seq<T>)
    requires ByName(le, nameOf) && Sorted(le, xs)
    ensures forall i, j :: 0 <= i < j < |Deduped(nameOf, xs)| ==>
              nameOf(Deduped(nameOf, xs)[i]) != nameOf(Deduped(nameOf, xs)[j])
  {
    if xs != [] {
      var init, last := xs[..|xs| - 1], xs[|xs| - 1];
      var kept := Deduped(nameOf, init);
      DedupedDistinct(le, nameOf, init);
      DedupedSorted(le, nameOf, init);
      if kept != [] && nameOf(kept[|kept| - 1]) != nameOf(last) {
        forall i | 0 <= i < |kept| ensures nameOf(kept[i]) != nameOf(last) {
          NotAgain(le, nameOf, kept, i, init[|init| - 1], last, xs);
        }
      }
    }
  }

  lemma NotAgain<T(!new)>(
    le: (T, T) -> bool, nameOf: T -> string, kept: seq<T>, i: nat, before: T, last: T, xs: seq<T>)
    requires ByName(le, nameOf) && Sorted(le, kept) && i < |kept|
    requires |xs| >= 2 && xs[|xs| - 2] == before && xs[|xs| - 1] == last && Sorted(le, xs)
    requires nameOf(kept[|kept| - 1]) == nameOf(before) != nameOf(last)
    ensures nameOf(kept[i]) != nameOf(last)
  {
    var x := kept[i];
    StringLeTotal(nameOf(x), nameOf(x));
    assert le(x, kept[|kept| - 1]);
    assert le(before, last);
    StringLeTotal(nameOf(before), nameOf(last));
  }

  /** The first of those with the same name. */
  lemma {:induction false} DedupedFirst<T(!new)>(le: (T, T) -> bool, nameOf: T -> string, xs: seq<T>, x: T)
    requires ByName(le, nameOf) && Sorted(le, xs) && x in Deduped(nameOf, xs)
    ensures Ties(le, xs, x) != [] && Ties(le, xs, x)[0] == x
  {
    var init, last := xs[..|xs| - 1], xs[|xs| - 1];
    var kept := Deduped(nameOf, init);
    if x in kept {
      DedupedFirst(le, nameOf, init, x);
    } else {
      DedupedDistinct(le, nameOf, xs);
      StringLeTotal(nameOf(x), nameOf(x));
      assert x == last;
      NoTiesBefore(le, nameOf, xs);
    }
  }

  lemma {:induction false} NoTiesBefore<T(!new)>(le: (T, T) -> bool, nameOf: T -> string, xs: seq<T>)
    requires ByName(le, nameOf) && Sorted(le, xs) && xs != []
    requires |Deduped(nameOf, xs)| > |Deduped(nameOf, xs[..|xs| - 1])|
    ensures Ties(le, xs[..|xs| - 1], xs[|xs| - 1]) == []
  {
    var init, last := xs[..|xs| - 1], xs[|xs| - 1];
    forall y | y in init ensures !(le(y, last) && le(last, y)) {
      var i :| 0 <= i < |init| && init[i] == y;
      var before := init[|init| - 1];
      assert i < |init| - 1 ==> le(xs[i], xs[|xs| - 2]);
      assert le(xs[|xs| - 2], last);
      StringLeTotal(nameOf(y), nameOf(last));
      StringLeTotal(nameOf(before), nameOf(last));
    }
    NothingTies(le, init, last);
  }

  lemma {:induction false} NothingTies<T(!new)>(le: (T, T) -> bool, xs: seq<T>, k: T)
    requires forall y :: y in xs ==> !(le(y, k) && le(k, y))
    ensures Ties(le, xs, k) == []
  {
    if xs != [] {
      NothingTies(le, xs[..|xs| - 1], k);
    }
  }

  lemma {:induction false} ByLabelNames<T(!new)>(le: (T, T) -> bool, nameOf: T -> string, xs: seq<T>, name: string)
    requires ByName(le, nameOf)
    ensures HasName(nameOf, Deduped(nameOf, SortBy(le, xs)), name) <==> HasName(nameOf, xs, name)
  {
    ByNameOrder(le, nameOf);
    SortByMembers(le, xs);
    DedupedNames(nameOf, SortBy(le, xs), name);
    HasNameMembers(nameOf, SortBy(le, xs), xs, name);
    HasNameMembers(nameOf, xs, SortBy(le, xs), name);
  }

  /** Results come in label order, one for each label that was observed and no other,
      and it is the one that was observed first. */
  lemma {:induction false} ByLabelLaws<T(!new)>(le: (T, T) -> bool, nameOf: T -> string, xs: seq<T>)
    requires ByName(le, nameOf)
    ensures var r := Deduped(nameOf, SortBy(le, xs));
            && Sorted(le, r)
            && (forall i, j :: 0 <= i < j < |r| ==> nameOf(r[i]) != nameOf(r[j]))
            && (forall x :: x in r ==> Ties(le, xs, x) != [] && Ties(le, xs, x)[0] == x)
            && (forall name :: HasName(nameOf, r, name) <==> HasName(nameOf, xs, name))
  {
    forall name ensures HasName(nameOf, Deduped(nameOf, SortBy(le, xs)), name) <==> HasName(nameOf, xs, name) {
      ByLabelNames(le, nameOf, xs, name);
    }
    ByNameOrder(le, nameOf);
    SortByLaws(le, xs);
    DedupedSorted(le, nameOf, SortBy(le, xs));
    DedupedDistinct(le, nameOf, SortBy(le, xs));
    forall x | x in Deduped(nameOf, SortBy(le, xs)) ensures Ties(le, xs, x) != [] && Ties(le, xs, x)[0] == x {
      DedupedFirst(le, nameOf, SortBy(le, xs), x);
    }
  }

  // ------------------------------------------------------------------------ counts

  function Succeeded(ts: seq<TargetResult>): nat {
    if ts == [] then 0 else Succeeded(ts[..|ts| - 1]) + (if ts[|ts| - 1].success then 1 else 0)
  }

  function CountTargets(ts: seq<TargetResult>): TargetCounts {
    var succeeded := Succeeded(ts);
    SucceededBound(ts);
    TargetCounts(|ts|, succeeded, |ts| - succeeded)
  }

  lemma {:induction false} SucceededBound(ts: seq<TargetResult>)
    ensures Succeeded(ts) <= |ts|
  {
    if ts != [] {
      SucceededBound(ts[..|ts| - 1]);
    }
  }

  function AddTest(c: TestCounts, status: TestStatus): TestCounts {
    match status
    case Passed => c.(passed := c.passed + 1)
    case Failed => c.(failed := c.failed + 1)
    case Flaky => c.(flaky := c.flaky + 1)
    case Skipped => c.(skipped := c.skipped + 1)
    case TimedOut => c.(incomplete := c.incomplete + 1)
    case Incomplete => c.(incomplete := c.incomplete + 1)
    case RemoteOnly => c.(incomplete := c.incomplete + 1)
  }

  function CountTests(ts: seq<TestResult>): TestCounts {
    if ts == [] then TestCounts(0, 0, 0, 0, 0) else AddTest(CountTests(ts[..|ts| - 1]), ts[|ts| - 1].status)
  }

  /** Every test is counted once. */
  lemma {:induction false} TestsCountedOnce(ts: seq<TestResult>)
    ensures var c := CountTests(ts); c.passed + c.failed + c.flaky + c.skipped + c.incomplete == |ts|
  {
    if ts != [] {
      TestsCountedOnce(ts[..|ts| - 1]);
    }
  }

  method CountAllTests(ts: seq<TestResult>) returns (counts: TestCounts)
    ensures counts == CountTests(ts)
  {
    counts := TestCounts(0, 0, 0, 0, 0);
    for i := 0 to |ts|
      invariant counts == CountTests(ts[..i])
    {
      assert ts[..i + 1][..i] == ts[..i];
      counts := AddTest(counts, ts[i].status);
    }
    assert ts[..|ts|] == ts;
  }

  // ----------------------------------------------------------------------- summary

  /** How the exit code is shown. */
  function ExitText(exitCode: Option<int>): string {
    match exitCode
    case None => "None"
    case Some(code) => "Some(" + Decimal(code) + ")"
  }

  function BaseHeadline(exitCode: Option<int>, elapsedMs: nat): string {
    if exitCode == Some(0) then "Bazel completed successfully in " + Decimal(elapsedMs) + " ms"
    else "Bazel failed with exit code " + ExitText(exitCode)
  }

  /** Diagnostics found in the process output, which only failures are searched for. */
  datatype Output = Output(stdout: Bytes, stderr: Bytes, exitCode: Option<int>, elapsedMs: nat)

  type Parser = Bytes -> seq<Diagnostic>

  function WithText(parse: Parser, ds: seq<Diagnostic>, output: Output): seq<Diagnostic> {
    if output.exitCode == Some(0) then ds else ds + parse(output.stderr) + parse(output.stdout)
  }

  /** The summary of finished lists. */
  function Summarize(ds: seq<Diagnostic>, targets: seq<TargetResult>, tests: seq<TestResult>,
                     output: Output, truncated: bool, budget: Budget): InvocationSummary
  {
    Finalized(
      InvocationSummary(
        output.exitCode == Some(0), BaseHeadline(output.exitCode, output.elapsedMs), targets,
        CountTargets(targets), ds, tests, CountTests(tests), output.elapsedMs, truncated,
        if truncated then Some(InspectDiagnostics) else None),
      budget)
  }
}
