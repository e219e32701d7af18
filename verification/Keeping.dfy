/** What keeping entries does to a reducer's state: with enough room everything is
    kept, and however many entries come, what is held was paid for. */
module Keeping {
  import opened Base
  import opened Sorting
  import opened Summary
  import opened Artifacts
  import opened Events
  import opened Accumulator

  lemma {:induction false} KeepAllJoin(s: State, a: seq<Entry>, b: seq<Entry>)
    ensures KeepAll(s, a + b) == KeepAll(KeepAll(s, a), b)
    decreases |b|
  {
    if b == [] {
      assert a + b == a;
    } else {
      assert (a + b)[..|a + b| - 1] == a + b[..|b| - 1];
      KeepAllJoin(s, a, b[..|b| - 1]);
    }
  }

  lemma {:induction false} KeepAllSnoc(s: State, es: seq<Entry>, e: Entry)
    ensures KeepAll(s, es + [e]) == Keep(KeepAll(s, es), e)
  {
    assert (es + [e])[..|es|] == es;
  }

  lemma {:induction false} KeepAllCons(s: State, e: Entry, es: seq<Entry>)
    ensures KeepAll(s, [e] + es) == KeepAll(Keep(s, e), es)
  {
    KeepAllJoin(s, [e], es);
    assert [e][..0] == [];
    assert KeepAll(s, [e]) == Keep(s, e);
  }

  // ------------------------------------------------------------- with enough room

  function PutAll(c: Content, es: seq<Entry>): Content {
    if es == [] then c else Put(PutAll(c, es[..|es| - 1]), es[|es| - 1])
  }

  /** Running out of room is never forgotten; without it everything was kept. */
  lemma {:induction false} KeepAllGranted(s: State, es: seq<Entry>)
    requires !KeepAll(s, es).usage.truncated
    ensures !s.usage.truncated && KeepAll(s, es).content == PutAll(s.content, es)
  {
    if es != [] {
      KeepAllGranted(s, es[..|es| - 1]);
    }
  }

  lemma {:induction false} PutAllJoin(c: Content, a: seq<Entry>, b: seq<Entry>)
    ensures PutAll(c, a + b) == PutAll(PutAll(c, a), b)
    decreases |b|
  {
    if b == [] {
      assert a + b == a;
    } else {
      assert (a + b)[..|a + b| - 1] == a + b[..|b| - 1];
      PutAllJoin(c, a, b[..|b| - 1]);
    }
  }

  lemma {:induction false} PutAllCons(c: Content, e: Entry, es: seq<Entry>)
    ensures PutAll(c, [e] + es) == PutAll(Put(c, e), es)
  {
    PutAllJoin(c, [e], es);
    assert [e][..0] == [];
    assert PutAll(c, [e]) == Put(c, e);
  }

  // --------------------------------------------------------------------- the price

  function Sum<T>(cost: T -> nat, xs: seq<T>): nat {
    if xs == [] then 0 else Sum(cost, xs[..|xs| - 1]) + cost(xs[|xs| - 1])
  }

  lemma {:induction false} SumSnoc<T>(cost: T -> nat, xs: seq<T>, x: T)
    ensures Sum(cost, xs + [x]) == Sum(cost, xs) + cost(x)
  {
    assert (xs + [x])[..|xs|] == xs;
  }

  lemma {:induction false} SumInsert<T>(le: (T, T) -> bool, cost: T -> nat, xs: seq<T>, x: T)
    ensures Sum(cost, Insert(le, xs, x)) == Sum(cost, xs) + cost(x)
    ensures |Insert(le, xs, x)| == |xs| + 1
  {
    if xs == [] || le(xs[|xs| - 1], x) {
      SumSnoc(cost, xs, x);
      assert xs == [] ==> xs + [x] == [x];
    } else {
      SumInsert(le, cost, xs[..|xs| - 1], x);
      SumSnoc(cost, Insert(le, xs[..|xs| - 1], x), xs[|xs| - 1]);
    }
  }

  lemma {:induction false} SumUpdate<T>(cost: T -> nat, xs: seq<T>, i: nat, x: T)
    requires i < |xs| && cost(x) == cost(xs[i])
    ensures Sum(cost, xs[i := x]) == Sum(cost, xs)
  {
    var init := xs[..|xs| - 1];
    if i < |init| {
      SumUpdate(cost, init, i, x);
      assert xs[i := x][..|xs| - 1] == init[i := x];
    } else {
      assert xs[i := x][..|xs| - 1] == init;
    }
  }

  /** The price of everything in a map. */
  ghost function MapSum<T>(cost: (string, T) -> nat, m: map<string, T>): nat
    decreases |m|
  {
    if m == map[] then 0
    else
      var k :| k in m;
      cost(k, m[k]) + MapSum(cost, m - {k})
  }

  /** Any key may be taken out first. */
  lemma {:induction false} MapSumTake<T>(cost: (string, T) -> nat, m: map<string, T>, k: string)
    requires k in m
    ensures MapSum(cost, m) == cost(k, m[k]) + MapSum(cost, m - {k})
    decreases |m|
  {
    var first :| first in m && MapSum(cost, m) == cost(first, m[first]) + MapSum(cost, m - {first});
    if first != k {
      MapSumTake(cost, m - {first}, k);
      MapSumTake(cost, m - {k}, first);
      assert m - {first} - {k} == m - {k} - {first};
    }
  }

  lemma {:induction false} MapSumPut<T>(cost: (string, T) -> nat, m: map<string, T>, k: string, v: T)
    ensures MapSum(cost, m[k := v]) <= MapSum(cost, m) + cost(k, v)
  {
    MapSumTake(cost, m[k := v], k);
    assert m[k := v] - {k} == m - {k};
    if k in m {
      MapSumTake(cost, m, k);
    } else {
      assert m - {k} == m;
    }
  }

  function DiagnosticBytes(d: Diagnostic): nat {
    |d.message| + OptionBytes(d.target) + OptionBytes(d.action)
  }

  function TargetBytes(t: TargetResult): nat {
    |t.name|
  }

  function TestBytes(t: TestResult): nat {
    |t.name| + OptionBytes(t.logUnavailable)
  }

  function AttemptBytes(a: Attempts): nat {
    |a.name|
  }

  function SetItems(id: string, named: NamedSet<Artifact>): nat {
    1 + |named.files| + |named.children|
  }

  function SetBytes(id: string, named: NamedSet<Artifact>): nat {
    |id| + ArtifactBytes(named.files) + TextBytes(named.children)
  }

  /** Everything a reducer holds, in items and in bytes of text. */
  ghost function HeldItems(c: Content): nat {
    |c.diagnostics| + |c.targets| + |c.tests| + |c.attempts| + |c.roots| + |c.direct|
    + MapSum(SetItems, c.namedSets) + (if c.arguments.Some? then |c.arguments.value| else 0)
  }

  ghost function HeldBytes(c: Content): nat {
    Sum(DiagnosticBytes, c.diagnostics) + Sum(TargetBytes, c.targets) + Sum(TestBytes, c.tests)
    + Sum(AttemptBytes, c.attempts) + TextBytes(c.roots) + ArtifactBytes(c.direct)
    + MapSum(SetBytes, c.namedSets) + (if c.arguments.Some? then TextBytes(c.arguments.value) else 0)
  }

  lemma {:induction false} PutAttemptHeld(c: Content, name: string, status: TestStatus)
    ensures
      var after, first := Put(c, KeepAttempt(name, status)).attempts, FindAttempt(c.attempts, name).None?;
      && |after| == |c.attempts| + (if first then 1 else 0)
      && Sum(AttemptBytes, after) == Sum(AttemptBytes, c.attempts) + (if first then |name| else 0)
  {
    var at := FindAttempt(c.attempts, name);
    if at.Some? {
      SumUpdate(AttemptBytes, c.attempts, at.value, ObserveAttempt(c.attempts[at.value], status));
    } else {
      SumInsert(AttemptsLe, AttemptBytes, c.attempts,
                ObserveAttempt(Attempts(name, false, false, false, 0), status));
    }
  }

  lemma {:induction false} MapSumNew<T>(cost: (string, T) -> nat, m: map<string, T>, k: string, v: T)
    requires k !in m
    ensures MapSum(cost, m[k := v]) == MapSum(cost, m) + cost(k, v)
  {
    MapSumTake(cost, m[k := v], k);
    assert m[k := v] - {k} == m;
  }

  lemma {:induction false} NewSetCharged(c: Content, id: string, named: NamedSet<Artifact>)
    requires id !in c.namedSets
    ensures
      var price := Cost(c, KeepSet(id, named)).value;
      && HeldItems(Put(c, KeepSet(id, named))) == HeldItems(c) + price.0
      && HeldBytes(Put(c, KeepSet(id, named))) == HeldBytes(c) + price.1
  {
    MapSumNew(SetItems, c.namedSets, id, named);
    MapSumNew(SetBytes, c.namedSets, id, named);
  }

  lemma {:induction false} PutListed(c: Content, e: Entry)
    requires e.KeepDiagnostic? || e.KeepTarget? || e.KeepTest? || e.KeepRoot? || e.KeepArtifact?
    ensures
      var price := Cost(c, e).value;
      HeldItems(Put(c, e)) == HeldItems(c) + price.0 && HeldBytes(Put(c, e)) == HeldBytes(c) + price.1
  {
    match e
    case KeepDiagnostic(d) => SumSnoc(DiagnosticBytes, c.diagnostics, d);
    case KeepTarget(t) => SumSnoc(TargetBytes, c.targets, t);
    case KeepTest(t) => SumSnoc(TestBytes, c.tests, t);
    case KeepRoot(id) => assert (c.roots + [id])[..|c.roots|] == c.roots;
    case KeepArtifact(a) => assert (c.direct + [a])[..|c.direct|] == c.direct;
  }

  /** Everything but a set that is defined again is charged at its size. */
  lemma {:induction false} PutCharged(c: Content, e: Entry)
    requires e.KeepSet? ==> e.id !in c.namedSets
    ensures
      var price := Cost(c, e);
      && HeldItems(Put(c, e)) == HeldItems(c) + (if price.Some? then price.value.0 else 0)
      && HeldBytes(Put(c, e)) == HeldBytes(c) + (if price.Some? then price.value.1 else 0)
  {
    if e.KeepDiagnostic? || e.KeepTarget? || e.KeepTest? || e.KeepRoot? || e.KeepArtifact? {
      PutListed(c, e);
    } else if e.KeepAttempt? {
      PutAttemptHeld(c, e.name, e.status);
    } else if e.KeepSet? {
      NewSetCharged(c, e.id, e.named);
    }
  }

  /** Putting an entry in adds at most its price. */
  lemma {:induction false} PutHeld(c: Content, e: Entry)
    ensures
      var price := Cost(c, e);
      && HeldItems(Put(c, e)) <= HeldItems(c) + (if price.Some? then price.value.0 else 0)
      && HeldBytes(Put(c, e)) <= HeldBytes(c) + (if price.Some? then price.value.1 else 0)
  {
    if e.KeepSet? {
      PutSetHeld(c, e.id, e.named);
    } else {
      PutCharged(c, e);
    }
  }

  lemma {:induction false} PutSetHeld(c: Content, id: string, named: NamedSet<Artifact>)
    ensures
      var price := Cost(c, KeepSet(id, named)).value;
      && HeldItems(Put(c, KeepSet(id, named))) <= HeldItems(c) + price.0
      && HeldBytes(Put(c, KeepSet(id, named))) <= HeldBytes(c) + price.1
  {
    MapSumPut(SetItems, c.namedSets, id, named);
    MapSumPut(SetBytes, c.namedSets, id, named);
  }

  /** What is held was paid for, and no more than the limits was ever paid. */
  ghost predicate PaidFor(s: State) {
    && HeldItems(s.content) <= s.usage.items <= STREAM_MAX_ITEMS
    && HeldBytes(s.content) <= s.usage.bytes <= STREAM_MAX_RETAINED_BYTES
  }

  lemma {:induction false} GrantPaidFor(s: State, price: Option<(nat, nat)>, after: Content)
    requires PaidFor(s)
    requires HeldItems(after) <= HeldItems(s.content) + (if price.Some? then price.value.0 else 0)
    requires HeldBytes(after) <= HeldBytes(s.content) + (if price.Some? then price.value.1 else 0)
    ensures PaidFor(Grant(s, price, after))
  {
  }

  lemma {:induction false} KeepPaidFor(s: State, e: Entry)
    requires PaidFor(s)
    ensures PaidFor(Keep(s, e))
  {
    PutHeld(s.content, e);
    GrantPaidFor(s, Cost(s.content, e), Put(s.content, e));
  }

  lemma {:induction false} KeepAllPaidFor(s: State, es: seq<Entry>)
    requires PaidFor(s)
    ensures PaidFor(KeepAll(s, es))
  {
    if es != [] {
      KeepAllPaidFor(s, es[..|es| - 1]);
      KeepPaidFor(KeepAll(s, es[..|es| - 1]), es[|es| - 1]);
    }
  }

  /** However long the stream, everything the reducer holds, overwritten sets and the
      arguments included, is within 250000 items and 64 MiB of text. */
  lemma {:induction false} StreamBounded(events: seq<BuildEvent>)
    ensures PaidFor(ObserveAll(events))
    ensures HeldItems(ObserveAll(events).content) <= 250_000
    ensures HeldBytes(ObserveAll(events).content) <= 64 * 1024 * 1024
  {
    if events != [] {
      StreamBounded(events[..|events| - 1]);
      KeepAllPaidFor(ObserveAll(events[..|events| - 1]), Entries(events[|events| - 1]));
    }
  }
}
