/** Merging repeated diagnostics. Diagnostics with the same key are one; the target is
    part of the key except for failed actions, where one command repeated for many
    targets should be reported once. */
module Diagnostics {
  import opened Base
  import opened Summary

  datatype Key = Key(
    severity: Severity, category: Category, message: string, location: Option<Location>,
    target: Option<string>, action: Option<string>)

  function KeyOf(d: Diagnostic): Key {
    Key(d.severity, d.category, d.message, d.location, if d.category.Action? then None else d.target, d.action)
  }

  function SatAdd32(a: U32, b: U32): U32 {
    if a + b > U32_MAX then U32_MAX else a + b
  }

  // ------------------------------------------------------------------ the meaning

  /** How often a key was reported, over all its diagnostics. */
  function Repetitions(ds: seq<Diagnostic>, key: Key): nat {
    if ds == [] then 0
    else
      var last := ds[|ds| - 1];
      Repetitions(ds[..|ds| - 1], key) + (if KeyOf(last) == key then last.count else 0)
  }

  function Cap32(n: nat): U32 {
    if n > U32_MAX then U32_MAX else n
  }

  predicate HasKey(ds: seq<Diagnostic>, key: Key) {
    exists i :: 0 <= i < |ds| && KeyOf(ds[i]) == key
  }

  /** Two diagnostics of the key name different targets. */
  predicate Disagree(ds: seq<Diagnostic>, key: Key) {
    exists i, j :: 0 <= i < |ds| && 0 <= j < |ds| &&
      KeyOf(ds[i]) == key && KeyOf(ds[j]) == key && ds[i].target != ds[j].target
  }

  predicate First(ds: seq<Diagnostic>, i: nat)
    requires i < |ds|
  {
    !HasKey(ds[..i], KeyOf(ds[i]))
  }

  /** What a first diagnostic becomes once its whole group is known. */
  function Merged(ds: seq<Diagnostic>, d: Diagnostic): Diagnostic {
    d.(count := Cap32(Repetitions(ds, KeyOf(d))),
       target := if Disagree(ds, KeyOf(d)) then None else d.target)
  }

  /** The merged firsts among the first `n` diagnostics, in order. */
  function MergedUpto(ds: seq<Diagnostic>, n: nat): seq<Diagnostic>
    requires n <= |ds|
  {
    if n == 0 then []
    else if First(ds, n - 1) then MergedUpto(ds, n - 1) + [Merged(ds, ds[n - 1])]
    else MergedUpto(ds, n - 1)
  }

  function Deduplicated(ds: seq<Diagnostic>): seq<Diagnostic> {
    MergedUpto(ds, |ds|)
  }

  // ---------------------------------------------------------------- the algorithm

  /** One of the first `n` diagnostics shares the key of the one at `i` but not its target. */
  predicate Differs(ds: seq<Diagnostic>, n: nat, i: nat)
    requires i < |ds| && n <= |ds|
  {
    exists j :: 0 <= j < n && KeyOf(ds[j]) == KeyOf(ds[i]) && ds[j].target != ds[i].target
  }

  /** What is noted about the diagnostic at `i` after `n` were looked at. */
  predicate Tracked(ds: seq<Diagnostic>, n: nat, i: nat, count: U32, retained: bool, clear: bool)
    requires i < n <= |ds|
  {
    && retained == First(ds, i)
    && (retained ==> count == Cap32(Repetitions(ds[..n], KeyOf(ds[i]))) && clear == Differs(ds, n, i))
  }

  ghost predicate Indexed(ds: seq<Diagnostic>, n: nat, positions: map<Key, nat>)
    requires n <= |ds|
  {
    && (forall k :: k in positions <==> HasKey(ds[..n], k))
    && (forall k :: k in positions ==> positions[k] < n && First(ds, positions[k]) && KeyOf(ds[positions[k]]) == k)
  }

  lemma TrackedMiss(ds: seq<Diagnostic>, n: nat, i: nat, count: U32, retained: bool, clear: bool)
    requires i < n < |ds| && Tracked(ds, n, i, count, retained, clear)
    requires KeyOf(ds[n]) != KeyOf(ds[i]) || !First(ds, i)
    ensures Tracked(ds, n + 1, i, count, retained, clear)
  {
    assert ds[..n + 1][..n] == ds[..n];
  }

  lemma TrackedHit(ds: seq<Diagnostic>, n: nat, i: nat, count: U32, clear: bool)
    requires i < n < |ds| && Tracked(ds, n, i, count, true, clear) && KeyOf(ds[n]) == KeyOf(ds[i])
    ensures Tracked(ds, n + 1, i, SatAdd32(count, ds[n].count), true, clear || ds[n].target != ds[i].target)
  {
    assert ds[..n + 1][..n] == ds[..n];
  }

  lemma {:induction false} NoRepetitions(ds: seq<Diagnostic>, key: Key)
    requires !HasKey(ds, key)
    ensures Repetitions(ds, key) == 0
  {
    if ds != [] {
      assert KeyOf(ds[|ds| - 1]) != key;
      assert forall i :: 0 <= i < |ds| - 1 ==> ds[..|ds| - 1][i] == ds[i];
      NoRepetitions(ds[..|ds| - 1], key);
    }
  }

  lemma TrackedNew(ds: seq<Diagnostic>, n: nat)
    requires n < |ds| && First(ds, n)
    ensures Tracked(ds, n + 1, n, ds[n].count, true, false)
  {
    assert ds[..n + 1][..n] == ds[..n];
    NoRepetitions(ds[..n], KeyOf(ds[n]));
    assert forall j :: 0 <= j < n ==> ds[..n][j] == ds[j];
  }

  lemma HasKeySnoc(ds: seq<Diagnostic>, n: nat, k: Key)
    requires n < |ds|
    ensures HasKey(ds[..n + 1], k) <==> HasKey(ds[..n], k) || KeyOf(ds[n]) == k
  {
    if HasKey(ds[..n], k) {
      var i :| 0 <= i < n && KeyOf(ds[..n][i]) == k;
      assert ds[..n + 1][i] == ds[..n][i];
    }
    if HasKey(ds[..n + 1], k) && KeyOf(ds[n]) != k {
      var i :| 0 <= i < n + 1 && KeyOf(ds[..n + 1][i]) == k;
      assert ds[..n][i] == ds[i];
    }
    assert ds[..n + 1][n] == ds[n];
  }

  lemma IndexedStep(ds: seq<Diagnostic>, n: nat, positions: map<Key, nat>)
    requires n < |ds| && Indexed(ds, n, positions)
    ensures KeyOf(ds[n]) in positions ==> !First(ds, n) && Indexed(ds, n + 1, positions)
    ensures KeyOf(ds[n]) !in positions ==> First(ds, n) && Indexed(ds, n + 1, positions[KeyOf(ds[n]) := n])
  {
    forall k ensures HasKey(ds[..n + 1], k) <==> HasKey(ds[..n], k) || KeyOf(ds[n]) == k {
      HasKeySnoc(ds, n, k);
    }
  }

  /** The notes on the first `n` diagnostics. */
  predicate AllTracked(
    ds: seq<Diagnostic>, n: nat, counts: seq<U32>, retained: seq<bool>, clear: seq<bool>)
    requires n <= |ds|
  {
    && |counts| == |retained| == |clear| == |ds|
    && (forall i :: 0 <= i < n ==> Tracked(ds, n, i, counts[i], retained[i], clear[i]))
    && (forall i :: n <= i < |ds| ==> !retained[i] && !clear[i])
  }

  lemma TrackRepeat(ds: seq<Diagnostic>, n: nat, p: nat, counts: seq<U32>, retained: seq<bool>, clear: seq<bool>)
    requires n < |ds| && AllTracked(ds, n, counts, retained, clear)
    requires p < n && First(ds, p) && KeyOf(ds[p]) == KeyOf(ds[n]) && !First(ds, n)
    ensures AllTracked(ds, n + 1, counts[p := SatAdd32(counts[p], ds[n].count)], retained,
                       clear[p := clear[p] || ds[n].target != ds[p].target])
  {
    var counts', clear' := counts[p := SatAdd32(counts[p], ds[n].count)],
                           clear[p := clear[p] || ds[n].target != ds[p].target];
    forall i | 0 <= i < n ensures Tracked(ds, n + 1, i, counts'[i], retained[i], clear'[i]) {
      if i == p {
        TrackedHit(ds, n, i, counts[i], clear[i]);
      } else {
        if First(ds, i) { FirstsDiffer(ds, i, p); }
        TrackedMiss(ds, n, i, counts[i], retained[i], clear[i]);
      }
    }
  }

  lemma FirstsDiffer(ds: seq<Diagnostic>, i: nat, j: nat)
    requires i < |ds| && j < |ds| && i != j && First(ds, i) && First(ds, j)
    ensures KeyOf(ds[i]) != KeyOf(ds[j])
  {
    assert i < j ==> ds[..j][i] == ds[i];
    assert j < i ==> ds[..i][j] == ds[j];
  }

  lemma TrackNew(ds: seq<Diagnostic>, n: nat, counts: seq<U32>, retained: seq<bool>, clear: seq<bool>)
    requires n < |ds| && AllTracked(ds, n, counts, retained, clear) && First(ds, n)
    ensures AllTracked(ds, n + 1, counts[n := ds[n].count], retained[n := true], clear)
  {
    forall i | 0 <= i < n ensures Tracked(ds, n + 1, i, counts[i], retained[i], clear[i]) {
      if First(ds, i) { FirstsDiffer(ds, i, n); }
      TrackedMiss(ds, n, i, counts[i], retained[i], clear[i]);
    }
    TrackedNew(ds, n);
  }

  /** A group disagrees exactly when some member differs from its first. */
  lemma DisagreeWithFirst(ds: seq<Diagnostic>, i: nat)
    requires i < |ds|
    ensures Disagree(ds, KeyOf(ds[i])) <==> Differs(ds, |ds|, i)
  {
    if Disagree(ds, KeyOf(ds[i])) {
      var a, b :| 0 <= a < |ds| && 0 <= b < |ds| && KeyOf(ds[a]) == KeyOf(ds[i]) && KeyOf(ds[b]) == KeyOf(ds[i]) &&
        ds[a].target != ds[b].target;
      assert ds[a].target != ds[i].target || ds[b].target != ds[i].target;
    }
  }

  lemma TrackedIsMerged(ds: seq<Diagnostic>, i: nat, count: U32, clear: bool)
    requires i < |ds| && Tracked(ds, |ds|, i, count, true, clear)
    ensures ds[i].(count := count, target := if clear then None else ds[i].target) == Merged(ds, ds[i])
  {
    assert ds[..|ds|] == ds;
    DisagreeWithFirst(ds, i);
  }

  /** One round of the first loop: counts the diagnostic at `index` with its group. */
  method Count(ds: seq<Diagnostic>, index: nat, positions: map<Key, nat>,
               repetitionCounts: array<U32>, retained: array<bool>, clearTargets: array<bool>)
    returns (now: map<Key, nat>)
    requires index < |ds| && Indexed(ds, index, positions)
    requires AllTracked(ds, index, repetitionCounts[..], retained[..], clearTargets[..])
    requires retained != clearTargets
    modifies repetitionCounts, retained, clearTargets
    ensures Indexed(ds, index + 1, now)
    ensures AllTracked(ds, index + 1, repetitionCounts[..], retained[..], clearTargets[..])
  {
    var diagnostic := ds[index];
    var key := KeyOf(diagnostic);
    IndexedStep(ds, index, positions);
    now := positions;
    if key in positions {
      var firstIndex := positions[key];
      TrackRepeat(ds, index, firstIndex, repetitionCounts[..], retained[..], clearTargets[..]);
      if diagnostic.category.Action? && ds[firstIndex].target != diagnostic.target {
        clearTargets[firstIndex] := true;
      }
      repetitionCounts[firstIndex] := SatAdd32(repetitionCounts[firstIndex], diagnostic.count);
      assert retained[..] == old(retained[..]);
      assert clearTargets[..] == old(clearTargets[..])[
        firstIndex := old(clearTargets[firstIndex]) || diagnostic.target != ds[firstIndex].target];
    } else {
      TrackNew(ds, index, repetitionCounts[..], retained[..], clearTargets[..]);
      now := positions[key := index];
      repetitionCounts[index] := diagnostic.count;
      retained[index] := true;
      assert clearTargets[..] == old(clearTargets[..]);
    }
  }

  /** The second loop: keeps the firsts and writes the notes into them. */
  method Retain(ds: seq<Diagnostic>, repetitionCounts: seq<U32>, retained: seq<bool>, clearTargets: seq<bool>)
    returns (r: seq<Diagnostic>)
    requires AllTracked(ds, |ds|, repetitionCounts, retained, clearTargets)
    ensures r == Deduplicated(ds)
  {
    r := [];
    for current := 0 to |ds|
      invariant r == MergedUpto(ds, current)
    {
      assert Tracked(ds, |ds|, current, repetitionCounts[current], retained[current], clearTargets[current]);
      if retained[current] {
        TrackedIsMerged(ds, current, repetitionCounts[current], clearTargets[current]);
        var diagnostic := ds[current].(count := repetitionCounts[current]);
        if clearTargets[current] {
          diagnostic := diagnostic.(target := None);
        }
        r := r + [diagnostic];
      }
    }
  }

  /** `deduplicate_diagnostics`. */
  method DeduplicateDiagnostics(diagnostics: seq<Diagnostic>) returns (r: seq<Diagnostic>)
    ensures r == Deduplicated(diagnostics)
  {
    var n := |diagnostics|;
    var positions: map<Key, nat> := map[];
    var repetitionCounts := new U32[n](i => 0);
    var retained := new bool[n](i => false);
    var clearTargets := new bool[n](i => false);
    for index := 0 to n
      invariant Indexed(diagnostics, index, positions)
      invariant AllTracked(diagnostics, index, repetitionCounts[..], retained[..], clearTargets[..])
    {
      positions := Count(diagnostics, index, positions, repetitionCounts, retained, clearTargets);
    }
    r := Retain(diagnostics, repetitionCounts[..], retained[..], clearTargets[..]);
  }

  // ------------------------------------------------------------------------- laws

  predicate DistinctKeys(ds: seq<Diagnostic>) {
    forall i, j :: 0 <= i < j < |ds| ==> KeyOf(ds[i]) != KeyOf(ds[j])
  }

  /** Only the targets of actions may disagree. */
  lemma MergedKey(ds: seq<Diagnostic>, d: Diagnostic)
    ensures KeyOf(Merged(ds, d)) == KeyOf(d)
  {
    if Disagree(ds, KeyOf(d)) {
      var i, j :| 0 <= i < |ds| && 0 <= j < |ds| &&
        KeyOf(ds[i]) == KeyOf(d) && KeyOf(ds[j]) == KeyOf(d) && ds[i].target != ds[j].target;
      assert KeyOf(ds[i]).category == KeyOf(ds[j]).category && KeyOf(ds[i]).target == KeyOf(ds[j]).target;
    }
  }

  lemma {:induction false} MergedUptoKeys(ds: seq<Diagnostic>, n: nat)
    requires n <= |ds|
    ensures DistinctKeys(MergedUpto(ds, n))
    ensures forall k :: HasKey(MergedUpto(ds, n), k) <==> HasKey(ds[..n], k)
  {
    if n > 0 {
      MergedUptoKeys(ds, n - 1);
      MergedKey(ds, ds[n - 1]);
      forall k ensures HasKey(MergedUpto(ds, n), k) <==> HasKey(ds[..n], k) {
        HasKeySnoc(ds, n - 1, k);
        if First(ds, n - 1) {
          AppendKey(MergedUpto(ds, n - 1), Merged(ds, ds[n - 1]), k);
        }
      }
    }
  }

  lemma AppendKey(ds: seq<Diagnostic>, d: Diagnostic, k: Key)
    ensures HasKey(ds + [d], k) <==> HasKey(ds, k) || KeyOf(d) == k
  {
    assert (ds + [d])[..|ds|] == ds && (ds + [d])[..|ds| + 1] == ds + [d];
    HasKeySnoc(ds + [d], |ds|, k);
  }

  /** The same report: everything agrees but the count and, for an action, the target. */
  predicate Alike(a: Diagnostic, b: Diagnostic) {
    && a.severity == b.severity && a.category == b.category && a.message == b.message
    && a.location == b.location && a.action == b.action
    && (a.category.Action? || a.target == b.target)
  }

  predicate NoneAlike(ds: seq<Diagnostic>) {
    forall i, j :: 0 <= i < j < |ds| ==> !Alike(ds[i], ds[j])
  }

  predicate HasAlike(ds: seq<Diagnostic>, d: Diagnostic) {
    exists i :: 0 <= i < |ds| && Alike(ds[i], d)
  }

  lemma KeyExactly(a: Diagnostic, b: Diagnostic)
    ensures KeyOf(a) == KeyOf(b) <==> Alike(a, b)
  {
  }

  lemma {:induction false} DistinctExactly(ds: seq<Diagnostic>)
    ensures DistinctKeys(ds) <==> NoneAlike(ds)
  {
    forall i, j | 0 <= i < j < |ds| ensures KeyOf(ds[i]) == KeyOf(ds[j]) <==> Alike(ds[i], ds[j]) {
      KeyExactly(ds[i], ds[j]);
    }
  }

  lemma {:induction false} HasKeyExactly(ds: seq<Diagnostic>, d: Diagnostic)
    ensures HasKey(ds, KeyOf(d)) <==> HasAlike(ds, d)
  {
    forall i | 0 <= i < |ds| ensures KeyOf(ds[i]) == KeyOf(d) <==> Alike(ds[i], d) {
      KeyExactly(ds[i], d);
    }
  }

  /** No two diagnostics of the result are alike, and it has one like each reported and no
      other. */
  lemma DeduplicatedKeys(ds: seq<Diagnostic>)
    ensures DistinctKeys(Deduplicated(ds)) && NoneAlike(Deduplicated(ds))
    ensures forall k :: HasKey(Deduplicated(ds), k) <==> HasKey(ds, k)
    ensures forall d :: HasAlike(Deduplicated(ds), d) <==> HasAlike(ds, d)
  {
    MergedUptoKeys(ds, |ds|);
    assert ds[..|ds|] == ds;
    DistinctExactly(Deduplicated(ds));
    forall d ensures HasAlike(Deduplicated(ds), d) <==> HasAlike(ds, d) {
      HasKeyExactly(Deduplicated(ds), d);
      HasKeyExactly(ds, d);
    }
  }

  /** The reports like `d`, counted with their repetitions. */
  function CountAlike(ds: seq<Diagnostic>, d: Diagnostic): nat {
    if ds == [] then 0
    else
      var last := ds[|ds| - 1];
      CountAlike(ds[..|ds| - 1], d) + (if Alike(last, d) then last.count else 0)
  }

  lemma {:induction false} CountAlikeExactly(ds: seq<Diagnostic>, d: Diagnostic)
    ensures Repetitions(ds, KeyOf(d)) == CountAlike(ds, d)
  {
    if ds != [] {
      CountAlikeExactly(ds[..|ds| - 1], d);
      KeyExactly(ds[|ds| - 1], d);
    }
  }

  /** What the first of several alike becomes: their repetitions add up to the largest
      32-bit number at most, and targets that differ are dropped. */
  predicate Stands(ds: seq<Diagnostic>, i: nat, r: Diagnostic)
    requires i < |ds|
  {
    && (forall j :: 0 <= j < i ==> !Alike(ds[j], ds[i]))
    && r == ds[i].(
         count := if CountAlike(ds, ds[i]) > 0xFFFF_FFFF then 0xFFFF_FFFF else CountAlike(ds, ds[i]),
         target := if exists j :: 0 <= j < |ds| && Alike(ds[j], ds[i]) && ds[j].target != ds[i].target then None
                   else ds[i].target)
  }

  lemma {:induction false} MergedStands(ds: seq<Diagnostic>, i: nat)
    requires i < |ds| && First(ds, i)
    ensures Stands(ds, i, Merged(ds, ds[i]))
  {
    CountAlikeExactly(ds, ds[i]);
    DisagreeWithFirst(ds, i);
    forall j | 0 <= j < |ds| ensures KeyOf(ds[j]) == KeyOf(ds[i]) <==> Alike(ds[j], ds[i]) {
      KeyExactly(ds[j], ds[i]);
    }
    forall j | 0 <= j < i ensures !Alike(ds[j], ds[i]) {
      assert ds[..i][j] == ds[j];
    }
  }

  /** Each result stands for those like the diagnostic at its index, in order. */
  predicate AllStand(ds: seq<Diagnostic>, firsts: seq<nat>, n: nat, rs: seq<Diagnostic>) {
    && n <= |ds| && |firsts| == |rs|
    && (forall k :: 0 <= k < |firsts| ==> firsts[k] < n)
    && (forall k, l :: 0 <= k < l < |firsts| ==> firsts[k] < firsts[l])
    && (forall k :: 0 <= k < |firsts| ==> Stands(ds, firsts[k], rs[k]))
  }

  lemma {:induction false} OneMoreStands(
    ds: seq<Diagnostic>, firsts: seq<nat>, n: nat, rs: seq<Diagnostic>, r: Diagnostic)
    requires AllStand(ds, firsts, n, rs) && n < |ds| && Stands(ds, n, r)
    ensures AllStand(ds, firsts + [n], n + 1, rs + [r])
  {
  }

  lemma StillStand(ds: seq<Diagnostic>, firsts: seq<nat>, n: nat, rs: seq<Diagnostic>)
    requires AllStand(ds, firsts, n, rs) && n < |ds|
    ensures AllStand(ds, firsts, n + 1, rs)
  {
  }

  lemma {:induction false} MergedExactly(ds: seq<Diagnostic>, n: nat) returns (firsts: seq<nat>)
    requires n <= |ds|
    ensures AllStand(ds, firsts, n, MergedUpto(ds, n))
  {
    if n == 0 {
      firsts := [];
    } else {
      var before := MergedExactly(ds, n - 1);
      if First(ds, n - 1) {
        MergedStands(ds, n - 1);
        OneMoreStands(ds, before, n - 1, MergedUpto(ds, n - 1), Merged(ds, ds[n - 1]));
        firsts := before + [n - 1];
      } else {
        StillStand(ds, before, n - 1, MergedUpto(ds, n - 1));
        firsts := before;
      }
    }
  }

  /** Every diagnostic of the result stands for all that are like it, in the order in
      which the first of them were reported. */
  lemma DeduplicatedExactly(ds: seq<Diagnostic>) returns (firsts: seq<nat>)
    ensures AllStand(ds, firsts, |ds|, Deduplicated(ds))
  {
    firsts := MergedExactly(ds, |ds|);
  }

  lemma {:induction false} OwnRepetitions(ds: seq<Diagnostic>, i: nat)
    requires DistinctKeys(ds) && i < |ds|
    ensures Repetitions(ds, KeyOf(ds[i])) == ds[i].count
  {
    var init := ds[..|ds| - 1];
    if i < |ds| - 1 {
      OwnRepetitions(init, i);
    } else {
      NoRepetitions(init, KeyOf(ds[i]));
    }
  }

  lemma {:induction false} DistinctUpto(ds: seq<Diagnostic>, n: nat)
    requires DistinctKeys(ds) && n <= |ds|
    ensures MergedUpto(ds, n) == ds[..n]
  {
    if n > 0 {
      DistinctUpto(ds, n - 1);
      var d := ds[n - 1];
      OwnRepetitions(ds, n - 1);
      assert Merged(ds, d) == d;
      assert ds[..n] == ds[..n - 1] + [d];
    }
  }

  /** Nothing is left to merge once keys are distinct. */
  lemma DistinctStays(ds: seq<Diagnostic>)
    requires DistinctKeys(ds)
    ensures Deduplicated(ds) == ds
  {
    DistinctUpto(ds, |ds|);
    assert ds[..|ds|] == ds;
  }

  // ----------------------------------------------------------------- conservation

  function Total(ds: seq<Diagnostic>): nat {
    if ds == [] then 0 else Total(ds[..|ds| - 1]) + ds[|ds| - 1].count
  }

  /** The repetitions in the first `m` of the keys that first appear in the first `n`. */
  function GroupTotal(ds: seq<Diagnostic>, n: nat, m: nat): nat
    requires n <= |ds| && m <= |ds|
  {
    if n == 0 then 0
    else GroupTotal(ds, n - 1, m) + (if First(ds, n - 1) then Repetitions(ds[..m], KeyOf(ds[n - 1])) else 0)
  }

  lemma {:induction false} GroupTotalNext(ds: seq<Diagnostic>, n: nat, m: nat)
    requires n <= |ds| && m < |ds|
    ensures GroupTotal(ds, n, m + 1)
         == GroupTotal(ds, n, m) + (if HasKey(ds[..n], KeyOf(ds[m])) then ds[m].count else 0)
  {
    if n > 0 {
      GroupTotalNext(ds, n - 1, m);
      HasKeySnoc(ds, n - 1, KeyOf(ds[m]));
      assert ds[..m + 1][..m] == ds[..m];
    }
  }

  lemma {:induction false} GroupsCoverAll(ds: seq<Diagnostic>, n: nat)
    requires n <= |ds|
    ensures GroupTotal(ds, n, n) == Total(ds[..n])
  {
    if n > 0 {
      GroupsCoverAll(ds, n - 1);
      GroupTotalNext(ds, n - 1, n - 1);
      var key := KeyOf(ds[n - 1]);
      assert ds[..n][..n - 1] == ds[..n - 1];
      if First(ds, n - 1) {
        NoRepetitions(ds[..n - 1], key);
      }
    }
  }

  lemma {:induction false} MergedTotal(ds: seq<Diagnostic>, n: nat)
    requires n <= |ds| && Total(ds) <= U32_MAX
    ensures Total(MergedUpto(ds, n)) == GroupTotal(ds, n, |ds|)
  {
    if n > 0 {
      MergedTotal(ds, n - 1);
      assert ds[..|ds|] == ds;
      if First(ds, n - 1) {
        RepetitionsBound(ds, KeyOf(ds[n - 1]));
        var before, m := MergedUpto(ds, n - 1), Merged(ds, ds[n - 1]);
        assert (before + [m])[..|before|] == before;
      }
    }
  }

  lemma {:induction false} RepetitionsBound(ds: seq<Diagnostic>, key: Key)
    ensures Repetitions(ds, key) <= Total(ds)
  {
    if ds != [] {
      RepetitionsBound(ds[..|ds| - 1], key);
    }
  }

  /** No report is lost or counted twice, as long as the counter does not saturate. */
  lemma {:induction false} CountsConserved(ds: seq<Diagnostic>)
    requires Total(ds) <= U32_MAX
    ensures Total(Deduplicated(ds)) == Total(ds)
  {
    MergedTotal(ds, |ds|);
    GroupsCoverAll(ds, |ds|);
    assert ds[..|ds|] == ds;
  }
}
