/** Output files of a build. Files arrive directly or through named sets, which refer
    to one another by id: the graph may have cycles and ids nobody defined. */
module Artifacts {
  import opened Base

  datatype ArtifactKind = File | Directory | TestLog | Coverage | Remote

  datatype Artifact = Artifact(
    name: string, kind: ArtifactKind, uri: string, sizeBytes: Option<nat>, locallyAvailable: bool)

  datatype NamedSet<T> = NamedSet(files: seq<T>, children: seq<string>)

  type NamedSets<T> = map<string, NamedSet<T>>

  // ------------------------------------------------------------------- the search

  function Unvisited<T>(sets: NamedSets<T>, visited: set<string>): set<string> {
    set id | id in sets && id !in visited
  }

  /** The defined sets in the order a search taking pending ids from the end finds them. */
  function Visits<T>(sets: NamedSets<T>, pending: seq<string>, visited: set<string>): seq<string>
    decreases Unvisited(sets, visited), |pending|
  {
    if pending == [] then []
    else
      var rest, id := pending[..|pending| - 1], pending[|pending| - 1];
      VisitShrinks(sets, visited, id);
      if id in visited then Visits(sets, rest, visited)
      else if id in sets then [id] + Visits(sets, rest + sets[id].children, visited + {id})
      else Visits(sets, rest, visited + {id})
  }

  lemma VisitShrinks<T>(sets: NamedSets<T>, visited: set<string>, id: string)
    ensures id in Unvisited(sets, visited) ==> Unvisited(sets, visited + {id}) < Unvisited(sets, visited)
    ensures id !in sets ==> Unvisited(sets, visited + {id}) == Unvisited(sets, visited)
  {
    if id in Unvisited(sets, visited) {
      assert id !in Unvisited(sets, visited + {id});
    }
  }

  /** The id named last is searched first, and its children before the ids named earlier. */
  lemma {:induction false} SearchOrder<T>(sets: NamedSets<T>, earlier: seq<string>, id: string, visited: set<string>)
    requires id in sets && id !in visited
    ensures Visits(sets, earlier + [id], visited)
         == [id] + Visits(sets, earlier + sets[id].children, visited + {id})
  {
    var pending := earlier + [id];
    assert pending[..|pending| - 1] == earlier;
  }

  /** The files of the given sets. */
  function Files<T>(sets: NamedSets<T>, ids: seq<string>): seq<T>
    requires forall id :: id in ids ==> id in sets
  {
    if ids == [] then [] else sets[ids[0]].files + Files(sets, ids[1..])
  }

  /** The search loop shared by `resolve_artifacts` and `reduce_artifacts`. */
  method Gather<T>(sets: NamedSets<T>, roots: seq<string>, direct: seq<T>) returns (files: seq<T>)
    ensures forall id :: id in Visits(sets, roots, {}) ==> id in sets
    ensures files == direct + Files(sets, Visits(sets, roots, {}))
  {
    VisitsReach(sets, roots, {});
    var visited, pending := {}, roots;
    files := direct;
    ghost var todo := Visits(sets, roots, {});
    while pending != []
      invariant todo == Visits(sets, pending, visited)
      invariant forall id :: id in todo ==> id in sets
      invariant files + Files(sets, todo) == direct + Files(sets, Visits(sets, roots, {}))
      decreases Unvisited(sets, visited), |pending|
    {
      var id := pending[|pending| - 1];
      pending := pending[..|pending| - 1];
      if id in visited {
        continue;
      }
      VisitShrinks(sets, visited, id);
      visited := visited + {id};
      if id in sets {
        assert todo[0] == id && todo[1..] == Visits(sets, pending + sets[id].children, visited);
        Assoc(files, sets[id].files, Files(sets, todo[1..]));
        files := files + sets[id].files;
        pending := pending + sets[id].children;
        todo := todo[1..];
      }
    }
  }

  // ----------------------------------------------------------------- reachability

  /** Each id is a child of the one before it. */
  ghost predicate Trail<T>(sets: NamedSets<T>, p: seq<string>) {
    p != [] && (|p| == 1 || (p[0] in sets && p[1] in sets[p[0]].children && Trail(sets, p[1..])))
  }

  ghost predicate Leads<T>(sets: NamedSets<T>, p: seq<string>, roots: seq<string>, id: string) {
    Trail(sets, p) && p[0] in roots && p[|p| - 1] == id
  }

  ghost predicate Reachable<T>(sets: NamedSets<T>, roots: seq<string>, id: string) {
    exists p :: Leads(sets, p, roots, id)
  }

  lemma ReachableAfterPop<T>(sets: NamedSets<T>, rest: seq<string>, id: string, x: string)
    requires id in sets && Reachable(sets, rest + sets[id].children, x)
    ensures Reachable(sets, rest + [id], x)
  {
    var p :| Leads(sets, p, rest + sets[id].children, x);
    if p[0] in rest {
      assert Leads(sets, p, rest + [id], x);
    } else {
      assert ([id] + p)[1..] == p;
      assert Leads(sets, [id] + p, rest + [id], x);
    }
  }

  lemma ReachableFromMore<T>(sets: NamedSets<T>, rest: seq<string>, id: string, x: string)
    requires Reachable(sets, rest, x)
    ensures Reachable(sets, rest + [id], x)
  {
    var p :| Leads(sets, p, rest, x);
    assert Leads(sets, p, rest + [id], x);
  }

  /** Everything found is defined, reachable, new, and found once. */
  lemma {:induction false} VisitsReach<T>(sets: NamedSets<T>, pending: seq<string>, visited: set<string>)
    ensures forall x :: x in Visits(sets, pending, visited) ==>
              x in sets && x !in visited && Reachable(sets, pending, x)
    ensures forall i, j :: 0 <= i < j < |Visits(sets, pending, visited)| ==>
              Visits(sets, pending, visited)[i] != Visits(sets, pending, visited)[j]
    decreases Unvisited(sets, visited), |pending|
  {
    if pending != [] {
      var rest, id := pending[..|pending| - 1], pending[|pending| - 1];
      VisitShrinks(sets, visited, id);
      assert pending == rest + [id];
      if id !in visited && id in sets {
        VisitsReach(sets, rest + sets[id].children, visited + {id});
        assert Leads(sets, [id], pending, id);
        forall x | x in Visits(sets, rest + sets[id].children, visited + {id})
          ensures Reachable(sets, pending, x)
        {
          ReachableAfterPop(sets, rest, id, x);
        }
      } else {
        var now := if id in visited then visited else visited + {id};
        VisitsReach(sets, rest, now);
        forall x | x in Visits(sets, rest, now) ensures Reachable(sets, pending, x) {
          ReachableFromMore(sets, rest, id, x);
        }
      }
    }
  }

  /** Children of visited sets are visited or still pending. */
  ghost predicate Closed<T>(sets: NamedSets<T>, pending: seq<string>, visited: set<string>) {
    forall a, c :: a in visited && a in sets && c in sets[a].children ==> c in visited || c in pending
  }

  /** Visited from the start, or found. */
  ghost predicate Found<T>(sets: NamedSets<T>, pending: seq<string>, visited: set<string>, x: string) {
    x in visited || x in Visits(sets, pending, visited)
  }

  /** Every pending set is found, and with a set all its children. */
  ghost predicate Complete<T>(sets: NamedSets<T>, pending: seq<string>, visited: set<string>) {
    && (forall x :: x in pending && x in sets ==> Found(sets, pending, visited, x))
    && (forall a, c ::
          Found(sets, pending, visited, a) && a in sets && c in sets[a].children && c in sets ==>
            Found(sets, pending, visited, c))
  }

  lemma {:induction false} FoundNext<T>(
    sets: NamedSets<T>, rest: seq<string>, id: string, visited: set<string>, x: string)
    ensures
      var found := Found(sets, rest + [id], visited, x);
      if id in visited then found <==> Found(sets, rest, visited, x)
      else if id in sets then found <==> Found(sets, rest + sets[id].children, visited + {id}, x)
      else found || x == id <==> Found(sets, rest, visited + {id}, x)
  {
    var pending := rest + [id];
    assert pending[..|pending| - 1] == rest && pending[|pending| - 1] == id;
  }

  lemma {:induction false} CompleteNext<T>(
    sets: NamedSets<T>, rest: seq<string>, id: string, visited: set<string>, next: seq<string>, now: set<string>)
    requires id in visited ==> next == rest && now == visited
    requires id !in visited && id in sets ==> next == rest + sets[id].children && now == visited + {id}
    requires id !in visited && id !in sets ==> next == rest && now == visited + {id}
    requires Complete(sets, next, now)
    ensures Complete(sets, rest + [id], visited)
  {
    forall x | x in sets ensures Found(sets, rest + [id], visited, x) <==> Found(sets, next, now, x) {
      FoundNext(sets, rest, id, visited, x);
    }
    forall x | x in rest && x in sets ensures Found(sets, next, now, x) {
      assert x in next;
    }
    assert id in sets ==> Found(sets, next, now, id);
  }

  lemma {:induction false} VisitsClose<T>(sets: NamedSets<T>, pending: seq<string>, visited: set<string>)
    requires Closed(sets, pending, visited)
    ensures Complete(sets, pending, visited)
    decreases Unvisited(sets, visited), |pending|
  {
    if pending != [] {
      var rest, id := pending[..|pending| - 1], pending[|pending| - 1];
      VisitShrinks(sets, visited, id);
      InitLast(pending);
      var next := if id !in visited && id in sets then rest + sets[id].children else rest;
      var now := if id in visited then visited else visited + {id};
      VisitsClose(sets, next, now);
      CompleteNext(sets, rest, id, visited, next, now);
    }
  }

  /** The search finds every defined set that can be reached, and no other. */
  lemma {:induction false} VisitsExactly<T>(sets: NamedSets<T>, roots: seq<string>, x: string)
    ensures x in Visits(sets, roots, {}) <==> x in sets && Reachable(sets, roots, x)
  {
    VisitsReach(sets, roots, {});
    VisitsClose(sets, roots, {});
    if x in sets && Reachable(sets, roots, x) {
      var p :| Leads(sets, p, roots, x);
      assert Found(sets, roots, {}, p[0]);
      AllFound(sets, roots, p);
    }
  }

  lemma {:induction false} AllFound<T>(sets: NamedSets<T>, roots: seq<string>, p: seq<string>)
    requires Trail(sets, p) && p[|p| - 1] in sets && Found(sets, roots, {}, p[0])
    ensures Found(sets, roots, {}, p[|p| - 1])
  {
    if |p| > 1 {
      VisitsClose(sets, roots, {});
      AllFound(sets, roots, p[1..]);
    }
  }

  lemma {:induction false} FilesMembers<T>(sets: NamedSets<T>, ids: seq<string>, f: T)
    requires forall id :: id in ids ==> id in sets
    ensures f in Files(sets, ids) <==> exists id :: id in ids && f in sets[id].files
  {
    if ids != [] {
      FilesMembers(sets, ids[1..], f);
      assert ids == [ids[0]] + ids[1..];
    }
  }

  // ---------------------------------------------------------------- each file once

  function Key(a: Artifact): (string, string) {
    (a.name, a.uri)
  }

  function Keys(artifacts: seq<Artifact>): set<(string, string)> {
    set a | a in artifacts :: Key(a)
  }

  /** Keeps the artifacts whose name and uri appear for the first time. */
  function Distinct(artifacts: seq<Artifact>): seq<Artifact> {
    if artifacts == [] then []
    else
      var init, last := artifacts[..|artifacts| - 1], artifacts[|artifacts| - 1];
      Distinct(init) + (if Key(last) in Keys(init) then [] else [last])
  }

  method Deduplicate(artifacts: seq<Artifact>) returns (r: seq<Artifact>)
    ensures r == Distinct(artifacts)
  {
    var seen: set<(string, string)> := {};
    r := [];
    for i := 0 to |artifacts|
      invariant r == Distinct(artifacts[..i])
      invariant seen == Keys(artifacts[..i])
    {
      var a := artifacts[i];
      assert artifacts[..i + 1] == artifacts[..i] + [a] && artifacts[..i + 1][..i] == artifacts[..i];
      KeysSnoc(artifacts[..i], a);
      if Key(a) !in seen {
        seen := seen + {Key(a)};
        r := r + [a];
      }
    }
    assert artifacts[..|artifacts|] == artifacts;
  }

  lemma KeysSnoc(init: seq<Artifact>, last: Artifact)
    ensures Keys(init + [last]) == Keys(init) + {Key(last)}
  {
    assert forall k :: k in Keys(init) ==> k in Keys(init + [last]);
    assert last in init + [last];
  }

  lemma {:induction false} DistinctKeys(artifacts: seq<Artifact>)
    ensures forall i, j :: 0 <= i < j < |Distinct(artifacts)| ==>
              Key(Distinct(artifacts)[i]) != Key(Distinct(artifacts)[j])
    ensures forall a :: a in Distinct(artifacts) ==> a in artifacts
    ensures Keys(Distinct(artifacts)) == Keys(artifacts)
  {
    if artifacts != [] {
      var init, last := artifacts[..|artifacts| - 1], artifacts[|artifacts| - 1];
      assert artifacts == init + [last];
      DistinctKeys(init);
      KeysSnoc(init, last);
      KeysSnoc(Distinct(init), last);
    }
  }

  /** `firsts` are the places where a name and uri appear for the first time, in order. */
  predicate AreFirst(artifacts: seq<Artifact>, firsts: seq<nat>, n: nat, r: seq<Artifact>) {
    && n <= |artifacts| && |firsts| == |r|
    && (forall k :: 0 <= k < |firsts| ==> firsts[k] < n)
    && (forall k, l :: 0 <= k < l < |firsts| ==> firsts[k] < firsts[l])
    && (forall k :: 0 <= k < |firsts| ==> r[k] == artifacts[firsts[k]] && IsFirst(artifacts, firsts[k]))
  }

  predicate IsFirst(artifacts: seq<Artifact>, i: nat)
    requires i < |artifacts|
  {
    forall j :: 0 <= j < i ==> artifacts[j].name != artifacts[i].name || artifacts[j].uri != artifacts[i].uri
  }

  lemma {:induction false} FirstsUpto(artifacts: seq<Artifact>, n: nat) returns (firsts: seq<nat>)
    requires n <= |artifacts|
    ensures AreFirst(artifacts, firsts, n, Distinct(artifacts[..n]))
  {
    if n == 0 {
      firsts := [];
    } else {
      firsts := FirstsUpto(artifacts, n - 1);
      assert artifacts[..n][..n - 1] == artifacts[..n - 1];
      if Key(artifacts[n - 1]) !in Keys(artifacts[..n - 1]) {
        NewIsFirst(artifacts, n - 1);
        firsts := firsts + [n - 1];
      }
    }
  }

  lemma {:induction false} NewIsFirst(artifacts: seq<Artifact>, i: nat)
    requires i < |artifacts| && Key(artifacts[i]) !in Keys(artifacts[..i])
    ensures IsFirst(artifacts, i)
  {
    forall j | 0 <= j < i ensures artifacts[j].name != artifacts[i].name || artifacts[j].uri != artifacts[i].uri {
      assert artifacts[..i][j] == artifacts[j];
      assert Key(artifacts[j]) in Keys(artifacts[..i]);
    }
  }

  /** Of several artifacts with the same name and uri, the first stays, in its place. */
  lemma {:induction false} DistinctFirst(artifacts: seq<Artifact>) returns (firsts: seq<nat>)
    ensures AreFirst(artifacts, firsts, |artifacts|, Distinct(artifacts))
  {
    firsts := FirstsUpto(artifacts, |artifacts|);
    assert artifacts[..|artifacts|] == artifacts;
  }

  /** `BepAccumulator::resolve_artifacts`. */
  method ResolveArtifacts(sets: NamedSets<Artifact>, roots: seq<string>, direct: seq<Artifact>)
    returns (r: seq<Artifact>)
    ensures forall id :: id in Visits(sets, roots, {}) ==> id in sets
    ensures r == Distinct(direct + Files(sets, Visits(sets, roots, {})))
    ensures forall i, j :: 0 <= i < j < |r| ==> Key(r[i]) != Key(r[j])
    ensures forall a :: a in r ==> IsOutput(sets, roots, direct, a)
    ensures forall a :: IsOutput(sets, roots, direct, a) ==> Key(a) in Keys(r)
  {
    var files := Gather(sets, roots, direct);
    r := Deduplicate(files);
    ResolvedExactly(sets, roots, direct);
  }

  /** A direct file, or a file of a set that can be reached. */
  ghost predicate IsOutput<T>(sets: NamedSets<T>, roots: seq<string>, direct: seq<T>, f: T) {
    f in direct || exists id :: id in sets && Reachable(sets, roots, id) && f in sets[id].files
  }

  lemma {:induction false} OutputMembers<T>(sets: NamedSets<T>, roots: seq<string>, direct: seq<T>, f: T)
    requires forall id :: id in Visits(sets, roots, {}) ==> id in sets
    ensures f in direct + Files(sets, Visits(sets, roots, {})) <==> IsOutput(sets, roots, direct, f)
  {
    var ids := Visits(sets, roots, {});
    FilesMembers(sets, ids, f);
    forall id | id in sets ensures id in ids <==> Reachable(sets, roots, id) {
      VisitsExactly(sets, roots, id);
    }
  }

  ghost function Resolved(sets: NamedSets<Artifact>, roots: seq<string>, direct: seq<Artifact>): seq<Artifact> {
    VisitsReach(sets, roots, {});
    Distinct(direct + Files(sets, Visits(sets, roots, {})))
  }

  /** The output files are the direct ones and those of the sets that can be reached,
      each name and uri once. */
  lemma ResolvedExactly(sets: NamedSets<Artifact>, roots: seq<string>, direct: seq<Artifact>)
    ensures forall i, j :: 0 <= i < j < |Resolved(sets, roots, direct)| ==>
              Key(Resolved(sets, roots, direct)[i]) != Key(Resolved(sets, roots, direct)[j])
    ensures forall a :: a in Resolved(sets, roots, direct) ==> IsOutput(sets, roots, direct, a)
    ensures forall a :: IsOutput(sets, roots, direct, a) ==> Key(a) in Keys(Resolved(sets, roots, direct))
  {
    VisitsReach(sets, roots, {});
    var ids := Visits(sets, roots, {});
    var all := direct + Files(sets, ids);
    DistinctKeys(all);
    forall a ensures a in all <==> IsOutput(sets, roots, direct, a) {
      OutputMembers(sets, roots, direct, a);
    }
  }
}
