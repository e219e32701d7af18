/** The artifacts of an invocation, told by the raw events: which files are outputs, and
    what is reported of a file. */
module ArtifactTelling {
  import opened Base
  import opened Summary
  import opened Artifacts
  import opened Events
  import opened Accumulator
  import opened Batch

  // --------------------------------------------------------------------- the texts

  predicate Continues(c: char) {
    128 <= c as int < 192
  }

  /** Cut back to the start of the character that crosses the limit, and marked. */
  ghost predicate CutText(v: string, limit: nat, r: string) {
    exists k ::
      && 0 <= k <= limit < |v| && r == v[..k] + ELLIPSIS
      && (k > 0 ==> !Continues(v[k])) && (forall j :: k < j <= limit ==> Continues(v[j]))
  }

  lemma {:induction false} CharStartIs(v: string, i: nat)
    requires i < |v|
    ensures
      var k := CharStart(v, i);
      && (k > 0 ==> !Continues(v[k])) && (forall j :: k < j <= i ==> Continues(v[j]))
  {
    if i > 0 && Continues(v[i]) {
      CharStartIs(v, i - 1);
    }
  }

  /** A text that fits is kept; a longer one is cut between characters, never more than
      three bytes over the limit. */
  lemma {:induction false} BoundedExactly(v: string, limit: nat)
    ensures |v| <= limit ==> BoundedText(v, limit) == v
    ensures |v| > limit ==> CutText(v, limit, BoundedText(v, limit))
    ensures |BoundedText(v, limit)| <= limit + 3
  {
    if |v| > limit {
      CharStartIs(v, limit);
      var k := CharStart(v, limit);
      assert BoundedText(v, limit) == v[..k] + ELLIPSIS;
    }
  }

  function NonEmpty(parts: seq<string>): seq<string> {
    if parts == [] then [] else (if parts[0] == "" then [] else [parts[0]]) + NonEmpty(parts[1..])
  }

  function Slashed(parts: seq<string>): string {
    if parts == [] then "" else if |parts| == 1 then parts[0] else parts[0] + "/" + Slashed(parts[1..])
  }

  lemma {:induction false} NonEmptySnoc(parts: seq<string>, last: string)
    ensures NonEmpty(parts + [last]) == NonEmpty(parts) + (if last == "" then [] else [last])
  {
    if parts == [] {
      var one: seq<string> := [last];
      assert parts + [last] == one && one[1..] == [];
    } else {
      assert (parts + [last])[1..] == parts[1..] + [last];
      NonEmptySnoc(parts[1..], last);
    }
  }

  lemma {:induction false} SlashedSnoc(parts: seq<string>, last: string)
    requires parts != []
    ensures Slashed(parts + [last]) == Slashed(parts) + "/" + last
  {
    var all := parts + [last];
    assert all[1..] == parts[1..] + [last];
    if |parts| == 1 {
      assert all[1..] == [last];
    } else {
      SlashedSnoc(parts[1..], last);
      Assoc(parts[0] + "/", Slashed(parts[1..]), "/" + last);
      Assoc(Slashed(parts[1..]), "/", last);
      Assoc(parts[0] + "/" + Slashed(parts[1..]), "/", last);
    }
  }

  lemma {:induction false} SlashedEmpty(parts: seq<string>)
    requires forall i :: 0 <= i < |parts| ==> parts[i] != ""
    ensures Slashed(parts) == "" <==> parts == []
  {
  }

  lemma {:induction false} NonEmptyParts(parts: seq<string>)
    ensures forall i :: 0 <= i < |NonEmpty(parts)| ==> NonEmpty(parts)[i] != ""
  {
    if parts != [] {
      NonEmptyParts(parts[1..]);
    }
  }

  /** A path is its parts that are not empty, with slashes between them. */
  lemma {:induction false} PathExactly(parts: seq<string>)
    ensures JoinPath(parts) == Slashed(NonEmpty(parts))
  {
    if parts != [] {
      var init, last := parts[..|parts| - 1], parts[|parts| - 1];
      PathExactly(init);
      assert parts == init + [last];
      NonEmptySnoc(init, last);
      NonEmptyParts(init);
      SlashedEmpty(NonEmpty(init));
      if last == "" {
        assert NonEmpty(init) + [] == NonEmpty(init);
      } else if NonEmpty(init) == [] {
        assert NonEmpty(init) + [last] == [last];
      } else {
        SlashedSnoc(NonEmpty(init), last);
      }
    }
  }

  // ------------------------------------------------------------------------ a file

  ghost predicate Within(v: string, part: string) {
    exists a, b :: v == a + part + b
  }

  lemma {:induction false} ContainsExactly(v: string, part: string)
    ensures Contains(v, part) <==> Within(v, part)
  {
    if Contains(v, part) {
      var i: nat :| i <= |v| && OccursAt(v, i, part);
      assert v == v[..i] + part + v[i + |part|..];
    }
    if Within(v, part) {
      var a, b :| v == a + part + b;
      assert OccursAt(v, |a|, part) by { assert v[|a|..|a| + |part|] == part; }
    }
  }

  lemma {:induction false} EndsExactly(v: string, part: string)
    ensures EndsWith(v, part) <==> exists a :: v == a + part
  {
    if EndsWith(v, part) {
      assert v == v[..|v| - |part|] + part;
    }
    if a :| v == a + part {
      assert v[|v| - |part|..|v| - |part| + |part|] == part;
    }
  }

  /** What kind of artifact a file with a location is. */
  ghost predicate KindTold(name: string, uri: string, kind: ArtifactKind) {
    var log := name == "test.log" || name == "test.xml";
    var coverage := Within(name, "coverage") || exists a :: name == a + ".dat";
    && (kind.TestLog? <==> log)
    && (kind.Coverage? <==> !log && coverage)
    && (kind.File? <==> !log && !coverage && "file:" <= uri)
    && !kind.Directory?
  }

  lemma {:induction false} KindExactly(name: string, uri: string)
    ensures KindTold(name, uri, UriKind(name, uri))
  {
    ContainsExactly(name, "coverage");
    EndsExactly(name, ".dat");
  }

  /** The text, cut if it is longer than a thousand bytes. */
  ghost predicate Shown(v: string, r: string) {
    if |v| <= 1_000 then r == v else CutText(v, 1_000, r)
  }

  /** The artifact is what is to be reported of the file. */
  ghost predicate ArtifactTold(f: FileView, a: Artifact) {
    && Shown(Slashed(NonEmpty(f.pathPrefix + [f.name])), a.name)
    && a.sizeBytes == (if f.length < 0 then None else Some(f.length))
    && match f.contents
       case None => false
       case Some(Uri(uri)) =>
         Shown(uri, a.uri) && KindTold(f.name, uri, a.kind) && a.locallyAvailable == ("file:" <= uri)
       case Some(SymlinkTarget(path)) => Shown(path, a.uri) && a.kind.File? && a.locallyAvailable
       case Some(Inline) => a.uri == "inline://redacted" && a.kind.File? && a.locallyAvailable
  }

  /** A file gives an artifact unless it has neither location nor contents. */
  lemma {:induction false} FileExactly(f: FileView)
    ensures FileArtifact(f).Some? <==> f.contents.Some?
    ensures FileArtifact(f).Some? ==> ArtifactTold(f, FileArtifact(f).value)
  {
    var path := f.pathPrefix + [f.name];
    PathExactly(path);
    BoundedExactly(JoinPath(path), 1_000);
    if f.contents.Some? {
      match f.contents.value
      case Uri(uri) =>
        BoundedExactly(uri, 1_000);
        KindExactly(f.name, uri);
      case SymlinkTarget(target) => BoundedExactly(target, 1_000);
      case Inline =>
    }
  }

  // --------------------------------------------------------------------- the events

  /** The event names the set as an output. */
  predicate NamesRoot(e: BuildEvent, id: string) {
    && e.payload.Completed?
    && exists i :: 0 <= i < |e.payload.groups| && id in e.payload.groups[i].fileSets
  }

  /** The event carries the file itself. */
  predicate CarriesFile(e: BuildEvent, f: FileView) {
    match e.payload
    case Completed(_, groups, important, directory) =>
      || (exists i :: 0 <= i < |groups| && f in groups[i].inlineFiles)
      || f in important || f in directory
    case ActionExecuted(success, _, _, _, output) => !success && output == Some(f)
    case TestAttempt(_, outputs) => f in outputs
    case _ => false
  }

  predicate RootNamed(events: seq<BuildEvent>, id: string) {
    exists i :: 0 <= i < |events| && NamesRoot(events[i], id)
  }

  predicate FileCarried(events: seq<BuildEvent>, f: FileView) {
    exists i :: 0 <= i < |events| && CarriesFile(events[i], f)
  }

  lemma {:induction false} RootNamedSnoc(events: seq<BuildEvent>, e: BuildEvent, id: string)
    ensures RootNamed(events + [e], id) <==> RootNamed(events, id) || NamesRoot(e, id)
  {
    var all := events + [e];
    assert all[|events|] == e;
    assert forall i :: 0 <= i < |events| ==> all[i] == events[i];
  }

  lemma {:induction false} FileCarriedSnoc(events: seq<BuildEvent>, e: BuildEvent, f: FileView)
    ensures FileCarried(events + [e], f) <==> FileCarried(events, f) || CarriesFile(e, f)
  {
    var all := events + [e];
    assert all[|events|] == e;
    assert forall i :: 0 <= i < |events| ==> all[i] == events[i];
  }

  lemma {:induction false} RootsMembers(groups: seq<OutputGroup>, id: string)
    ensures id in RootsOf(groups) <==> exists i :: 0 <= i < |groups| && id in groups[i].fileSets
  {
    if groups != [] {
      var init := groups[..|groups| - 1];
      RootsMembers(init, id);
      assert forall i :: 0 <= i < |init| ==> init[i] == groups[i];
    }
  }

  lemma {:induction false} InlineMembers(groups: seq<OutputGroup>, f: FileView)
    ensures f in FilesOf(groups) <==> exists i :: 0 <= i < |groups| && f in groups[i].inlineFiles
  {
    if groups != [] {
      var init := groups[..|groups| - 1];
      InlineMembers(init, f);
      assert forall i :: 0 <= i < |init| ==> init[i] == groups[i];
    }
  }

  lemma JoinMembers<T>(a: seq<T>, b: seq<T>, x: T)
    ensures x in a + b <==> x in a || x in b
  {
  }

  lemma {:induction false} RootTold(e: BuildEvent, id: string)
    ensures id in RootsIn(e) <==> NamesRoot(e, id)
  {
    if e.payload.Completed? {
      RootsMembers(e.payload.groups, id);
    }
  }

  lemma {:induction false} RootsTold(events: seq<BuildEvent>, id: string)
    ensures id in SeeAll(events).roots <==> RootNamed(events, id)
  {
    if events != [] {
      var init, last := events[..|events| - 1], events[|events| - 1];
      RootsTold(init, id);
      RootsNext(SeeAll(init).roots, init, last, id);
      InitLast(events);
    }
  }

  lemma {:induction false} RootsNext(roots: seq<string>, events: seq<BuildEvent>, e: BuildEvent, id: string)
    requires id in roots <==> RootNamed(events, id)
    ensures id in roots + RootsIn(e) <==> RootNamed(events + [e], id)
  {
    RootTold(e, id);
    RootNamedSnoc(events, e, id);
    JoinMembers(roots, RootsIn(e), id);
  }

  lemma {:induction false} CarriedTold(e: BuildEvent, f: FileView)
    ensures f in FilesIn(e) <==> CarriesFile(e, f)
  {
    if e.payload.Completed? {
      InlineMembers(e.payload.groups, f);
    }
  }

  lemma {:induction false} DirectTold(events: seq<BuildEvent>, f: FileView)
    ensures f in SeeAll(events).direct <==> FileCarried(events, f)
  {
    if events != [] {
      var init, last := events[..|events| - 1], events[|events| - 1];
      DirectTold(init, f);
      DirectNext(SeeAll(init).direct, init, last, f);
      InitLast(events);
    }
  }

  lemma {:induction false} DirectNext(direct: seq<FileView>, events: seq<BuildEvent>, e: BuildEvent, f: FileView)
    requires f in direct <==> FileCarried(events, f)
    ensures f in direct + FilesIn(e) <==> FileCarried(events + [e], f)
  {
    CarriedTold(e, f);
    FileCarriedSnoc(events, e, f);
    JoinMembers(direct, FilesIn(e), f);
  }

  /** The last event that defines a set. */
  function LastSet(events: seq<BuildEvent>, id: string): Option<NamedSet<FileView>> {
    if events == [] then None
    else
      var last := events[|events| - 1];
      if last.payload.NamedSetOfFiles? && last.id == Some(NamedSetId(id))
      then Some(NamedSet(last.payload.files, last.payload.fileSets))
      else LastSet(events[..|events| - 1], id)
  }

  lemma {:induction false} SetsTold(events: seq<BuildEvent>, id: string)
    ensures
      var sets := SeeAll(events).sets;
      LastSet(events, id) == if id in sets then Some(sets[id]) else None
  {
    if events != [] {
      SetsTold(events[..|events| - 1], id);
    }
  }

  /** A chain of sets, each a child of the one before and the last defined under its id. */
  ghost predicate Chain(events: seq<BuildEvent>, path: seq<string>) {
    && path != [] && LastSet(events, path[0]).Some?
    && (|path| > 1 ==> path[1] in LastSet(events, path[0]).value.children && Chain(events, path[1..]))
  }

  predicate InLast(events: seq<BuildEvent>, path: seq<string>, f: FileView) {
    path != [] && var named := LastSet(events, path[|path| - 1]); named.Some? && f in named.value.files
  }

  /** The file is an output: an event carries it, or a set does that a chain ends in. */
  ghost predicate IsOutputFile(events: seq<BuildEvent>, f: FileView) {
    || FileCarried(events, f)
    || (exists path :: Chain(events, path) && RootNamed(events, path[0]) && InLast(events, path, f))
  }

  lemma {:induction false} ChainTold(events: seq<BuildEvent>, path: seq<string>)
    ensures
      var sets := SeeAll(events).sets;
      Chain(events, path) <==> Trail(sets, path) && path[|path| - 1] in sets
  {
    if path != [] {
      SetsTold(events, path[0]);
      if |path| > 1 {
        ChainTold(events, path[1..]);
      }
    }
  }

  lemma {:induction false} OutputTold(events: seq<BuildEvent>, f: FileView)
    ensures
      var b := SeeAll(events);
      IsOutputFile(events, f) <==> IsOutput(b.sets, b.roots, b.direct, f)
  {
    var b := SeeAll(events);
    DirectTold(events, f);
    if path :| Chain(events, path) && RootNamed(events, path[0]) && InLast(events, path, f) {
      ChainTold(events, path);
      RootsTold(events, path[0]);
      SetsTold(events, path[|path| - 1]);
      assert Leads(b.sets, path, b.roots, path[|path| - 1]);
    }
    if id :| id in b.sets && Reachable(b.sets, b.roots, id) && f in b.sets[id].files {
      var path :| Leads(b.sets, path, b.roots, id);
      ChainTold(events, path);
      RootsTold(events, path[0]);
      SetsTold(events, id);
    }
  }

  /** The artifacts of any events: each name and location once; every one is what is to
      be reported of an output file; and every output file that has a location or
      contents is reported under its name and location. */
  lemma {:induction false} BatchArtifactsTold(events: seq<BuildEvent>)
    ensures
      var r := BatchArtifacts(events);
      && (forall i, j :: 0 <= i < j < |r| ==> r[i].name != r[j].name || r[i].uri != r[j].uri)
      && (forall a :: a in r ==> exists f :: IsOutputFile(events, f) && ArtifactTold(f, a))
      && (forall f :: IsOutputFile(events, f) && f.contents.Some? ==>
            exists a, b :: a in r && ArtifactTold(f, b) && a.name == b.name && a.uri == b.uri)
  {
    var b, r := SeeAll(events), BatchArtifacts(events);
    BatchArtifactsExactly(events);
    forall i, j | 0 <= i < j < |r| ensures r[i].name != r[j].name || r[i].uri != r[j].uri {
      assert Key(r[i]) != Key(r[j]);
    }
    forall a | a in r ensures exists f :: IsOutputFile(events, f) && ArtifactTold(f, a) {
      var f :| IsOutput(b.sets, b.roots, b.direct, f) && FileArtifact(f) == Some(a);
      OutputTold(events, f);
      FileExactly(f);
    }
    forall f | IsOutputFile(events, f) && f.contents.Some?
      ensures exists a, b :: a in r && ArtifactTold(f, b) && a.name == b.name && a.uri == b.uri
    {
      OutputTold(events, f);
      FileExactly(f);
      var told := FileArtifact(f).value;
      var a :| a in r && Key(a) == Key(told);
      assert ArtifactTold(f, told) && a.name == told.name && a.uri == told.uri;
    }
  }
}
