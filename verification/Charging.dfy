/** What the streaming reducer charges for what it keeps, exactly. */
module Charging {
  import opened Base
  import opened Sorting
  import opened Summary
  import opened Artifacts
  import opened Events
  import opened Accumulator
  import opened Keeping
  import opened Recovery
  import opened ArtifactTelling

  // -------------------------------------------------------------------- the limits

  /** A reservation is refused exactly when it would take the reducer over 250000 items
      or 64 MiB, and then changes nothing but the mark. */
  lemma ReserveExactly(u: Usage, items: nat, bytes: nat)
    ensures
      var (after, granted) := Reserve(u, items, bytes);
      && (granted <==> u.items + items <= 250_000 && u.bytes + bytes <= 64 * 1024 * 1024)
      && after == (if granted then Usage(u.items + items, u.bytes + bytes, u.truncated) else u.(truncated := true))
  {
  }

  /** What was paid is what is held. */
  ghost predicate PaidExactly(s: State) {
    s.usage.items == HeldItems(s.content) && s.usage.bytes == HeldBytes(s.content)
  }

  lemma {:induction false} GrantCharged(s: State, price: Option<(nat, nat)>, after: Content)
    requires PaidExactly(s)
    requires HeldItems(after) == HeldItems(s.content) + (if price.Some? then price.value.0 else 0)
    requires HeldBytes(after) == HeldBytes(s.content) + (if price.Some? then price.value.1 else 0)
    ensures PaidExactly(Grant(s, price, after))
  {
    if price.Some? {
      ReserveExactly(s.usage, price.value.0, price.value.1);
    }
  }

  lemma {:induction false} KeepCharged(s: State, e: Entry)
    requires PaidExactly(s) && (e.KeepSet? ==> e.id !in s.content.namedSets)
    ensures PaidExactly(Keep(s, e))
  {
    PutCharged(s.content, e);
    GrantCharged(s, Cost(s.content, e), Put(s.content, e));
  }

  lemma {:induction false} KeepAllCharged(s: State, es: seq<Entry>)
    requires PaidExactly(s) && forall i :: 0 <= i < |es| ==> !es[i].KeepSet?
    ensures PaidExactly(KeepAll(s, es))
  {
    if es != [] {
      KeepAllCharged(s, es[..|es| - 1]);
      KeepCharged(KeepAll(s, es[..|es| - 1]), es[|es| - 1]);
    }
  }

  lemma KeepSets(s: State, e: Entry)
    ensures Keep(s, e).content.namedSets == s.content.namedSets
         || (e.KeepSet? && Keep(s, e).content.namedSets == s.content.namedSets[e.id := e.named])
  {
  }

  lemma {:induction false} KeepAllSets(s: State, es: seq<Entry>)
    requires forall i :: 0 <= i < |es| ==> !es[i].KeepSet?
    ensures KeepAll(s, es).content.namedSets == s.content.namedSets
  {
    if es != [] {
      KeepAllSets(s, es[..|es| - 1]);
      KeepSets(KeepAll(s, es[..|es| - 1]), es[|es| - 1]);
    }
  }

  lemma {:induction false} GroupsDefineNoSet(groups: seq<OutputGroup>)
    ensures forall i :: 0 <= i < |GroupEntries(groups)| ==> !GroupEntries(groups)[i].KeepSet?
  {
    if groups != [] {
      GroupsDefineNoSet(groups[..|groups| - 1]);
    }
  }

  lemma {:induction false} OthersDefineNoSet(e: BuildEvent)
    requires !e.payload.NamedSetOfFiles?
    ensures forall i :: 0 <= i < |Entries(e)| ==> !Entries(e)[i].KeepSet?
  {
    match e.payload
    case Completed(_, groups, _, _) => GroupsDefineNoSet(groups);
    case _ =>
  }

  /** The set an event defines, under its bounded id. */
  function Defines(e: BuildEvent): Option<string> {
    if e.payload.NamedSetOfFiles? && e.id.Some? && e.id.value.NamedSetId?
    then Some(BoundedText(e.id.value.id, 4 * 1024)) else None
  }

  predicate Defined(events: seq<BuildEvent>, id: string) {
    exists i :: 0 <= i < |events| && Defines(events[i]) == Some(id)
  }

  /** No set is defined twice. */
  predicate SetsOnce(events: seq<BuildEvent>) {
    forall i, j :: 0 <= i < j < |events| && Defines(events[i]).Some? ==> Defines(events[i]) != Defines(events[j])
  }

  lemma {:induction false} EventCharged(s: State, e: BuildEvent)
    requires PaidExactly(s) && (Defines(e).Some? ==> Defines(e).value !in s.content.namedSets)
    ensures PaidExactly(Observe(s, e))
  {
    if Defines(e).Some? {
      var keep := Entries(e)[0];
      assert Entries(e) == [keep] + [];
      KeepAllCons(s, keep, []);
      KeepCharged(s, keep);
    } else {
      if !e.payload.NamedSetOfFiles? {
        OthersDefineNoSet(e);
      }
      KeepAllCharged(s, Entries(e));
    }
  }

  lemma {:induction false} EventSets(s: State, e: BuildEvent, id: string)
    requires id in Observe(s, e).content.namedSets
    ensures id in s.content.namedSets || Defines(e) == Some(id)
  {
    if Defines(e).Some? {
      var keep := Entries(e)[0];
      assert Entries(e) == [keep] + [];
      KeepAllCons(s, keep, []);
      KeepSets(s, keep);
    } else {
      if !e.payload.NamedSetOfFiles? {
        OthersDefineNoSet(e);
      }
      KeepAllSets(s, Entries(e));
    }
  }

  lemma {:induction false} SetsDefinedNext(s: State, events: seq<BuildEvent>, e: BuildEvent, id: string)
    requires id in s.content.namedSets ==> Defined(events, id)
    requires id in Observe(s, e).content.namedSets
    ensures Defined(events + [e], id)
  {
    EventSets(s, e, id);
    DefinedSnoc(events, e, id);
  }

  /** Only sets that were defined are held. */
  lemma {:induction false} SetsDefined(events: seq<BuildEvent>, id: string)
    requires id in ObserveAll(events).content.namedSets
    ensures Defined(events, id)
  {
    var init, last := events[..|events| - 1], events[|events| - 1];
    if id in ObserveAll(init).content.namedSets {
      SetsDefined(init, id);
    }
    SetsDefinedNext(ObserveAll(init), init, last, id);
    InitLast(events);
  }

  lemma {:induction false} NotYetDefined(init: seq<BuildEvent>, last: BuildEvent)
    requires SetsOnce(init + [last]) && Defines(last).Some?
    ensures SetsOnce(init) && !Defined(init, Defines(last).value)
  {
    var all := init + [last];
    assert all[|init|] == last;
    assert forall i :: 0 <= i < |init| ==> all[i] == init[i];
  }

  lemma {:induction false} SetsOncePrefix(init: seq<BuildEvent>, last: BuildEvent)
    requires SetsOnce(init + [last])
    ensures SetsOnce(init)
  {
    var all := init + [last];
    assert forall i :: 0 <= i < |init| ==> all[i] == init[i];
  }

  lemma {:induction false} StartCharged()
    ensures PaidExactly(START)
  {
    assert MapSum(SetItems, START.content.namedSets) == 0 && MapSum(SetBytes, START.content.namedSets) == 0;
  }

  /** When no set is defined twice, items and bytes reserved are exactly those held: no
      refusal is charged and nothing is charged twice. */
  lemma {:induction false} StreamPaidExactly(events: seq<BuildEvent>)
    requires SetsOnce(events)
    ensures PaidExactly(ObserveAll(events))
  {
    if events == [] {
      StartCharged();
    } else {
      var init, last := events[..|events| - 1], events[|events| - 1];
      InitLast(events);
      SetsOncePrefix(init, last);
      StreamPaidExactly(init);
      if Defines(last).Some? && Defines(last).value in ObserveAll(init).content.namedSets {
        SetsDefined(init, Defines(last).value);
        NotYetDefined(init, last);
      }
      EventCharged(ObserveAll(init), last);
    }
  }

  lemma {:induction false} DefinedSnoc(events: seq<BuildEvent>, e: BuildEvent, id: string)
    ensures Defined(events + [e], id) <==> Defined(events, id) || Defines(e) == Some(id)
  {
    var all := events + [e];
    assert all[|events|] == e;
    assert forall i :: 0 <= i < |events| ==> all[i] == events[i];
  }

  // ---------------------------------------------------------------------- the texts

  predicate AllShort(texts: seq<string>, limit: nat) {
    forall i :: 0 <= i < |texts| ==> |texts[i]| <= limit
  }

  /** Set ids are at most 4 KiB long and arguments at most 64 KiB, and the mark of a cut. */
  predicate Short(c: Content) {
    && AllShort(c.roots, 4 * 1024 + 3)
    && (forall id :: id in c.namedSets ==> |id| <= 4 * 1024 + 3 && AllShort(c.namedSets[id].children, 4 * 1024 + 3))
    && (c.arguments.Some? ==> AllShort(c.arguments.value, 64 * 1024 + 3))
  }

  predicate ShortEntry(e: Entry) {
    && (e.KeepRoot? ==> |e.id| <= 4 * 1024 + 3)
    && (e.KeepSet? ==> |e.id| <= 4 * 1024 + 3 && AllShort(e.named.children, 4 * 1024 + 3))
    && (e.KeepArguments? ==> AllShort(e.arguments, 64 * 1024 + 3))
  }

  lemma {:induction false} BoundedShort(texts: seq<string>, limit: nat)
    ensures AllShort(BoundedTexts(texts, limit), limit + 3)
  {
    forall i | 0 <= i < |texts| ensures |BoundedText(texts[i], limit)| <= limit + 3 {
      BoundedExactly(texts[i], limit);
    }
  }

  lemma {:induction false} RootsShort(ids: seq<string>)
    ensures forall i :: 0 <= i < |RootEntries(ids)| ==> ShortEntry(RootEntries(ids)[i])
  {
    forall i | 0 <= i < |ids| ensures ShortEntry(RootEntries(ids)[i]) {
      BoundedExactly(ids[i], 4 * 1024);
    }
  }

  lemma {:induction false} GroupsShort(groups: seq<OutputGroup>)
    ensures forall i :: 0 <= i < |GroupEntries(groups)| ==> ShortEntry(GroupEntries(groups)[i])
  {
    if groups != [] {
      GroupsShort(groups[..|groups| - 1]);
      RootsShort(groups[|groups| - 1].fileSets);
    }
  }

  lemma {:induction false} EntriesShort(e: BuildEvent)
    ensures forall i :: 0 <= i < |Entries(e)| ==> ShortEntry(Entries(e)[i])
  {
    match e.payload
    case Completed(_, groups, _, _) => GroupsShort(groups);
    case NamedSetOfFiles(_, fileSets) =>
      if e.id.Some? && e.id.value.NamedSetId? {
        BoundedExactly(e.id.value.id, 4 * 1024);
        BoundedShort(fileSets, 4 * 1024);
      }
    case OptionsParsed(startup, cmdLine) => BoundedShort(startup + cmdLine, 64 * 1024);
    case _ =>
  }

  lemma {:induction false} PutShort(c: Content, e: Entry)
    requires Short(c) && ShortEntry(e)
    ensures Short(Put(c, e))
  {
  }

  lemma GrantShort(s: State, price: Option<(nat, nat)>, after: Content)
    requires Short(s.content) && Short(after)
    ensures Short(Grant(s, price, after).content)
  {
  }

  lemma {:induction false} KeepAllShort(s: State, es: seq<Entry>)
    requires Short(s.content) && forall i :: 0 <= i < |es| ==> ShortEntry(es[i])
    ensures Short(KeepAll(s, es).content)
  {
    if es != [] {
      var before, e := KeepAll(s, es[..|es| - 1]), es[|es| - 1];
      KeepAllShort(s, es[..|es| - 1]);
      PutShort(before.content, e);
      GrantShort(before, Cost(before.content, e), Put(before.content, e));
    }
  }

  /** However long the texts of a stream are, those kept are short. */
  lemma {:induction false} StreamShort(events: seq<BuildEvent>)
    ensures Short(ObserveAll(events).content)
  {
    if events != [] {
      var init, last := events[..|events| - 1], events[|events| - 1];
      StreamShort(init);
      EntriesShort(last);
      KeepAllShort(ObserveAll(init), Entries(last));
    }
  }
}
