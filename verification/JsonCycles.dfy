/** When a heap value has a JSON text: exactly when it unfolds to a tree, which is
    exactly when no path from it meets an unserializable value or comes back to an
    object it already went through. Sharing is no obstacle. */
module JsonCycles {
  import opened Base
  import opened JsonText
  import opened JsonSize

  // ------------------------------------------------------------ a value's tree

  lemma {:induction false} UnfoldsOnce(h: Heap, v: Value, a: Json, b: Json)
    requires Unfolds(h, v, a) && Unfolds(h, v, b)
    ensures a == b
    decreases a
  {
    if v.Ref? {
      match Lookup(h, v.id)
      case Dict(entries) =>
        forall i | 0 <= i < |a.members| ensures a.members[i] == b.members[i] {
          UnfoldsOnce(h, entries[i].value, a.members[i].value, b.members[i].value);
        }
        assert a.members == b.members;
      case List(items) => ItemsUnfoldOnce(h, items, a.items, b.items);
      case Tuple(items) => ItemsUnfoldOnce(h, items, a.items, b.items);
    }
  }

  lemma {:induction false} ItemsUnfoldOnce(h: Heap, items: seq<Value>, a: seq<Json>, b: seq<Json>)
    requires UnfoldsItems(h, items, a) && UnfoldsItems(h, items, b)
    ensures a == b
    decreases a
  {
    forall i | 0 <= i < |a| ensures a[i] == b[i] {
      UnfoldsOnce(h, items[i], a[i], b[i]);
    }
  }

  lemma {:induction false} UnfoldSound(h: Heap, v: Value, ancestors: seq<nat>)
    ensures Unfold(h, v, ancestors).Ok? ==> Unfolds(h, v, Unfold(h, v, ancestors).value)
    decreases Unseen(h, ancestors), 0
  {
    if v.Ref? && v.id !in ancestors {
      VisitShrinks(h, ancestors, v.id);
      match Lookup(h, v.id)
      case Other =>
      case Dict(entries) => EntriesSound(h, entries, ancestors + [v.id]);
      case List(items) => ItemsSound(h, items, ancestors + [v.id]);
      case Tuple(items) => ItemsSound(h, items, ancestors + [v.id]);
    }
  }

  lemma {:induction false} ItemsSound(h: Heap, items: seq<Value>, ancestors: seq<nat>)
    ensures UnfoldItems(h, items, ancestors).Ok? ==>
              UnfoldsItems(h, items, UnfoldItems(h, items, ancestors).value)
    decreases Unseen(h, ancestors), |items| + 1
  {
    if items != [] {
      ItemsSound(h, items[..|items| - 1], ancestors);
      UnfoldSound(h, items[|items| - 1], ancestors);
    }
  }

  lemma {:induction false} EntriesSound(h: Heap, entries: seq<Entry>, ancestors: seq<nat>)
    ensures UnfoldEntries(h, entries, ancestors).Ok? ==>
              UnfoldsEntries(h, entries, UnfoldEntries(h, entries, ancestors).value)
    decreases Unseen(h, ancestors), |entries| + 1
  {
    if entries != [] {
      EntriesSound(h, entries[..|entries| - 1], ancestors);
      UnfoldSound(h, entries[|entries| - 1].value, ancestors);
    }
  }

  /** A part's text is shorter than the whole's. */
  lemma {:induction false} ItemShorter(js: seq<Json>, i: nat)
    requires i < |js|
    ensures |Text(js[i])| < |Text(Array(js))|
  {
    var init := js[..|js| - 1];
    assert js == init + [js[|js| - 1]];
    ListedSnoc(init, js[|js| - 1]);
    if i < |init| {
      ItemShorter(init, i);
    }
  }

  lemma {:induction false} MemberShorter(ms: seq<Member>, i: nat)
    requires i < |ms|
    ensures |Text(ms[i].value)| < |Text(Object(ms))|
  {
    var init := ms[..|ms| - 1];
    assert ms == init + [ms[|ms| - 1]];
    MemberedSnoc(init, ms[|ms| - 1]);
    if i < |init| {
      MemberShorter(init, i);
    }
  }

  /** Every ancestor has a tree, with a text longer than `n`. */
  ghost predicate Above(h: Heap, ancestors: seq<nat>, trees: seq<Json>, n: nat) {
    |trees| == |ancestors| &&
    forall i :: 0 <= i < |trees| ==> Unfolds(h, Ref(ancestors[i]), trees[i]) && |Text(trees[i])| > n
  }

  lemma {:induction false} UnfoldComplete(h: Heap, v: Value, j: Json, ancestors: seq<nat>, trees: seq<Json>)
    requires Unfolds(h, v, j) && Above(h, ancestors, trees, |Text(j)|)
    ensures Unfold(h, v, ancestors) == Ok(j)
    decreases j
  {
    if v.Ref? {
      var id := v.id;
      if id in ancestors {
        var i :| 0 <= i < |ancestors| && ancestors[i] == id;
        UnfoldsOnce(h, v, j, trees[i]);
        assert false;
      }
      match Lookup(h, id)
      case Dict(entries) => EntriesComplete(h, entries, j.members, ancestors + [id], trees + [j]);
      case List(items) => ItemsComplete(h, items, j.items, ancestors + [id], trees + [j]);
      case Tuple(items) => ItemsComplete(h, items, j.items, ancestors + [id], trees + [j]);
    }
  }

  lemma {:induction false} ItemsComplete(
    h: Heap, items: seq<Value>, js: seq<Json>, ancestors: seq<nat>, trees: seq<Json>)
    requires UnfoldsItems(h, items, js) && Above(h, ancestors, trees, |Text(Array(js))| - 1)
    ensures UnfoldItems(h, items, ancestors) == Ok(js)
    decreases js
  {
    if js != [] {
      var init, last := js[..|js| - 1], js[|js| - 1];
      assert js == init + [last];
      ListedSnoc(init, last);
      ItemsComplete(h, items[..|items| - 1], init, ancestors, trees);
      UnfoldComplete(h, items[|items| - 1], last, ancestors, trees);
    }
  }

  lemma {:induction false} EntriesComplete(
    h: Heap, entries: seq<Entry>, ms: seq<Member>, ancestors: seq<nat>, trees: seq<Json>)
    requires UnfoldsEntries(h, entries, ms) && Above(h, ancestors, trees, |Text(Object(ms))| - 1)
    ensures UnfoldEntries(h, entries, ancestors) == Ok(ms)
    decreases ms
  {
    if ms != [] {
      var init, last := ms[..|ms| - 1], ms[|ms| - 1];
      assert ms == init + [last];
      MemberedSnoc(init, last);
      EntriesComplete(h, entries[..|entries| - 1], init, ancestors, trees);
      UnfoldComplete(h, entries[|entries| - 1].value, last.value, ancestors, trees);
    }
  }

  /** A size is returned exactly for the values that unfold to a tree, and it is the
      length of that tree's compact text. */
  lemma {:induction false} SizeOfTree(h: Heap, v: Value, j: Json)
    ensures Unfolds(h, v, j) <==> Unfold(h, v, []) == Ok(j)
    ensures Unfolds(h, v, j) ==> Sized(Unfold(h, v, [])) == Ok(Cap(|Text(j)|))
  {
    UnfoldSound(h, v, []);
    if Unfolds(h, v, j) {
      UnfoldComplete(h, v, j, [], []);
    }
  }

  // ----------------------------------------------------------------------- paths

  function Children(h: Heap, v: Value): seq<Value> {
    if !v.Ref? then []
    else
      match Lookup(h, v.id)
      case List(items) => items
      case Tuple(items) => items
      case Dict(entries) => seq(|entries|, i requires 0 <= i < |entries| => entries[i].value)
      case Other => []
  }

  ghost predicate Path(h: Heap, p: seq<Value>) {
    p != [] && forall i :: 0 < i < |p| ==> p[i] in Children(h, p[i - 1])
  }

  /** A value that has no JSON text whatever it holds. */
  predicate Bad(h: Heap, v: Value) {
    || v == Float(None)
    || (v.Ref? &&
        var o := Lookup(h, v.id);
        o.Other? || (o.Dict? && exists i :: 0 <= i < |o.entries| && !o.entries[i].key.Str?))
  }

  /** The path ends in a bad value, or in an object it went through before. */
  predicate Trouble(h: Heap, p: seq<Value>)
    requires p != []
  {
    var last := p[|p| - 1];
    Bad(h, last) || (last.Ref? && last in p[..|p| - 1])
  }

  lemma PathInit(h: Heap, p: seq<Value>)
    requires Path(h, p) && |p| > 1
    ensures Path(h, p[..|p| - 1]) && p[|p| - 1] in Children(h, p[|p| - 2])
  {
    var init := p[..|p| - 1];
    forall i | 0 < i < |init| ensures init[i] in Children(h, init[i - 1]) {
      assert p[i] in Children(h, p[i - 1]);
    }
  }

  /** Trees for the values of a path, the last one the smallest. */
  ghost predicate Shrinking(h: Heap, p: seq<Value>, trees: seq<Json>) {
    && |trees| == |p|
    && (forall i :: 0 <= i < |p| ==> Unfolds(h, p[i], trees[i]))
    && (forall i :: 0 <= i < |p| - 1 ==> |Text(trees[i])| > |Text(trees[|p| - 1])|)
  }

  lemma {:induction false} ShrinkingSnoc(h: Heap, p: seq<Value>, trees: seq<Json>, v: Value, j: Json)
    requires Shrinking(h, p, trees) && Unfolds(h, v, j)
    requires p != [] ==> |Text(j)| < |Text(trees[|p| - 1])|
    ensures Shrinking(h, p + [v], trees + [j])
  {
  }

  lemma {:induction false} PathTrees(h: Heap, p: seq<Value>, j: Json) returns (trees: seq<Json>)
    requires Path(h, p) && Unfolds(h, p[0], j)
    ensures Shrinking(h, p, trees)
    decreases |p|
  {
    if |p| == 1 {
      trees := [j];
    } else {
      var init, last := p[..|p| - 1], p[|p| - 1];
      PathInit(h, p);
      var before := PathTrees(h, init, j);
      var next := ChildTree(h, init[|init| - 1], before[|init| - 1], last);
      trees := before + [next];
      ShrinkingSnoc(h, init, before, last, next);
      assert p == init + [last];
    }
  }

  lemma ChildTree(h: Heap, v: Value, j: Json, child: Value) returns (next: Json)
    requires Unfolds(h, v, j) && child in Children(h, v)
    ensures Unfolds(h, child, next) && |Text(next)| < |Text(j)|
  {
    var i :| 0 <= i < |Children(h, v)| && Children(h, v)[i] == child;
    if j.Object? {
      next := j.members[i].value;
      MemberShorter(j.members, i);
    } else {
      next := j.items[i];
      ItemShorter(j.items, i);
    }
  }

  lemma {:induction false} FailingItem(h: Heap, items: seq<Value>, ancestors: seq<nat>) returns (k: nat)
    requires UnfoldItems(h, items, ancestors).Err?
    ensures k < |items| && Unfold(h, items[k], ancestors) == Err(UnfoldItems(h, items, ancestors).error)
    decreases |items|
  {
    if UnfoldItems(h, items[..|items| - 1], ancestors).Err? {
      k := FailingItem(h, items[..|items| - 1], ancestors);
    } else {
      k := |items| - 1;
    }
  }

  lemma {:induction false} FailingEntry(h: Heap, entries: seq<Entry>, ancestors: seq<nat>) returns (k: nat)
    requires UnfoldEntries(h, entries, ancestors).Err?
    ensures k < |entries|
    ensures
      var e := UnfoldEntries(h, entries, ancestors).error;
      (!entries[k].key.Str? && e == KeyNotString) || Unfold(h, entries[k].value, ancestors) == Err(e)
    decreases |entries|
  {
    if UnfoldEntries(h, entries[..|entries| - 1], ancestors).Err? {
      k := FailingEntry(h, entries[..|entries| - 1], ancestors);
    } else {
      k := |entries| - 1;
    }
  }

  /** The stack of ancestors followed by the value is a path. */
  ghost predicate Standing(h: Heap, v: Value, ancestors: seq<nat>, p: seq<Value>) {
    && Path(h, p) && |p| == |ancestors| + 1 && p[|ancestors|] == v
    && forall i :: 0 <= i < |ancestors| ==> p[i] == Ref(ancestors[i])
  }

  lemma StandingNext(h: Heap, v: Value, ancestors: seq<nat>, p: seq<Value>, child: Value)
    requires Standing(h, v, ancestors, p) && v.Ref? && child in Children(h, v)
    ensures Standing(h, child, ancestors + [v.id], p + [child])
  {
  }

  /** The path ends where the error says: in an object it went through before, an object of
      another kind, a dictionary with a key that is no string, or a float without text. */
  predicate Causes(h: Heap, p: seq<Value>, e: SizeError)
    requires p != []
  {
    var last := p[|p| - 1];
    match e
    case Cyclic => last.Ref? && last in p[..|p| - 1]
    case NotSerializable => last.Ref? && Lookup(h, last.id).Other?
    case KeyNotString =>
      last.Ref? && var o := Lookup(h, last.id);
      o.Dict? && exists i :: 0 <= i < |o.entries| && !o.entries[i].key.Str?
    case NoFloatText => last == Float(None)
  }

  /** Follows an error down to its cause. */
  lemma {:induction false} ErrorHasCause(h: Heap, v: Value, ancestors: seq<nat>, p: seq<Value>)
    returns (q: seq<Value>)
    requires Standing(h, v, ancestors, p) && Unfold(h, v, ancestors).Err?
    ensures Path(h, q) && q[0] == p[0] && Causes(h, q, Unfold(h, v, ancestors).error)
    decreases Unseen(h, ancestors)
  {
    q := p;
    if v.Ref? {
      if v.id in ancestors {
        var i :| 0 <= i < |ancestors| && ancestors[i] == v.id;
        assert p[..|p| - 1][i] == v;
      } else if !Lookup(h, v.id).Other? {
        var k, keyed := FailingChild(h, v, ancestors);
        if !keyed {
          VisitShrinks(h, ancestors, v.id);
          var child := Children(h, v)[k];
          StandingNext(h, v, ancestors, p, child);
          q := ErrorHasCause(h, child, ancestors + [v.id], p + [child]);
        }
      }
    }
  }

  /** The child an error comes from, unless it is the key of an entry. */
  lemma FailingChild(h: Heap, v: Value, ancestors: seq<nat>) returns (k: nat, keyed: bool)
    requires v.Ref? && v.id !in ancestors && !Lookup(h, v.id).Other? && Unfold(h, v, ancestors).Err?
    ensures keyed ==> Causes(h, [v], KeyNotString) && Unfold(h, v, ancestors).error == KeyNotString
    ensures !keyed ==>
      && k < |Children(h, v)|
      && Unfold(h, Children(h, v)[k], ancestors + [v.id]) == Err(Unfold(h, v, ancestors).error)
  {
    keyed := false;
    match Lookup(h, v.id)
    case Dict(entries) =>
      k := FailingEntry(h, entries, ancestors + [v.id]);
      keyed := !entries[k].key.Str? && Unfold(h, v, ancestors).error == KeyNotString;
    case List(items) => k := FailingItem(h, items, ancestors + [v.id]);
    case Tuple(items) => k := FailingItem(h, items, ancestors + [v.id]);
  }

  /** A refusal names what is wrong, and it is wrong somewhere on a path from the value. */
  lemma {:induction false} RefusalNamesCause(h: Heap, v: Value) returns (q: seq<Value>)
    requires Unfold(h, v, []).Err?
    ensures Path(h, q) && q[0] == v && Causes(h, q, Unfold(h, v, []).error)
  {
    q := ErrorHasCause(h, v, [], [v]);
  }

  /** A value is accepted exactly when no path from it gets into trouble: every
      reachable cycle is refused, and nothing else but unserializable parts. */
  lemma {:induction false} AcceptedExactly(h: Heap, v: Value)
    ensures Unfold(h, v, []).Ok? <==> forall p :: Path(h, p) && p[0] == v ==> !Trouble(h, p)
  {
    if Unfold(h, v, []).Err? {
      var q := ErrorHasCause(h, v, [], [v]);
    } else {
      forall p | Path(h, p) && p[0] == v ensures !Trouble(h, p) {
        NoTrouble(h, p, Unfold(h, v, []).value);
      }
    }
  }

  lemma {:induction false} TreeNotBad(h: Heap, v: Value, j: Json)
    requires Unfolds(h, v, j)
    ensures !Bad(h, v)
  {
    if v.Ref? && Lookup(h, v.id).Dict? {
      forall i | 0 <= i < |j.members| ensures Lookup(h, v.id).entries[i].key.Str? {
        assert Lookup(h, v.id).entries[i].key == Str(j.members[i].key);
      }
    }
  }

  lemma {:induction false} NoTrouble(h: Heap, p: seq<Value>, j: Json)
    requires Path(h, p) && Unfold(h, p[0], []) == Ok(j)
    ensures !Trouble(h, p)
  {
    UnfoldSound(h, p[0], []);
    var trees := PathTrees(h, p, j);
    var n := |p| - 1;
    TreeNotBad(h, p[n], trees[n]);
    if p[n] in p[..n] {
      var i :| 0 <= i < n && p[i] == p[n];
      UnfoldsOnce(h, p[n], trees[i], trees[n]);
    }
  }
}
