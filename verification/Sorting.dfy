/** The stable sort of the standard library, by what it promises: the result is
    ordered, has the same elements, and keeps the order of elements that tie. */
module Sorting {

  ghost predicate TotalPreorder<T(!new)>(le: (T, T) -> bool) {
    && (forall a, b :: le(a, b) || le(b, a))
    && (forall a, b, c :: le(a, b) && le(b, c) ==> le(a, c))
  }

  /** No two different elements tie. */
  ghost predicate NoTies<T(!new)>(le: (T, T) -> bool, xs: seq<T>) {
    forall a, b :: a in xs && b in xs && le(a, b) && le(b, a) ==> a == b
  }

  predicate Sorted<T>(le: (T, T) -> bool, xs: seq<T>) {
    forall i, j :: 0 <= i < j < |xs| ==> le(xs[i], xs[j])
  }

  /** Puts `x` behind every element it does not have to precede. */
  function Insert<T>(le: (T, T) -> bool, xs: seq<T>, x: T): seq<T> {
    if xs == [] then [x]
    else
      var init, last := xs[..|xs| - 1], xs[|xs| - 1];
      if le(last, x) then xs + [x] else Insert(le, init, x) + [last]
  }

  function SortBy<T>(le: (T, T) -> bool, xs: seq<T>): seq<T> {
    if xs == [] then [] else Insert(le, SortBy(le, xs[..|xs| - 1]), xs[|xs| - 1])
  }

  /** The elements that tie with `k`, in order. */
  function Ties<T>(le: (T, T) -> bool, xs: seq<T>, k: T): seq<T> {
    if xs == [] then []
    else
      var last := xs[|xs| - 1];
      Ties(le, xs[..|xs| - 1], k) + (if le(last, k) && le(k, last) then [last] else [])
  }

  lemma {:induction false} InsertElements<T>(le: (T, T) -> bool, xs: seq<T>, x: T)
    ensures multiset(Insert(le, xs, x)) == multiset(xs) + multiset{x}
    ensures |Insert(le, xs, x)| == |xs| + 1
  {
    if xs != [] {
      var init, last := xs[..|xs| - 1], xs[|xs| - 1];
      assert xs == init + [last];
      InsertElements(le, init, x);
    }
  }

  lemma {:induction false} InsertSorted<T(!new)>(le: (T, T) -> bool, xs: seq<T>, x: T)
    requires TotalPreorder(le) && Sorted(le, xs)
    ensures Sorted(le, Insert(le, xs, x))
  {
    if xs != [] {
      var init, last := xs[..|xs| - 1], xs[|xs| - 1];
      if !le(last, x) {
        InsertSorted(le, init, x);
        InsertElements(le, init, x);
        forall y | y in Insert(le, init, x) ensures le(y, last) {
          assert y in multiset(Insert(le, init, x));
          assert y in multiset(init) || y == x;
        }
      }
    }
  }

  lemma {:induction false} InsertTies<T(!new)>(le: (T, T) -> bool, xs: seq<T>, x: T, k: T)
    requires TotalPreorder(le) && Sorted(le, xs)
    ensures Ties(le, Insert(le, xs, x), k) == Ties(le, xs, k) + (if le(x, k) && le(k, x) then [x] else [])
  {
    if xs == [] {
      assert [x][..0] == [];
    } else {
      var init, last := xs[..|xs| - 1], xs[|xs| - 1];
      assert xs == init + [last];
      if le(last, x) {
        assert (xs + [x])[..|xs|] == xs;
      } else {
        InsertTies(le, init, x, k);
        InsertElements(le, init, x);
        assert (Insert(le, init, x) + [last])[..|xs|] == Insert(le, init, x);
      }
    }
  }

  /** Ordered, the same elements, ties in their old order. */
  lemma {:induction false} SortByLaws<T(!new)>(le: (T, T) -> bool, xs: seq<T>)
    requires TotalPreorder(le)
    ensures Sorted(le, SortBy(le, xs))
    ensures multiset(SortBy(le, xs)) == multiset(xs) && |SortBy(le, xs)| == |xs|
    ensures forall k :: Ties(le, SortBy(le, xs), k) == Ties(le, xs, k)
  {
    if xs != [] {
      var init, last := xs[..|xs| - 1], xs[|xs| - 1];
      assert xs == init + [last];
      SortByLaws(le, init);
      InsertSorted(le, SortBy(le, init), last);
      InsertElements(le, SortBy(le, init), last);
      forall k ensures Ties(le, SortBy(le, xs), k) == Ties(le, xs, k) {
        InsertTies(le, SortBy(le, init), last, k);
      }
    }
  }

  lemma {:induction false} SortByMembers<T(!new)>(le: (T, T) -> bool, xs: seq<T>)
    requires TotalPreorder(le)
    ensures forall x :: x in SortBy(le, xs) <==> x in xs
  {
    SortByLaws(le, xs);
    forall x ensures x in SortBy(le, xs) <==> x in xs {
      assert x in SortBy(le, xs) <==> x in multiset(SortBy(le, xs));
    }
  }

  /** Sorting what is sorted changes nothing. */
  lemma {:induction false} SortBySorted<T(!new)>(le: (T, T) -> bool, xs: seq<T>)
    requires Sorted(le, xs)
    ensures SortBy(le, xs) == xs
  {
    if xs != [] {
      var init, last := xs[..|xs| - 1], xs[|xs| - 1];
      assert xs == init + [last];
      SortBySorted(le, init);
      assert init != [] ==> le(init[|init| - 1], last);
    }
  }

  lemma LastIsGreatest<T(!new)>(le: (T, T) -> bool, xs: seq<T>, ys: seq<T>)
    requires TotalPreorder(le) && Sorted(le, xs) && multiset(xs) == multiset(ys)
    requires xs != [] && ys != []
    ensures le(ys[|ys| - 1], xs[|xs| - 1])
  {
    var y := ys[|ys| - 1];
    assert y in multiset(ys);
    assert y in multiset(xs);
    var i :| 0 <= i < |xs| && xs[i] == y;
    assert le(y, y);
  }

  lemma InitElements<T>(xs: seq<T>)
    requires xs != []
    ensures multiset(xs[..|xs| - 1]) == multiset(xs) - multiset{xs[|xs| - 1]}
  {
    assert xs == xs[..|xs| - 1] + [xs[|xs| - 1]];
  }

  lemma SortedInit<T>(le: (T, T) -> bool, xs: seq<T>)
    requires Sorted(le, xs) && xs != []
    ensures Sorted(le, xs[..|xs| - 1])
  {
  }

  lemma SameEnds<T>(xs: seq<T>, ys: seq<T>)
    requires xs != [] && ys != []
    requires xs[..|xs| - 1] == ys[..|ys| - 1] && xs[|xs| - 1] == ys[|ys| - 1]
    ensures xs == ys
  {
    assert xs == xs[..|xs| - 1] + [xs[|xs| - 1]];
    assert ys == ys[..|ys| - 1] + [ys[|ys| - 1]];
  }

  lemma SameLast<T(!new)>(le: (T, T) -> bool, xs: seq<T>, ys: seq<T>)
    requires TotalPreorder(le) && NoTies(le, xs)
    requires Sorted(le, xs) && Sorted(le, ys) && multiset(xs) == multiset(ys) && xs != []
    ensures ys != [] && xs[|xs| - 1] == ys[|ys| - 1]
  {
    assert |xs| == |multiset(xs)| == |multiset(ys)| == |ys|;
    LastIsGreatest(le, xs, ys);
    LastIsGreatest(le, ys, xs);
    assert ys[|ys| - 1] in multiset(ys);
    assert ys[|ys| - 1] in multiset(xs);
  }

  /** Without ties, the order of the input does not matter. */
  lemma {:induction false} SortedUnique<T(!new)>(le: (T, T) -> bool, xs: seq<T>, ys: seq<T>)
    requires TotalPreorder(le) && NoTies(le, xs)
    requires Sorted(le, xs) && Sorted(le, ys) && multiset(xs) == multiset(ys)
    ensures xs == ys
    decreases |xs|
  {
    if xs == [] {
      assert |multiset(ys)| == |multiset(xs)| == 0;
    } else {
      SameLast(le, xs, ys);
      InitElements(xs);
      InitElements(ys);
      SortedInit(le, xs);
      SortedInit(le, ys);
      SortedUnique(le, xs[..|xs| - 1], ys[..|ys| - 1]);
      SameEnds(xs, ys);
    }
  }

  lemma {:induction false} SortByPermuted<T(!new)>(le: (T, T) -> bool, xs: seq<T>, ys: seq<T>)
    requires TotalPreorder(le) && NoTies(le, xs) && multiset(xs) == multiset(ys)
    ensures SortBy(le, xs) == SortBy(le, ys)
  {
    SortByMembers(le, xs);
    SortByLaws(le, xs);
    SortByLaws(le, ys);
    SortedUnique(le, SortBy(le, xs), SortBy(le, ys));
  }

  // --------------------------------------------------------------------- strings

  /** Byte-wise order of strings. */
  predicate StringLe(a: string, b: string) {
    a == [] || (b != [] && (a[0] < b[0] || (a[0] == b[0] && StringLe(a[1..], b[1..]))))
  }

  lemma {:induction false} StringLeTotal(a: string, b: string)
    ensures StringLe(a, b) || StringLe(b, a)
    ensures StringLe(a, b) && StringLe(b, a) ==> a == b
    decreases |a|
  {
    if a != [] && b != [] {
      StringLeTotal(a[1..], b[1..]);
      assert a == [a[0]] + a[1..] && b == [b[0]] + b[1..];
    }
  }

  lemma {:induction false} StringLeTransitive(a: string, b: string, c: string)
    requires StringLe(a, b) && StringLe(b, c)
    ensures StringLe(a, c)
    decreases |a|
  {
    if a != [] && a[0] == b[0] == c[0] {
      StringLeTransitive(a[1..], b[1..], c[1..]);
    }
  }

  /** Byte by byte: a prefix comes first, and otherwise the first difference decides. */
  lemma {:induction false} StringLeExactly(a: string, b: string)
    ensures StringLe(a, b) <==> a <= b || exists k :: DiffersAt(a, b, k) && a[k] < b[k]
  {
    if a != [] && b != [] && a[0] == b[0] {
      StringLeExactly(a[1..], b[1..]);
      assert a == [a[0]] + a[1..] && b == [b[0]] + b[1..];
      if k :| DiffersAt(a[1..], b[1..], k) && a[1..][k] < b[1..][k] {
        assert DiffersAt(a, b, k + 1);
      }
      if k :| DiffersAt(a, b, k) && a[k] < b[k] {
        assert k > 0;
        assert a[..k][1..] == a[1..][..k - 1] && b[..k][1..] == b[1..][..k - 1];
        assert DiffersAt(a[1..], b[1..], k - 1);
      }
    } else if a != [] && b != [] {
      assert a[..0] == b[..0];
      assert DiffersAt(a, b, 0);
      forall k | DiffersAt(a, b, k) ensures k > 0 ==> a[0] == b[0] {
        StartSame(a, b, k);
      }
    }
  }

  /** The strings are the same up to position `k` and differ there. */
  predicate DiffersAt(a: string, b: string, k: int) {
    0 <= k < |a| && k < |b| && a[..k] == b[..k] && a[k] != b[k]
  }

  lemma StartSame(a: string, b: string, k: int)
    requires DiffersAt(a, b, k)
    ensures k > 0 ==> a[0] == b[0]
  {
    if k > 0 {
      assert a[..k][0] == a[0] && b[..k][0] == b[0];
    }
  }
}
