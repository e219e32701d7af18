/** Redaction of secrets under a size limit. What a pattern matches is left open: it
    is any function that finds ordered, disjoint stretches of a text. */
module Redaction {
  import opened Base

  /** Offset `i` is not inside a UTF-8 encoded character. */
  predicate CharBoundary(v: Bytes, i: nat) {
    i == 0 || i == |v| || (i < |v| && !(128 <= v[i] < 192))
  }

  function BoundaryBelow(v: Bytes, i: nat): (r: nat)
    ensures r <= i && CharBoundary(v, r) && forall k :: r < k <= i ==> !CharBoundary(v, k)
  {
    if CharBoundary(v, i) then i else BoundaryBelow(v, i - 1)
  }

  datatype Match = Match(start: nat, end: nat)

  predicate Ordered(v: Bytes, from: nat, ms: seq<Match>)
    decreases |ms|
  {
    from <= |v| && (ms != [] ==> from <= ms[0].start <= ms[0].end <= |v| && Ordered(v, ms[0].end, ms[1..]))
  }

  type Finder = Bytes -> seq<Match>

  ghost predicate FindsInOrder(find: Finder) {
    forall v :: Ordered(v, 0, find(v))
  }

  ghost predicate AllInOrder(patterns: seq<Finder>) {
    forall i :: 0 <= i < |patterns| ==> FindsInOrder(patterns[i])
  }

  /** "[REDACTED]" */
  const MARKER: Bytes := [91, 82, 69, 68, 65, 67, 84, 69, 68, 93]

  // ------------------------------------------------------------------ the meaning

  /** The text cut into what lies between matches and a marker for each match. */
  function Pieces(v: Bytes, from: nat, ms: seq<Match>): seq<Bytes>
    requires Ordered(v, from, ms)
    decreases |ms|
  {
    if ms == [] then [v[from..]]
    else [v[from..ms[0].start], MARKER] + Pieces(v, ms[0].end, ms[1..])
  }

  /** Every match replaced. */
  function Replaced(v: Bytes, ms: seq<Match>): Bytes
    requires Ordered(v, 0, ms)
  {
    Flatten(Pieces(v, 0, ms))
  }

  /** A text cut to a size at a character boundary. */
  function Cut(v: Bytes, room: nat): Bytes {
    if |v| <= room then v else v[..BoundaryBelow(v, room)]
  }

  /** What fits of a list of pieces; a marker that does not fit ends the text. */
  function Fitted(pieces: seq<Bytes>, room: nat): Bytes
    decreases |pieces|
  {
    if pieces == [] then []
    else if |pieces[0]| > room then Cut(pieces[0], room)
    else if |pieces| == 1 then pieces[0]
    else if |MARKER| > room - |pieces[0]| then pieces[0]
    else pieces[0] + (MARKER + Fitted(pieces[2..], room - |pieces[0]| - |MARKER|))
  }

  function Redacted(v: Bytes, ms: seq<Match>, limit: nat): Bytes
    requires Ordered(v, 0, ms)
  {
    Fitted(Pieces(v, 0, ms), limit)
  }

  /** The text so far followed by what fits of the rest. */
  ghost function Outcome(v: Bytes, from: nat, ms: seq<Match>, done: Bytes, limit: nat): Bytes
    requires Ordered(v, from, ms) && |done| <= limit
  {
    done + Fitted(Pieces(v, from, ms), limit - |done|)
  }

  /** What pushing the text before a match and the marker leaves, and whether both fit. */
  function WithMatch(done: Bytes, between: Bytes, limit: nat): (Bytes, bool)
    requires |done| <= limit
  {
    if |between| > limit - |done| then (done + Cut(between, limit - |done|), false)
    else if |done| + |between| + |MARKER| > limit then (done + between, false)
    else (done + between + MARKER, true)
  }

  lemma {:induction false} OutcomeNext(v: Bytes, from: nat, ms: seq<Match>, done: Bytes, limit: nat)
    requires ms != [] && Ordered(v, from, ms) && |done| <= limit
    ensures var (now, fits) := WithMatch(done, v[from..ms[0].start], limit);
            if fits then
              |now| <= limit && Outcome(v, from, ms, done, limit) == Outcome(v, ms[0].end, ms[1..], now, limit)
            else Outcome(v, from, ms, done, limit) == now
  {
    var pieces, between := Pieces(v, from, ms), v[from..ms[0].start];
    assert pieces[0] == between && pieces[2..] == Pieces(v, ms[0].end, ms[1..]);
    var room := limit - |done|;
    if |between| + |MARKER| <= room {
      var more := Fitted(pieces[2..], room - |between| - |MARKER|);
      assert done + (between + (MARKER + more)) == done + between + MARKER + more;
    }
  }

  // ---------------------------------------------------------------- the algorithm

  class Buffer {
    var text: Bytes

    constructor ()
      ensures text == []
    {
      text := [];
    }

    /** `push_bounded`: walks back from the limit to a character boundary. */
    method PushBounded(value: Bytes, limit: nat) returns (fits: bool)
      modifies this
      ensures fits <==> |value| <= SatSub(limit, |old(text)|)
      ensures text == old(text) + Cut(value, SatSub(limit, |old(text)|))
    {
      var remaining := SatSub(limit, |text|);
      if |value| <= remaining {
        text := text + value;
        return true;
      }
      var boundary: nat := remaining;
      while !CharBoundary(value, boundary)
        invariant boundary <= remaining
        invariant BoundaryBelow(value, boundary) == BoundaryBelow(value, remaining)
        decreases boundary
      {
        boundary := boundary - 1;
      }
      text := text + value[..boundary];
      return false;
    }

    /** The text before a match, then the marker if there is room for all of it. */
    method PushMatch(between: Bytes, limit: nat) returns (fits: bool)
      requires |text| <= limit
      modifies this
      ensures (text, fits) == WithMatch(old(text), between, limit)
    {
      fits := PushBounded(between, limit);
      if !fits {
        return;
      }
      if |text| + |MARKER| > limit {
        return false;
      }
      text := text + MARKER;
    }

    /** `replace_all_bounded`. */
    method ReplaceAllBounded(find: Finder, value: Bytes, limit: nat)
      requires FindsInOrder(find)
      modifies this
      ensures text == Redacted(value, find(value), limit)
    {
      text := [];
      var matches := find(value);
      var previousEnd: nat := 0;
      assert matches[0..] == matches;
      for i := 0 to |matches|
        invariant Ordered(value, previousEnd, matches[i..]) && |text| <= limit
        invariant Outcome(value, previousEnd, matches[i..], text, limit) == Redacted(value, matches, limit)
      {
        assert matches[i..][0] == matches[i] && matches[i..][1..] == matches[i + 1..];
        OutcomeNext(value, previousEnd, matches[i..], text, limit);
        var fits := PushMatch(value[previousEnd..matches[i].start], limit);
        if !fits {
          return;
        }
        previousEnd := matches[i].end;
      }
      var _ := PushBounded(value[previousEnd..], limit);
    }
  }

  /** The text after every pattern in turn, each bounded. */
  ghost function RedactedBy(patterns: seq<Finder>, v: Bytes, limit: nat): Bytes
    requires AllInOrder(patterns)
  {
    if patterns == [] then v
    else
      var before, find := RedactedBy(patterns[..|patterns| - 1], v, limit), patterns[|patterns| - 1];
      assert FindsInOrder(find);
      Redacted(before, find(before), limit)
  }

  /** `Redactor::redact_bounded_into`. */
  method RedactBoundedInto(patterns: seq<Finder>, value: Bytes, limit: nat, output: Buffer)
    requires AllInOrder(patterns)
    modifies output
    ensures output.text == if patterns == [] then Cut(value, limit) else RedactedBy(patterns, value, limit)
  {
    if patterns == [] {
      output.text := [];
      var _ := output.PushBounded(value, limit);
      return;
    }
    output.ReplaceAllBounded(patterns[0], value, limit);
    assert patterns[..1][..0] == [];
    var scratch := new Buffer();
    for i := 1 to |patterns|
      invariant output.text == RedactedBy(patterns[..i], value, limit)
    {
      assert patterns[..i + 1][..i] == patterns[..i];
      scratch.ReplaceAllBounded(patterns[i], output.text, limit);
      output.text, scratch.text := scratch.text, output.text;
    }
    assert patterns[..|patterns|] == patterns;
  }

  // ------------------------------------------------------------------------- laws

  /** Texts and markers in turn, a text first and last. */
  predicate Alternating(pieces: seq<Bytes>) {
    |pieces| == 1 || (|pieces| >= 3 && pieces[1] == MARKER && Alternating(pieces[2..]))
  }

  lemma {:induction false} PiecesAlternate(v: Bytes, from: nat, ms: seq<Match>)
    requires Ordered(v, from, ms)
    ensures Alternating(Pieces(v, from, ms))
    decreases |ms|
  {
    if ms != [] {
      PiecesAlternate(v, ms[0].end, ms[1..]);
      assert Pieces(v, from, ms)[2..] == Pieces(v, ms[0].end, ms[1..]);
    }
  }

  lemma {:induction false} FlattenTwo(pieces: seq<Bytes>)
    requires |pieces| >= 2
    ensures Flatten(pieces) == pieces[0] + (pieces[1] + Flatten(pieces[2..]))
  {
    assert pieces[1..][0] == pieces[1] && pieces[1..][1..] == pieces[2..];
  }

  lemma PrefixUnder(a: Bytes, b: Bytes, x: Bytes, y: Bytes)
    ensures x <= y ==> a + (b + x) <= a + (b + y)
    ensures x == y <==> a + (b + x) == a + (b + y)
  {
    if a + (b + x) == a + (b + y) {
      Cancel(a, b + x, b + y);
      Cancel(b, x, y);
    }
  }

  /** What fits is a prefix, obeys the limit, and is all of the text exactly when all
      of it fits. */
  lemma {:induction false} FittedLaws(pieces: seq<Bytes>, room: nat)
    requires Alternating(pieces)
    ensures Fitted(pieces, room) <= Flatten(pieces)
    ensures |Fitted(pieces, room)| <= room
    ensures Fitted(pieces, room) == Flatten(pieces) <==> |Flatten(pieces)| <= room
    decreases |pieces|
  {
    if |pieces| == 1 {
      assert Flatten(pieces) == pieces[0] + [] == pieces[0];
    } else {
      FlattenTwo(pieces);
      if |pieces[0]| + |MARKER| <= room {
        var more := Fitted(pieces[2..], room - |pieces[0]| - |MARKER|);
        FittedLaws(pieces[2..], room - |pieces[0]| - |MARKER|);
        PrefixUnder(pieces[0], MARKER, more, Flatten(pieces[2..]));
      }
    }
  }

  /** Bounded redaction is a prefix of the full replacement, and is the full
      replacement exactly when that fits. */
  lemma {:induction false} RedactedLaws(v: Bytes, ms: seq<Match>, limit: nat)
    requires Ordered(v, 0, ms)
    ensures Redacted(v, ms, limit) <= Replaced(v, ms)
    ensures |Redacted(v, ms, limit)| <= limit
    ensures Redacted(v, ms, limit) == Replaced(v, ms) <==> |Replaced(v, ms)| <= limit
  {
    PiecesAlternate(v, 0, ms);
    FittedLaws(Pieces(v, 0, ms), limit);
  }

  /** Does not start inside a character, as no UTF-8 text does. */
  predicate Clean(v: Bytes) {
    v == [] || !(128 <= v[0] < 192)
  }

  predicate AllClean(pieces: seq<Bytes>) {
    forall i :: 0 <= i < |pieces| ==> Clean(pieces[i])
  }

  predicate OnBoundaries(v: Bytes, ms: seq<Match>) {
    forall i :: 0 <= i < |ms| ==> CharBoundary(v, ms[i].start) && CharBoundary(v, ms[i].end)
  }

  lemma {:induction false} PiecesClean(v: Bytes, from: nat, ms: seq<Match>)
    requires Ordered(v, from, ms) && Clean(v) && CharBoundary(v, from) && OnBoundaries(v, ms)
    ensures AllClean(Pieces(v, from, ms))
    decreases |ms|
  {
    if ms != [] {
      PiecesClean(v, ms[0].end, ms[1..]);
    }
  }

  lemma {:induction false} FlattenClean(pieces: seq<Bytes>)
    requires AllClean(pieces)
    ensures Clean(Flatten(pieces))
  {
    if pieces != [] {
      FlattenClean(pieces[1..]);
      assert pieces[0] == [] ==> Flatten(pieces) == Flatten(pieces[1..]);
    }
  }

  lemma BoundaryUnder(a: Bytes, y: Bytes, n: nat)
    requires Clean(y) && n <= |y| && CharBoundary(y, n)
    ensures CharBoundary(a + y, |a| + n)
  {
    if n < |y| {
      assert (a + y)[|a| + n] == y[n];
    }
  }

  lemma BoundaryWithin(a: Bytes, y: Bytes, n: nat)
    requires Clean(y) && n <= |a| && CharBoundary(a, n)
    ensures CharBoundary(a + y, n)
  {
    if n < |a| {
      assert (a + y)[n] == a[n];
    } else if y != [] {
      assert (a + y)[n] == y[0];
    }
  }

  lemma {:induction false} FittedBoundary(pieces: seq<Bytes>, room: nat)
    requires Alternating(pieces) && AllClean(pieces)
    ensures CharBoundary(Flatten(pieces), |Fitted(pieces, room)|)
    decreases |pieces|
  {
    var rest := Flatten(pieces[1..]);
    FlattenClean(pieces[1..]);
    if |pieces[0]| > room {
      BoundaryWithin(pieces[0], rest, BoundaryBelow(pieces[0], room));
    } else if |pieces| == 1 || |MARKER| > room - |pieces[0]| {
      BoundaryWithin(pieces[0], rest, |pieces[0]|);
    } else {
      var more := Fitted(pieces[2..], room - |pieces[0]| - |MARKER|);
      FittedBoundary(pieces[2..], room - |pieces[0]| - |MARKER|);
      FittedLaws(pieces[2..], room - |pieces[0]| - |MARKER|);
      FlattenClean(pieces[2..]);
      assert pieces[1..][1..] == pieces[2..];
      BoundaryUnder(MARKER, Flatten(pieces[2..]), |more|);
      BoundaryUnder(pieces[0], rest, |MARKER| + |more|);
    }
  }

  /** The cut never falls inside a character. */
  lemma {:induction false} RedactedBetweenCharacters(v: Bytes, ms: seq<Match>, limit: nat)
    requires Ordered(v, 0, ms) && Clean(v) && OnBoundaries(v, ms)
    ensures CharBoundary(Replaced(v, ms), |Redacted(v, ms, limit)|)
  {
    PiecesAlternate(v, 0, ms);
    PiecesClean(v, 0, ms);
    FittedBoundary(Pieces(v, 0, ms), limit);
  }

  lemma UnderTwo(pieces: seq<Bytes>, k: nat, end: Bytes)
    requires |pieces| >= 2 && k <= |pieces| - 2
    ensures Flatten(pieces[..k + 2]) + end == pieces[0] + (pieces[1] + (Flatten(pieces[2..][..k]) + end))
  {
    var front := Flatten(pieces[2..][..k]);
    FlattenTwo(pieces[..k + 2]);
    assert pieces[..k + 2][2..] == pieces[2..][..k];
    Assoc(pieces[1], front, end);
    Assoc(pieces[0], pieces[1] + front, end);
  }

  /** More of piece `k` would not fit, and if it fits whole, the next marker does not. */
  predicate Fullest(pieces: seq<Bytes>, room: nat, k: nat, n: nat)
    requires k < |pieces| && n <= |pieces[k]|
  {
    var used := |Flatten(pieces[..k])|;
    && (forall j :: n < j <= |pieces[k]| && CharBoundary(pieces[k], j) ==> used + j > room)
    && (n == |pieces[k]| && k + 1 < |pieces| ==> used + n + |MARKER| > room)
  }

  /** The text ends in piece `k`, a text, after `n` of its bytes and as late as it can;
      never inside a marker. */
  lemma {:induction false} FittedEnd(pieces: seq<Bytes>, room: nat) returns (k: nat, n: nat)
    requires Alternating(pieces)
    ensures k < |pieces| && n <= |pieces[k]| && CharBoundary(pieces[k], n)
    ensures Fitted(pieces, room) == Flatten(pieces[..k]) + pieces[k][..n]
    ensures k % 2 == 0 && Fullest(pieces, room, k, n)
    decreases |pieces|
  {
    if |pieces[0]| > room {
      k, n := 0, BoundaryBelow(pieces[0], room);
    } else if |pieces| == 1 || |MARKER| > room - |pieces[0]| {
      k, n := 0, |pieces[0]|;
    } else {
      var left := room - |pieces[0]| - |MARKER|;
      assert Fitted(pieces, room) == pieces[0] + (pieces[1] + Fitted(pieces[2..], left));
      var j;
      j, n := FittedEnd(pieces[2..], left);
      UnderTwo(pieces, j, pieces[2..][j][..n]);
      UnderTwo(pieces, j, []);
      k := j + 2;
      assert pieces[2..][j] == pieces[k];
    }
  }

  /** Every byte of a piece that is not a marker lies outside every match. */
  lemma {:induction false} PiecesOutsideMatches(v: Bytes, from: nat, ms: seq<Match>, k: nat) returns (a: nat, b: nat)
    requires Ordered(v, from, ms) && k < |Pieces(v, from, ms)| && k % 2 == 0
    ensures from <= a <= b <= |v| && Pieces(v, from, ms)[k] == v[a..b]
    ensures forall i :: 0 <= i < |ms| ==> b <= ms[i].start || ms[i].end <= a
    decreases |ms|
  {
    if ms == [] {
      a, b := from, |v|;
    } else if k == 0 {
      a, b := from, ms[0].start;
      StartsIncrease(v, from, ms);
    } else {
      a, b := PiecesOutsideMatches(v, ms[0].end, ms[1..], k - 2);
      assert forall i :: 0 < i < |ms| ==> ms[i] == ms[1..][i - 1];
    }
  }

  /** The pieces are exactly the texts before, between and after the matches, with a marker
      in place of each match. */
  lemma {:induction false} PiecesExactly(v: Bytes, from: nat, ms: seq<Match>, k: nat)
    requires Ordered(v, from, ms) && k <= |ms|
    ensures |Pieces(v, from, ms)| == 2 * |ms| + 1
    ensures
      var start := if k == 0 then from else ms[k - 1].end;
      var end := if k == |ms| then |v| else ms[k].start;
      start <= end <= |v| && Pieces(v, from, ms)[2 * k] == v[start..end]
    ensures k < |ms| ==> Pieces(v, from, ms)[2 * k + 1] == MARKER
    decreases |ms|
  {
    if ms != [] {
      var more := Pieces(v, ms[0].end, ms[1..]);
      PiecesExactly(v, ms[0].end, ms[1..], if k == 0 then 0 else k - 1);
      if k > 0 {
        assert Pieces(v, from, ms)[2 * k] == more[2 * k - 2];
        assert k < |ms| ==> Pieces(v, from, ms)[2 * k + 1] == more[2 * k - 1];
      }
    }
  }

  lemma {:induction false} StartsIncrease(v: Bytes, from: nat, ms: seq<Match>)
    requires Ordered(v, from, ms)
    ensures forall i :: 0 <= i < |ms| ==> from <= ms[i].start && (ms[0].start <= ms[i].start)
    decreases |ms|
  {
    if ms != [] {
      StartsIncrease(v, ms[0].end, ms[1..]);
      assert forall i :: 0 < i < |ms| ==> ms[i] == ms[1..][i - 1];
    }
  }

  /** Bounded redaction shows whole markers and text from outside every match, and
      nothing else: it is the pieces up to some point and part of a text piece. */
  lemma NothingFromMatches(v: Bytes, ms: seq<Match>, limit: nat) returns (k: nat, a: nat, b: nat)
    requires Ordered(v, 0, ms)
    ensures k < |Pieces(v, 0, ms)| && a <= b <= |v|
    ensures Redacted(v, ms, limit) == Flatten(Pieces(v, 0, ms)[..k]) + v[a..b]
    ensures forall i :: 0 <= i < |ms| ==> b <= ms[i].start || ms[i].end <= a
  {
    var n;
    PiecesAlternate(v, 0, ms);
    k, n := FittedEnd(Pieces(v, 0, ms), limit);
    a, b := PiecesOutsideMatches(v, 0, ms, k);
    assert v[a..b][..n] == v[a..a + n];
    b := a + n;
  }

  /** Whatever the patterns, the limit is obeyed. */
  lemma {:induction false} RedactedByBound(patterns: seq<Finder>, v: Bytes, limit: nat)
    requires AllInOrder(patterns)
    ensures |if patterns == [] then Cut(v, limit) else RedactedBy(patterns, v, limit)| <= limit
  {
    if patterns != [] {
      var before, find := RedactedBy(patterns[..|patterns| - 1], v, limit), patterns[|patterns| - 1];
      RedactedLaws(before, find(before), limit);
    }
  }

  // ------------------------------------------------------------- several patterns

  /** The marker reads "[REDACTED]". */
  lemma MarkerReads()
    ensures |MARKER| == |"[REDACTED]"| && forall i :: 0 <= i < |MARKER| ==> MARKER[i] == "[REDACTED]"[i] as int
  {
  }

  /** One pattern replaces its matches in the text itself. */
  lemma {:induction false} OnePattern(find: Finder, v: Bytes, limit: nat)
    requires FindsInOrder(find)
    ensures RedactedBy([find], v, limit) == Redacted(v, find(v), limit)
  {
    assert [find][..0] == [];
    assert RedactedBy([find][..0], v, limit) == v;
  }

  lemma {:induction false} RedactedBySnoc(ps: seq<Finder>, last: Finder, v: Bytes, limit: nat)
    requires AllInOrder(ps) && FindsInOrder(last)
    ensures AllInOrder(ps + [last])
    ensures
      var before := RedactedBy(ps, v, limit);
      Ordered(before, 0, last(before)) && RedactedBy(ps + [last], v, limit) == Redacted(before, last(before), limit)
  {
    assert (ps + [last])[..|ps|] == ps;
  }

  lemma {:induction false} TurnsUpto(ps: seq<Finder>, qs: seq<Finder>, n: nat, v: Bytes, limit: nat)
    requires AllInOrder(ps) && AllInOrder(qs) && n <= |qs|
    ensures AllInOrder(ps + qs[..n]) && AllInOrder(qs[..n])
    ensures RedactedBy(ps + qs[..n], v, limit) == RedactedBy(qs[..n], RedactedBy(ps, v, limit), limit)
  {
    if n == 0 {
      assert ps + qs[..n] == ps;
    } else {
      TurnsUpto(ps, qs, n - 1, v, limit);
      OneTurnMore(ps, qs[..n - 1], qs[n - 1], v, limit);
      TakeSnoc(qs, n - 1);
      Assoc(ps, qs[..n - 1], [qs[n - 1]]);
    }
  }

  /** Later patterns are applied to what earlier ones have left. */
  lemma {:induction false} PatternsInTurn(ps: seq<Finder>, qs: seq<Finder>, v: Bytes, limit: nat)
    requires AllInOrder(ps) && AllInOrder(qs)
    ensures AllInOrder(ps + qs)
    ensures RedactedBy(ps + qs, v, limit) == RedactedBy(qs, RedactedBy(ps, v, limit), limit)
  {
    TurnsUpto(ps, qs, |qs|, v, limit);
    assert qs[..|qs|] == qs;
  }

  lemma {:induction false} OneTurnMore(ps: seq<Finder>, qs: seq<Finder>, last: Finder, v: Bytes, limit: nat)
    requires AllInOrder(ps) && AllInOrder(qs) && AllInOrder(ps + qs) && FindsInOrder(last)
    requires RedactedBy(ps + qs, v, limit) == RedactedBy(qs, RedactedBy(ps, v, limit), limit)
    ensures AllInOrder(ps + qs + [last]) && AllInOrder(qs + [last])
    ensures RedactedBy(ps + qs + [last], v, limit) == RedactedBy(qs + [last], RedactedBy(ps, v, limit), limit)
  {
    RedactedBySnoc(ps + qs, last, v, limit);
    RedactedBySnoc(qs, last, RedactedBy(ps, v, limit), limit);
  }

  /** What each pattern's turn leaves is whole markers and text from outside that pattern's
      matches: the pieces up to some point and part of a text between matches. */
  lemma {:induction false} NothingFromAnyTurn(patterns: seq<Finder>, v: Bytes, limit: nat, turn: nat)
    returns (k: nat, a: nat, b: nat)
    requires AllInOrder(patterns) && turn < |patterns|
    ensures
      var before := RedactedBy(patterns[..turn], v, limit);
      var ms := patterns[turn](before);
      && Ordered(before, 0, ms) && k < |Pieces(before, 0, ms)| && a <= b <= |before|
      && RedactedBy(patterns[..turn + 1], v, limit) == Flatten(Pieces(before, 0, ms)[..k]) + before[a..b]
      && (forall i :: 0 <= i < |ms| ==> b <= ms[i].start || ms[i].end <= a)
  {
    var before, find := RedactedBy(patterns[..turn], v, limit), patterns[turn];
    assert FindsInOrder(find);
    assert patterns[..turn + 1][..turn] == patterns[..turn] && patterns[..turn + 1][turn] == find;
    k, a, b := NothingFromMatches(before, find(before), limit);
  }

  /** A text that is too long keeps all characters that fit whole. */
  lemma {:induction false} CutExactly(v: Bytes, room: nat)
    ensures |v| <= room ==> Cut(v, room) == v
    ensures |v| > room ==>
      && |Cut(v, room)| <= room && Cut(v, room) <= v && CharBoundary(v, |Cut(v, room)|)
      && forall j :: |Cut(v, room)| < j <= room ==> !CharBoundary(v, j)
  {
  }
}
