/** Label patterns. `*` stands for any run of bytes; the matcher is the usual
    greedy one that remembers only the last star. A string holds one character for
    each byte of the UTF-8 text it stands for. */
module Wildcard {
  import opened Base

  /** What a pattern means. */
  predicate Glob(p: string, v: string)
    decreases |p| + |v|
  {
    if p == [] then v == []
    else if p[0] == '*' then Glob(p[1..], v) || (v != [] && Glob(p, v[1..]))
    else v != [] && v[0] == p[0] && Glob(p[1..], v[1..])
  }

  predicate AllStars(p: string) {
    forall i :: 0 <= i < |p| ==> p[i] == '*'
  }

  /** A matcher position: where it is in the pattern and in the value, the last
      star, and how far that star has been stretched. */
  datatype Position = Position(pi: nat, vi: nat, star: Option<nat>, stretched: nat)

  predicate Within(p: string, v: string, at: Position) {
    && at.pi <= |p| && at.stretched <= at.vi <= |v|
    && (at.star.Some? ==> at.star.value < |p| && p[at.star.value] == '*')
  }

  /** The matcher from a position on; a byte equal to the pattern's is taken
      before a star is looked for. */
  predicate MatchesFrom(p: string, v: string, at: Position)
    requires Within(p, v, at)
    decreases |v| - at.stretched, |p| - at.pi + |v| - at.vi
  {
    if at.vi == |v| then AllStars(p[at.pi..])
    else if at.pi < |p| && p[at.pi] == v[at.vi] then
      MatchesFrom(p, v, at.(pi := at.pi + 1, vi := at.vi + 1))
    else if at.pi < |p| && p[at.pi] == '*' then
      MatchesFrom(p, v, Position(at.pi + 1, at.vi, Some(at.pi), at.vi))
    else if at.star.Some? then
      MatchesFrom(p, v, Position(at.star.value + 1, at.stretched + 1, at.star, at.stretched + 1))
    else false
  }

  const START := Position(0, 0, None, 0)

  predicate Matches(p: string, v: string) {
    MatchesFrom(p, v, START)
  }

  /** `wildcard_match`. */
  method WildcardMatch(pattern: string, value: string) returns (r: bool)
    ensures r == Matches(pattern, value)
  {
    var patternIndex: nat, valueIndex: nat, starIndex: Option<nat>, starValueIndex: nat := 0, 0, None, 0;
    while valueIndex < |value|
      invariant Within(pattern, value, Position(patternIndex, valueIndex, starIndex, starValueIndex))
      invariant MatchesFrom(pattern, value, Position(patternIndex, valueIndex, starIndex, starValueIndex))
             == Matches(pattern, value)
      decreases |value| - starValueIndex, |pattern| - patternIndex + |value| - valueIndex
    {
      if patternIndex < |pattern| && pattern[patternIndex] == value[valueIndex] {
        patternIndex, valueIndex := patternIndex + 1, valueIndex + 1;
      } else if patternIndex < |pattern| && pattern[patternIndex] == '*' {
        starIndex, patternIndex, starValueIndex := Some(patternIndex), patternIndex + 1, valueIndex;
      } else if starIndex.Some? {
        patternIndex := starIndex.value + 1;
        starValueIndex := starValueIndex + 1;
        valueIndex := starValueIndex;
      } else {
        return false;
      }
    }
    ghost var rest := pattern[patternIndex..];
    while patternIndex < |pattern| && pattern[patternIndex] == '*'
      invariant patternIndex <= |pattern|
      invariant AllStars(pattern[patternIndex..]) == AllStars(rest)
    {
      assert pattern[patternIndex..] == ['*'] + pattern[patternIndex + 1..];
      patternIndex := patternIndex + 1;
    }
    assert patternIndex < |pattern| ==> pattern[patternIndex..][0] != '*';
    return patternIndex == |pattern|;
  }

  // ------------------------------------------------------------ laws of patterns

  lemma {:induction false} GlobEmpty(p: string)
    ensures Glob(p, []) <==> AllStars(p)
  {
    if p != [] {
      GlobEmpty(p[1..]);
      assert p == [p[0]] + p[1..];
    }
  }

  /** A pattern that starts with a star absorbs anything put in front. */
  lemma {:induction false} StarAbsorbs(p: string, v: string, k: nat)
    requires p != [] && p[0] == '*' && k <= |v|
    requires Glob(p, v[k..])
    ensures Glob(p, v)
    decreases k
  {
    if k == 0 {
      assert v[0..] == v;
    } else {
      assert v[1..][k - 1..] == v[k..];
      StarAbsorbs(p, v[1..], k - 1);
    }
  }

  /** What follows a star matches some suffix. */
  lemma {:induction false} StarPicks(p: string, v: string) returns (k: nat)
    requires p != [] && p[0] == '*' && Glob(p, v)
    ensures k <= |v| && Glob(p[1..], v[k..])
    decreases |v|
  {
    if Glob(p[1..], v) {
      k := 0;
      assert v[0..] == v;
    } else {
      k := StarPicks(p, v[1..]);
      assert v[1..][k..] == v[k + 1..];
      k := k + 1;
    }
  }

  predicate Literal(p: string) {
    forall i :: 0 <= i < |p| ==> p[i] != '*'
  }

  /** A literal matches itself and nothing else. */
  lemma {:induction false} LiteralPeels(seg: string, p: string, v: string)
    requires Literal(seg) && Glob(seg + p, v)
    ensures |seg| <= |v| && v[..|seg|] == seg && Glob(p, v[|seg|..])
    decreases |seg|
  {
    if seg == [] {
      assert seg + p == p && v[0..] == v;
    } else {
      assert (seg + p)[1..] == seg[1..] + p;
      LiteralPeels(seg[1..], p, v[1..]);
      assert v[1..][|seg| - 1..] == v[|seg|..];
      assert v[..|seg|] == [v[0]] + v[1..][..|seg| - 1];
    }
  }

  lemma {:induction false} OnlyStarsMatchStars(p: string, v: string)
    requires AllStars(v) && Glob(p, v)
    ensures AllStars(p)
    decreases |p| + |v|
  {
    if p != [] && p[0] == '*' {
      assert p == ['*'] + p[1..];
      if Glob(p[1..], v) {
        OnlyStarsMatchStars(p[1..], v);
      } else {
        OnlyStarsMatchStars(p, v[1..]);
      }
    }
  }

  // ----------------------------------------------------------- one star is enough

  /** The piece of pattern since the last star is literal and has been matched
      right where the star was last stretched to. */
  predicate Tracking(p: string, v: string, at: Position) {
    && Within(p, v, at)
    && (at.star.Some? ==>
          && at.star.value < at.pi
          && at.vi - at.stretched == at.pi - at.star.value - 1
          && Literal(p[at.star.value + 1..at.pi])
          && v[at.stretched..at.vi] == p[at.star.value + 1..at.pi])
  }

  /** Some way to go on from here, or by stretching the last star further. */
  predicate Hopeful(p: string, v: string, at: Position)
    requires Within(p, v, at)
  {
    || Glob(p[at.pi..], v[at.vi..])
    || (at.star.Some? && at.stretched < |v| && Glob(p[at.star.value..], v[at.stretched + 1..]))
  }

  lemma AfterStar(p: string, star: nat, pi: nat)
    requires star < pi <= |p|
    ensures p[star..][1..] == p[star + 1..pi] + p[pi..]
  {
  }

  /** At the next star, stretching the previous one is no longer needed. */
  lemma LastStarSuffices(p: string, v: string, at: Position)
    requires Tracking(p, v, at) && Hopeful(p, v, at)
    requires at.pi < |p| && p[at.pi] == '*'
    ensures Glob(p[at.pi..], v[at.vi..])
  {
    if !Glob(p[at.pi..], v[at.vi..]) {
      var star, seg, rest := at.star.value, p[at.star.value + 1..at.pi], p[at.pi..];
      var w := v[at.stretched + 1..];
      var k := StarPicks(p[star..], w);
      AfterStar(p, star, at.pi);
      LiteralPeels(seg, rest, w[k..]);
      assert w[k..][|seg|..] == v[at.vi..][k + 1..];
      StarAbsorbs(rest, v[at.vi..], k + 1);
    }
  }

  /** At the end of the value, stretching the last star leaves too little. */
  lemma NothingLeftToStretch(p: string, v: string, at: Position)
    requires Tracking(p, v, at) && Hopeful(p, v, at)
    requires at.vi == |v|
    ensures AllStars(p[at.pi..])
  {
    GlobEmpty(p[at.pi..]);
    assert v[at.vi..] == [];
    if !Glob(p[at.pi..], v[at.vi..]) {
      var star, seg, rest := at.star.value, p[at.star.value + 1..at.pi], p[at.pi..];
      var w := v[at.stretched + 1..];
      var k := StarPicks(p[star..], w);
      AfterStar(p, star, at.pi);
      LiteralPeels(seg, rest, w[k..]);
    }
  }

  lemma {:induction false} MatchesSound(p: string, v: string, at: Position)
    requires Within(p, v, at) && MatchesFrom(p, v, at)
    ensures || Glob(p[at.pi..], v[at.vi..])
            || (at.star.Some? && Glob(p[at.star.value..], v[at.stretched..]))
    decreases |v| - at.stretched, |p| - at.pi + |v| - at.vi
  {
    if at.vi == |v| {
      GlobEmpty(p[at.pi..]);
    } else if at.pi < |p| && p[at.pi] == v[at.vi] {
      MatchesSound(p, v, at.(pi := at.pi + 1, vi := at.vi + 1));
      assert p[at.pi..][1..] == p[at.pi + 1..] && v[at.vi..][1..] == v[at.vi + 1..];
    } else if at.pi < |p| && p[at.pi] == '*' {
      MatchesSound(p, v, Position(at.pi + 1, at.vi, Some(at.pi), at.vi));
      assert p[at.pi..][1..] == p[at.pi + 1..];
    } else {
      var star := at.star.value;
      MatchesSound(p, v, Position(star + 1, at.stretched + 1, at.star, at.stretched + 1));
      assert p[star..][1..] == p[star + 1..] && v[at.stretched..][1..] == v[at.stretched + 1..];
    }
  }

  /** No star in the value, except perhaps as its last byte. */
  predicate InnerStarFree(v: string) {
    forall i :: 0 <= i < |v| - 1 ==> v[i] != '*'
  }

  lemma LiteralStep(p: string, v: string, at: Position)
    requires Tracking(p, v, at) && Hopeful(p, v, at)
    requires at.pi < |p| && at.vi < |v| && p[at.pi] == v[at.vi] != '*'
    ensures var next := at.(pi := at.pi + 1, vi := at.vi + 1);
            Tracking(p, v, next) && Hopeful(p, v, next)
  {
    assert p[at.pi..][1..] == p[at.pi + 1..] && v[at.vi..][1..] == v[at.vi + 1..];
    if at.star.Some? {
      assert p[at.star.value + 1..at.pi + 1] == p[at.star.value + 1..at.pi] + [p[at.pi]];
      assert v[at.stretched..at.vi + 1] == v[at.stretched..at.vi] + [v[at.vi]];
    }
  }

  lemma StarStep(p: string, v: string, at: Position)
    requires Tracking(p, v, at) && Hopeful(p, v, at)
    requires at.pi < |p| && at.vi < |v| && p[at.pi] == '*'
    ensures var next := Position(at.pi + 1, at.vi, Some(at.pi), at.vi);
            Tracking(p, v, next) && Hopeful(p, v, next)
  {
    LastStarSuffices(p, v, at);
    assert p[at.pi..][1..] == p[at.pi + 1..] && v[at.vi..][1..] == v[at.vi + 1..];
  }

  lemma StretchStep(p: string, v: string, at: Position)
    requires Tracking(p, v, at) && Hopeful(p, v, at)
    requires at.vi < |v| && (at.pi < |p| ==> p[at.pi] != v[at.vi] && p[at.pi] != '*')
    ensures at.star.Some? &&
            var next := Position(at.star.value + 1, at.stretched + 1, at.star, at.stretched + 1);
            Tracking(p, v, next) && Hopeful(p, v, next)
  {
    assert !Glob(p[at.pi..], v[at.vi..]);
    var star, rest := at.star.value, v[at.stretched + 1..];
    assert p[star..][1..] == p[star + 1..];
    assert rest != [] ==> rest[1..] == v[at.stretched + 2..];
  }

  lemma {:induction false} MatchesComplete(p: string, v: string, at: Position)
    requires Tracking(p, v, at) && InnerStarFree(v) && Hopeful(p, v, at)
    ensures MatchesFrom(p, v, at)
    decreases |v| - at.stretched, |p| - at.pi + |v| - at.vi
  {
    if at.vi == |v| {
      NothingLeftToStretch(p, v, at);
    } else if at.pi < |p| && p[at.pi] == '*' == v[at.vi] {
      LastStarSuffices(p, v, at);
      OnlyStarsMatchStars(p[at.pi..], v[at.vi..]);
    } else if at.pi < |p| && p[at.pi] == '*' {
      StarStep(p, v, at);
      MatchesComplete(p, v, Position(at.pi + 1, at.vi, Some(at.pi), at.vi));
    } else if at.pi < |p| && p[at.pi] == v[at.vi] {
      LiteralStep(p, v, at);
      MatchesComplete(p, v, at.(pi := at.pi + 1, vi := at.vi + 1));
    } else {
      StretchStep(p, v, at);
      MatchesComplete(p, v, Position(at.star.value + 1, at.stretched + 1, at.star, at.stretched + 1));
    }
  }

  // ------------------------------------------------------------- exact condition

  /** Along a shared literal prefix the matcher only advances. */
  lemma {:induction false} MatchesPrefix(p: string, v: string, k: nat, n: nat)
    requires k <= n <= |p| && n <= |v| && p[..n] == v[..n]
    ensures MatchesFrom(p, v, Position(k, k, None, 0)) == MatchesFrom(p, v, Position(n, n, None, 0))
    decreases n - k
  {
    if k < n {
      assert p[k] == p[..n][k] == v[..n][k] == v[k];
      MatchesPrefix(p, v, k + 1, n);
    }
  }

  lemma {:induction false} LiteralMatches(seg: string, p: string, v: string)
    requires Literal(seg) && seg <= v && Glob(p, v[|seg|..])
    ensures Glob(seg + p, v)
    decreases |seg|
  {
    if seg == [] {
      assert seg + p == p && v[0..] == v;
    } else {
      assert (seg + p)[1..] == seg[1..] + p;
      assert v[1..][|seg| - 1..] == v[|seg|..];
      LiteralMatches(seg[1..], p, v[1..]);
    }
  }

  /** An inner star of the value is mistaken for a literal: the pattern made of what
      precedes it and one star should match, and does not. */
  lemma {:induction false} InnerStarMisses(v: string, i: nat)
    requires i < |v| - 1 && v[i] == '*' && Literal(v[..i])
    ensures Glob(v[..i] + "*", v) && !Matches(v[..i] + "*", v)
  {
    var p := v[..i] + "*";
    assert Glob("*", v[i..]) by {
      assert v[i..][|v| - i..] == [];
      assert Glob("*", []);
      StarAbsorbs("*", v[i..], |v| - i);
    }
    LiteralMatches(v[..i], "*", v);
    assert p == v[..i + 1] && p[..i + 1] == v[..i + 1];
    MatchesPrefix(p, v, 0, i + 1);
  }

  lemma {:induction false} FirstStar(v: string, k: nat) returns (i: nat)
    requires k < |v| && v[k] == '*'
    ensures i <= k && v[i] == '*' && Literal(v[..i])
    decreases k
  {
    if Literal(v[..k]) {
      i := k;
    } else {
      var j :| 0 <= j < k && v[..k][j] == '*';
      i := FirstStar(v, j);
    }
  }

  /** A match is never wrong, and the matcher is right about a value for every
      pattern exactly when the value has no star before its last byte. */
  lemma {:induction false} MatchesExactly(v: string)
    ensures forall p :: Matches(p, v) ==> Glob(p, v)
    ensures (forall p :: Matches(p, v) == Glob(p, v)) <==> InnerStarFree(v)
  {
    assert v[0..] == v;
    forall p ensures Matches(p, v) ==> Glob(p, v) {
      assert p[0..] == p;
      if Matches(p, v) {
        MatchesSound(p, v, START);
      }
    }
    if InnerStarFree(v) {
      forall p ensures Matches(p, v) == Glob(p, v) {
        assert p[0..] == p;
        if Glob(p, v) {
          MatchesComplete(p, v, START);
        }
      }
    } else {
      var k :| 0 <= k < |v| - 1 && v[k] == '*';
      var i := FirstStar(v, k);
      InnerStarMisses(v, i);
    }
  }

  // ---------------------------------------------------------------------- labels

  const RECURSIVE := "..."

  predicate IsRecursive(pattern: string) {
    |RECURSIVE| <= |pattern| && pattern[|pattern| - |RECURSIVE|..] == RECURSIVE
  }

  function Prefix(pattern: string): string
    requires IsRecursive(pattern)
  {
    pattern[..|pattern| - |RECURSIVE|]
  }

  /** `label_matches`. */
  predicate LabelMatches(pattern: string, target: string) {
    if IsRecursive(pattern) then Prefix(pattern) <= target
    else Matches(pattern, target)
  }

  /** A recursive pattern stands for its prefix followed by anything. */
  function Meaning(pattern: string): string {
    if IsRecursive(pattern) then Prefix(pattern) + "*" else pattern
  }

  function Unstarred(p: string): string {
    if p == [] then [] else (if p[0] == '*' then [] else [p[0]]) + Unstarred(p[1..])
  }

  lemma {:induction false} UnstarredMatches(p: string)
    ensures Glob(p, Unstarred(p))
  {
    if p != [] {
      UnstarredMatches(p[1..]);
      if p[0] == '*' {
        assert Unstarred(p) == Unstarred(p[1..]);
      } else {
        assert Unstarred(p)[1..] == Unstarred(p[1..]);
      }
    }
  }

  lemma {:induction false} StarsVanish(p: string)
    ensures |Unstarred(p + "*")| <= |p|
    ensures !Literal(p) ==> |Unstarred(p + "*")| < |p|
  {
    if p == [] {
      assert p + "*" == "*";
    } else {
      assert (p + "*")[1..] == p[1..] + "*";
      StarsVanish(p[1..]);
      assert p == [p[0]] + p[1..];
    }
  }

  lemma {:induction false} RecursiveMeaning(pattern: string, target: string)
    requires IsRecursive(pattern) && Literal(Prefix(pattern))
    ensures LabelMatches(pattern, target) <==> Glob(Meaning(pattern), target)
  {
    var prefix := Prefix(pattern);
    if prefix <= target {
      var rest := target[|prefix|..];
      assert rest[|rest|..] == [] && Glob("*", []);
      StarAbsorbs("*", rest, |rest|);
      LiteralMatches(prefix, "*", target);
    }
    if Glob(prefix + "*", target) {
      LiteralPeels(prefix, "*", target);
    }
  }

  /** A recursive pattern means its prefix followed by anything exactly when the
      prefix has no star of its own: such a star would be taken literally. */
  lemma RecursiveExactly(pattern: string)
    requires IsRecursive(pattern)
    ensures (forall target :: LabelMatches(pattern, target) == Glob(Meaning(pattern), target))
       <==> Literal(Prefix(pattern))
  {
    var prefix := Prefix(pattern);
    if Literal(prefix) {
      forall target ensures LabelMatches(pattern, target) == Glob(Meaning(pattern), target) {
        RecursiveMeaning(pattern, target);
      }
    } else {
      UnstarredMatches(prefix + "*");
      StarsVanish(prefix);
      assert !LabelMatches(pattern, Unstarred(prefix + "*"));
    }
  }

  /** A label pattern that ends in three dots takes every target that starts with the rest
      of it. Any other is a glob: it never takes a target the glob does not, and takes
      every one the glob does if the target has no star before its last byte. */
  lemma {:induction false} LabelsExactly(pattern: string, target: string)
    ensures forall prefix :: pattern == prefix + "..." ==> (LabelMatches(pattern, target) <==> prefix <= target)
    ensures !(exists prefix :: pattern == prefix + "...") ==>
      && (LabelMatches(pattern, target) ==> Glob(pattern, target))
      && (InnerStarFree(target) ==> (LabelMatches(pattern, target) <==> Glob(pattern, target)))
  {
    if IsRecursive(pattern) {
      assert pattern == Prefix(pattern) + "...";
    }
    forall prefix | pattern == prefix + "..." ensures LabelMatches(pattern, target) <==> prefix <= target {
      assert pattern[|pattern| - 3..] == "..." && pattern[..|pattern| - 3] == prefix;
    }
    MatchesExactly(target);
  }
}
