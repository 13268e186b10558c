/** Regrouping a sequence three items to four, and back, for any item types: how the pieces of one
group are computed is given, and what its two directions must satisfy is a law. */
module Regrouping {
  datatype Grouping<!B, !S> = Grouping(
    zero: B, s0: B -> S, s1: (B, B) -> S, s2: (B, B) -> S, s3: B -> S,
    first: (S, S) -> B, second: (S, S) -> B, third: (S, S) -> B,
    cleanTwo: S -> bool, cleanThree: S -> bool)

  function Split<B, S>(g: Grouping<B, S>, b: seq<B>): (r: seq<S>)
    ensures |r| % 4 == (if |b| % 3 == 0 then 0 else |b| % 3 + 1)
  {
    if |b| == 0 then []
    else if |b| == 1 then [g.s0(b[0]), g.s1(b[0], g.zero)]
    else if |b| == 2 then [g.s0(b[0]), g.s1(b[0], b[1]), g.s2(b[1], g.zero)]
    else [g.s0(b[0]), g.s1(b[0], b[1]), g.s2(b[1], b[2]), g.s3(b[2])] + Split(g, b[3..])
  }

  /** What is left over at the end is dropped. */
  function Join<B, S>(g: Grouping<B, S>, s: seq<S>): seq<B>
    requires |s| % 4 != 1
  {
    if |s| == 0 then []
    else if |s| == 2 then [g.first(s[0], s[1])]
    else if |s| == 3 then [g.first(s[0], s[1]), g.second(s[1], s[2])]
    else [g.first(s[0], s[1]), g.second(s[1], s[2]), g.third(s[2], s[3])] + Join(g, s[4..])
  }

  ghost predicate Fits<B, S>(g: Grouping<B, S>, a: B, b: B, c: B) {
    && g.first(g.s0(a), g.s1(a, b)) == a
    && g.second(g.s1(a, b), g.s2(b, c)) == b
    && g.third(g.s2(b, c), g.s3(c)) == c
  }

  ghost predicate FitsBack<B, S>(g: Grouping<B, S>, p: S, q: S, r: S, t: S) {
    && g.s0(g.first(p, q)) == p
    && g.s1(g.first(p, q), g.second(q, r)) == q
    && g.s2(g.second(q, r), g.third(r, t)) == r
    && g.s3(g.third(r, t)) == t
    && (g.s1(g.first(p, q), g.zero) == q <==> g.cleanTwo(q))
    && (g.s2(g.second(q, r), g.zero) == r <==> g.cleanThree(r))
  }

  ghost predicate Lawful<B(!new), S(!new)>(g: Grouping<B, S>) {
    && (forall a, b, c :: Fits(g, a, b, c))
    && (forall p, q, r, t :: FitsBack(g, p, q, r, t))
  }

  lemma JoinOfTriple<B(!new), S(!new)>(g: Grouping<B, S>, b: seq<B>)
    requires Lawful(g) && |b| >= 3
    ensures Join(g, Split(g, b)) == b[..3] + Join(g, Split(g, b[3..]))
  {
    assert Fits(g, b[0], b[1], b[2]);
    assert Split(g, b)[4..] == Split(g, b[3..]);
    assert b[..3] == [b[0], b[1], b[2]];
  }

  lemma {:induction false} JoinOfSplit<B(!new), S(!new)>(g: Grouping<B, S>, b: seq<B>)
    requires Lawful(g)
    ensures Join(g, Split(g, b)) == b
    decreases |b|
  {
    if |b| == 1 {
      assert Fits(g, b[0], g.zero, g.zero);
    } else if |b| == 2 {
      assert Fits(g, b[0], b[1], g.zero);
    } else if |b| >= 3 {
      JoinOfTriple(g, b);
      JoinOfSplit(g, b[3..]);
      assert b == b[..3] + b[3..];
    }
  }

  /** Nothing that would be dropped is set in the last item. */
  predicate Canonical<B, S>(g: Grouping<B, S>, s: seq<S>)
    requires |s| % 4 != 1
  {
    && (|s| % 4 == 2 ==> g.cleanTwo(s[|s| - 1]))
    && (|s| % 4 == 3 ==> g.cleanThree(s[|s| - 1]))
  }

  lemma PrefixSame<T>(p: seq<T>, a: seq<T>, b: seq<T>)
    ensures p + a == p + b <==> a == b
  {
    if p + a == p + b {
      assert a == (p + a)[|p|..];
      assert b == (p + b)[|p|..];
    }
  }

  lemma SplitOfQuad<B(!new), S(!new)>(g: Grouping<B, S>, s: seq<S>)
    requires Lawful(g) && |s| >= 4 && |s| % 4 != 1
    ensures Split(g, Join(g, s)) == s[..4] + Split(g, Join(g, s[4..]))
  {
    assert FitsBack(g, s[0], s[1], s[2], s[3]);
    var b := Join(g, s);
    assert b[3..] == Join(g, s[4..]);
    assert s[..4] == [s[0], s[1], s[2], s[3]];
  }

  lemma SplitOfShort<B(!new), S(!new)>(g: Grouping<B, S>, s: seq<S>)
    requires Lawful(g) && |s| < 4 && |s| != 1
    ensures Split(g, Join(g, s)) == s <==> Canonical(g, s)
  {
    if |s| == 2 {
      assert FitsBack(g, s[0], s[1], s[1], s[1]);
      assert s == [s[0], s[1]];
    } else if |s| == 3 {
      assert FitsBack(g, s[0], s[1], s[2], s[2]);
      assert s == [s[0], s[1], s[2]];
    }
  }

  lemma CanonicalTail<B, S>(g: Grouping<B, S>, s: seq<S>)
    requires |s| >= 4 && |s| % 4 != 1
    ensures |s[4..]| % 4 == |s| % 4 && (Canonical(g, s) <==> Canonical(g, s[4..]))
  {
  }

  lemma {:induction false} SplitOfJoin<B(!new), S(!new)>(g: Grouping<B, S>, s: seq<S>)
    requires Lawful(g) && |s| % 4 != 1
    ensures Split(g, Join(g, s)) == s <==> Canonical(g, s)
    decreases |s|
  {
    if |s| < 4 {
      SplitOfShort(g, s);
    } else {
      CanonicalTail(g, s);
      SplitOfJoin(g, s[4..]);
      SplitOfQuad(g, s);
      PrefixSame(s[..4], Split(g, Join(g, s[4..])), s[4..]);
      assert s == s[..4] + s[4..];
    }
  }
}
