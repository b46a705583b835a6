/**
  Weighted Jaccard similarity of two collections of counted keys, and what hashing the keys does to it.

  The rounding of floating-point numbers is not modelled: scores are reals.
*/
module Similarity {
  import opened Common

  /** The score; two empty collections are equal. */
  ghost function Jaccard<K>(a: multiset<K>, b: multiset<K>): real {
    if |a| + |b| == 0 then 1.0 else Ratio(|a * b|, |a| + |b| - |a * b|)
  }

  ghost function Ratio(mn: nat, mx: int): real {
    if mx > 0 then mn as real / mx as real else 1.0
  }

  /** Both collections have `n` and `m` members, `c` of them in common. */
  lemma CommonIsSmaller<K>(a: multiset<K>, b: multiset<K>)
    ensures |a * b| <= |a| && |a * b| <= |b|
  {
    SubsetIsSmaller(a * b, a);
    SubsetIsSmaller(a * b, b);
  }

  lemma SubsetIsSmaller<K>(a: multiset<K>, b: multiset<K>)
    requires a <= b
    ensures |a| <= |b|
  {
    assert b == a + (b - a);
  }

  lemma RatioMonotone(c: nat, d: nat, total: nat)
    requires c <= d && 2 * d <= total && total > 0
    ensures Ratio(c, total - c) <= Ratio(d, total - d)
    ensures 0.0 <= Ratio(c, total - c) <= 1.0
  {
    var x, y, u, v := c as real, d as real, (total - c) as real, (total - d) as real;
    assert x <= y && 0.0 < v <= u && x <= u;
    Divides(x, y, u, v);
  }

  lemma Divides(x: real, y: real, u: real, v: real)
    requires 0.0 <= x <= y && 0.0 < v <= u && x <= u
    ensures 0.0 <= x / u <= y / v && x / u <= 1.0
  {
    var p, q := x / u, y / v;
    assert p * u == x && q * v == y;
    Scaled(x, y, u, v);
    assert (p - q) * (u * v) == x * v - y * u;
    NotPositive(p - q, u * v);
    NotPositive(-p, u);
    NotPositive(p - 1.0, u);
  }

  lemma Scaled(x: real, y: real, u: real, v: real)
    requires 0.0 <= x <= y && 0.0 < v <= u
    ensures x * v <= y * u && u * v > 0.0
  {
    assert x * v <= y * v <= y * u;
  }

  lemma NotPositive(d: real, w: real)
    requires w > 0.0 && d * w <= 0.0
    ensures d <= 0.0
  {}

  /** A score is between 0 and 1, and 1 exactly for equal collections. */
  lemma JaccardRange<K>(a: multiset<K>, b: multiset<K>)
    ensures 0.0 <= Jaccard(a, b) <= 1.0
    ensures Jaccard(a, b) == 1.0 <==> a == b
  {
    CommonIsSmaller(a, b);
    var c := |a * b|;
    if |a| + |b| > 0 {
      RatioMonotone(c, c, |a| + |b|);
      if a == b {
        assert a * b == a;
      }
      if Jaccard(a, b) == 1.0 {
        WholeRatio(c as real, (|a| + |b| - c) as real);
        assert |a| == c && |b| == c;
        FullIsEqual(a * b, a);
        FullIsEqual(a * b, b);
      }
    }
  }

  lemma WholeRatio(x: real, y: real)
    requires y > 0.0 && x / y == 1.0
    ensures x == y
  {}

  lemma FullIsEqual<K>(a: multiset<K>, b: multiset<K>)
    requires a <= b && |a| == |b|
    ensures a == b
  {
    assert b == a + (b - a);
    assert |b - a| == 0;
  }

  /** The score is the number of members in common over the number in either, by greatest multiplicity. */
  lemma JaccardByUnion<K(!new)>(a: multiset<K>, b: multiset<K>, either: multiset<K>)
    requires forall k :: either[k] == if a[k] < b[k] then b[k] else a[k]
    ensures |either| > 0 ==> Jaccard(a, b) == |a * b| as real / |either| as real
    ensures |either| == 0 ==> Jaccard(a, b) == 1.0
  {
    assert a + b == either + a * b;
    assert |a + b| == |a| + |b| && |either + a * b| == |either| + |a * b|;
    CommonIsSmaller(a, b);
  }

  // ---------- sums of scores ----------

  /** The sum of the first `n` scores. */
  ghost function ScoreSum(score: nat -> real, n: nat): real {
    if n == 0 then 0.0 else ScoreSum(score, n - 1) + score(n - 1)
  }

  lemma {:induction false} ScoreSumGrows(f: nat -> real, g: nat -> real, n: nat)
    requires forall i :: f(i) <= g(i)
    ensures ScoreSum(f, n) <= ScoreSum(g, n)
  {
    if n > 0 {
      ScoreSumGrows(f, g, n - 1);
      assert f(n - 1) <= g(n - 1);
    }
  }

  lemma {:induction false} FullSum(score: nat -> real, n: nat)
    requires forall i :: score(i) == 1.0
    ensures ScoreSum(score, n) == n as real
  {
    if n > 0 {
      FullSum(score, n - 1);
      assert score(n - 1) == 1.0;
    }
  }

  /** Each of the first `n` scores counts once, and no other. */
  lemma {:induction false} ScoreSumChanges(f: nat -> real, g: nat -> real, n: nat, r: nat)
    requires forall i: nat :: i != r ==> f(i) == g(i)
    ensures ScoreSum(g, n) == ScoreSum(f, n) + if r < n then g(r) - f(r) else 0.0
  {
    if n > 0 {
      ScoreSumChanges(f, g, n - 1, r);
    }
  }

  /** When one of `n` scores is zero, the sum falls short by one. */
  lemma {:induction false} ShortSum(score: nat -> real, n: nat, r: nat)
    requires score(r) == 0.0 && forall i :: score(i) <= 1.0
    ensures ScoreSum(score, n) <= if n > r then (n - 1) as real else n as real
  {
    if n > 0 {
      ShortSum(score, n - 1, r);
      assert score(n - 1) <= 1.0;
    }
  }

  // ---------- hashing the keys ----------

  function Mapped<K, L>(f: K -> L, s: seq<K>): (t: seq<L>)
    ensures |t| == |s|
  {
    if s == [] then [] else Mapped(f, s[..|s| - 1]) + [f(s[|s| - 1])]
  }

  lemma {:induction false} MappedConcat<K, L>(f: K -> L, s: seq<K>, t: seq<K>)
    ensures Mapped(f, s + t) == Mapped(f, s) + Mapped(f, t)
  {
    if t == [] {
      assert s + t == s;
    } else {
      MappedConcat(f, s, t[..|t| - 1]);
      assert (s + t)[..|s + t| - 1] == s + t[..|t| - 1];
    }
  }

  lemma MappedRemoved<K, L>(f: K -> L, s: seq<K>, j: nat)
    requires j < |s|
    ensures multiset(Mapped(f, s)) == multiset(Mapped(f, s[..j] + s[j + 1..])) + multiset{f(s[j])}
  {
    var pre, x, post := s[..j], s[j], s[j + 1..];
    SplitAt(s, j);
    MappedAround(f, pre, x, post);
  }

  lemma SplitAt<K>(s: seq<K>, j: nat)
    requires j < |s|
    ensures s == s[..j] + ([s[j]] + s[j + 1..])
  {}

  lemma MappedAround<K, L>(f: K -> L, pre: seq<K>, x: K, post: seq<K>)
    ensures multiset(Mapped(f, pre + ([x] + post))) == multiset(Mapped(f, pre + post)) + multiset{f(x)}
  {
    MappedConcat(f, pre, [x] + post);
    MappedConcat(f, [x], post);
    MappedConcat(f, pre, post);
    MappedOne(f, x);
    MovedLast(Mapped(f, pre), f(x), Mapped(f, post));
  }

  lemma MappedOne<K, L>(f: K -> L, x: K)
    ensures Mapped(f, [x]) == [f(x)]
  {
    assert [x][..0] == [];
  }

  lemma MovedLast<L>(pre: seq<L>, y: L, post: seq<L>)
    ensures multiset(pre + ([y] + post)) == multiset(pre + post) + multiset{y}
  {}

  lemma SequenceRemoved<K>(s: seq<K>, j: nat)
    requires j < |s|
    ensures multiset(s) == multiset(s[..j] + s[j + 1..]) + multiset{s[j]}
  {
    assert s == s[..j] + [s[j]] + s[j + 1..];
  }

  /** Hashing keys can only bring more of them together. */
  lemma {:induction false} CommonGrows<K, L>(f: K -> L, s: seq<K>, t: seq<K>)
    ensures |multiset(s) * multiset(t)| <= |multiset(Mapped(f, s)) * multiset(Mapped(f, t))|
    decreases |s|
  {
    if s == [] {
      assert multiset(s) * multiset(t) == multiset{};
    } else {
      var n := |s| - 1;
      var x, front, image := s[n], multiset(s[..n]), multiset(Mapped(f, s[..n]));
      assert s == s[..n] + [x];
      if x in t {
        var j :| 0 <= j < |t| && t[j] == x;
        var rest := t[..j] + t[j + 1..];
        CommonGrows(f, s[..n], rest);
        SequenceRemoved(t, j);
        MappedRemoved(f, t, j);
        CommonPush(front, multiset(rest), x);
        CommonPush(image, multiset(Mapped(f, rest)), f(x));
      } else {
        CommonGrows(f, s[..n], t);
        CommonWithout(front, multiset(t), x);
        CommonLarger(image, multiset(Mapped(f, t)), f(x));
      }
    }
  }

  lemma CommonWithout<K>(a: multiset<K>, b: multiset<K>, x: K)
    requires x !in b
    ensures (a + multiset{x}) * b == a * b
  {}

  lemma CommonLarger<K>(a: multiset<K>, b: multiset<K>, x: K)
    ensures |a * b| <= |(a + multiset{x}) * b|
  {
    SubsetIsSmaller(a * b, (a + multiset{x}) * b);
  }

  lemma CommonPush<K>(a: multiset<K>, b: multiset<K>, x: K)
    ensures |(a + multiset{x}) * (b + multiset{x})| == |a * b| + 1
  {
    assert (a + multiset{x}) * (b + multiset{x}) == a * b + multiset{x};
  }

  /** Collisions can only raise the score. */
  lemma CollisionsRaise<K, L>(f: K -> L, s: seq<K>, t: seq<K>)
    ensures Jaccard(multiset(s), multiset(t)) <= Jaccard(multiset(Mapped(f, s)), multiset(Mapped(f, t)))
  {
    CommonGrows(f, s, t);
    MoreInCommon(multiset(s), multiset(t), multiset(Mapped(f, s)), multiset(Mapped(f, t)));
  }

  lemma MoreInCommon<K, L>(a: multiset<K>, b: multiset<K>, c: multiset<L>, d: multiset<L>)
    requires |a| == |c| && |b| == |d| && |a * b| <= |c * d|
    ensures Jaccard(a, b) <= Jaccard(c, d)
  {
    CommonIsSmaller(c, d);
    if |a| + |b| > 0 {
      RatioMonotone(|a * b|, |c * d|, |a| + |b|);
    }
  }

  // ---------- the two ways of computing it ----------

  /** A map of counters that counts the members of `a`. */
  ghost predicate Counts<K(!new)>(m: map<K, nat>, a: multiset<K>) {
    forall k :: a[k] == if k in m then m[k] else 0
  }

  /** A vector of counters that counts the members of `a`. */
  ghost predicate Tallies(v: seq<nat>, a: multiset<nat>) {
    (forall k: nat :: k in a ==> k < |v|) && forall k: nat :: k < |v| ==> a[k] == v[k]
  }

  /** How much of the score is still to come when `a` and `b` are what is left. */
  ghost predicate Summed<K>(mn: nat, mx: nat, a: multiset<K>, b: multiset<K>, a0: multiset<K>, b0: multiset<K>) {
    && mn == |a0 * b0| - |a * b|
    && mx == |a0| + |b0| - |a0 * b0| - (|a| + |b| - |a * b|)
  }

  lemma SummedStep<K>(mn: nat, mx: nat, a: multiset<K>, b: multiset<K>, a0: multiset<K>, b0: multiset<K>, k: K)
    requires Summed(mn, mx, a, b, a0, b0)
    ensures Summed(mn + Min(a[k], b[k]), mx + Max(a[k], b[k]), a[k := 0], b[k := 0], a0, b0)
  {
    assert a[k := 0] * b[k := 0] == (a * b)[k := 0];
  }

  lemma SummedUp<K>(mn: nat, mx: nat, a: multiset<K>, b: multiset<K>, a0: multiset<K>, b0: multiset<K>)
    requires Summed(mn, mx, a, b, a0, b0) && a == multiset{} && b == multiset{}
    ensures Ratio(mn, mx) == Jaccard(a0, b0)
  {
    CommonIsSmaller(a0, b0);
    assert a * b == multiset{};
  }

  method WeightedJaccardMaps<K(==, !new)>(a: map<K, nat>, b: map<K, nat>, ghost left: multiset<K>, ghost right: multiset<K>)
      returns (score: real)
    requires Counts(a, left) && Counts(b, right)
    ensures score == Jaccard(left, right)
  {
    var mn: nat, mx: nat, keys := 0, 0, a.Keys + b.Keys;
    ghost var ra, rb := left, right;
    while keys != {}
      invariant forall k :: ra[k] == if k in keys then left[k] else 0
      invariant forall k :: rb[k] == if k in keys then right[k] else 0
      invariant Summed(mn, mx, ra, rb, left, right)
      decreases |keys|
    {
      var k :| k in keys;
      var x, y := if k in a then a[k] else 0, if k in b then b[k] else 0;
      SummedStep(mn, mx, ra, rb, left, right, k);
      ra, rb := ra[k := 0], rb[k := 0];
      mn := mn + Min(x, y);
      mx := mx + Max(x, y);
      keys := keys - {k};
    }
    SummedUp(mn, mx, ra, rb, left, right);
    score := if mx > 0 then mn as real / mx as real else 1.0;
  }

  method WeightedJaccardVectors(a: seq<nat>, b: seq<nat>, ghost left: multiset<nat>, ghost right: multiset<nat>)
      returns (score: real)
    requires Tallies(a, left) && Tallies(b, right)
    ensures score == if |a| != |b| then 0.0 else Jaccard(left, right)
  {
    if |a| != |b| {
      return 0.0;
    }
    var mn: nat, mx: nat := 0, 0;
    ghost var ra, rb := left, right;
    for i := 0 to |a|
      invariant forall k :: ra[k] == if k >= i then left[k] else 0
      invariant forall k :: rb[k] == if k >= i then right[k] else 0
      invariant Summed(mn, mx, ra, rb, left, right)
    {
      SummedStep(mn, mx, ra, rb, left, right, i);
      ra, rb := ra[i := 0], rb[i := 0];
      mn := mn + Min(a[i], b[i]);
      mx := mx + Max(a[i], b[i]);
    }
    forall k: nat
      ensures ra[k] == 0 && rb[k] == 0
    {
      assert k in left || k in right ==> k < |a|;
    }
    SummedUp(mn, mx, ra, rb, left, right);
    score := if mx > 0 then mn as real / mx as real else 1.0;
  }
}
