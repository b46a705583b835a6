/**
  What the best pair is, said by counting places and in whole numbers: with n places of a pair among total places, l of
  its left and r of its right symbol, the score n * n * total / (l * r) is compared without dividing.
*/
module PairScores {
  import opened Common
  import opened Expansion
  import opened PairRewriting
  import opened PairLearning

  // ---------- counting places ----------

  type Place = (nat, nat)

  function IsPair(p: Pair): (SymbolId, SymbolId) -> bool {
    (a: SymbolId, b: SymbolId) => a == p.0 && b == p.1
  }

  function HasLeft(x: SymbolId): (SymbolId, SymbolId) -> bool {
    (a: SymbolId, b: SymbolId) => a == x
  }

  function HasRight(x: SymbolId): (SymbolId, SymbolId) -> bool {
    (a: SymbolId, b: SymbolId) => b == x
  }

  function Any(): (SymbolId, SymbolId) -> bool {
    (a: SymbolId, b: SymbolId) => true
  }

  predicate HitAt(s: seq<SymbolId>, hit: (SymbolId, SymbolId) -> bool, i: nat) {
    i < |s| - 1 && hit(s[i], s[i + 1])
  }

  /** The places of a sequence whose symbol and the next one satisfy `hit`. */
  ghost function PlacesIn(s: seq<SymbolId>, hit: (SymbolId, SymbolId) -> bool): set<nat> {
    set i: nat | i < |s| && HitAt(s, hit, i)
  }

  /** The same in a corpus: number of the sequence and place in it. */
  ghost function Places(corpus: Corpus, hit: (SymbolId, SymbolId) -> bool): set<Place> {
    set k: nat, i: nat | k < |corpus| && i in PlacesIn(corpus[k], hit) :: (k, i)
  }

  function HitsIn(s: seq<SymbolId>, hit: (SymbolId, SymbolId) -> bool): nat {
    if |s| < 2 then 0 else (if hit(s[0], s[1]) then 1 else 0) + HitsIn(s[1..], hit)
  }

  function HitTotal(corpus: Corpus, hit: (SymbolId, SymbolId) -> bool): nat {
    if corpus == [] then 0 else HitsIn(corpus[0], hit) + HitTotal(corpus[1..], hit)
  }

  function NextPlace(): nat -> nat {
    (i: nat) => i + 1
  }

  lemma PlacesInTail(s: seq<SymbolId>, hit: (SymbolId, SymbolId) -> bool)
    requires |s| >= 2
    ensures PlacesIn(s, hit) == Image(NextPlace(), PlacesIn(s[1..], hit)) + if hit(s[0], s[1]) then {0} else {}
  {
    var rest := PlacesIn(s[1..], hit);
    forall i: nat
      ensures i in PlacesIn(s, hit) <==> i in Image(NextPlace(), rest) || (i == 0 && hit(s[0], s[1]))
    {
      if i > 0 {
        assert NextPlace()(i - 1) == i;
        assert HitAt(s[1..], hit, i - 1) <==> HitAt(s, hit, i);
      } else {
        assert HitAt(s, hit, 0) <==> hit(s[0], s[1]);
      }
    }
  }

  lemma {:induction false} PlacesInCount(s: seq<SymbolId>, hit: (SymbolId, SymbolId) -> bool)
    ensures |PlacesIn(s, hit)| == HitsIn(s, hit)
  {
    if |s| >= 2 {
      PlacesInCount(s[1..], hit);
      PlacesInTail(s, hit);
      ImageSize(NextPlace(), PlacesIn(s[1..], hit));
      assert 0 !in Image(NextPlace(), PlacesIn(s[1..], hit));
    }
  }

  function FirstRow(): nat -> Place {
    (i: nat) => (0, i)
  }

  function NextRow(): Place -> Place {
    (p: Place) => (p.0 + 1, p.1)
  }

  lemma PlacesTail(corpus: Corpus, hit: (SymbolId, SymbolId) -> bool)
    requires corpus != []
    ensures Places(corpus, hit)
         == Image(FirstRow(), PlacesIn(corpus[0], hit)) + Image(NextRow(), Places(corpus[1..], hit))
  {
    var first, rest := PlacesIn(corpus[0], hit), Places(corpus[1..], hit);
    forall p: Place
      ensures p in Places(corpus, hit) <==> p in Image(FirstRow(), first) || p in Image(NextRow(), rest)
    {
      if p.0 > 0 {
        assert NextRow()((p.0 - 1, p.1)) == p;
        assert p in Image(NextRow(), rest) <==> (p.0 - 1, p.1) in rest;
        assert p.0 < |corpus| ==> corpus[1..][p.0 - 1] == corpus[p.0];
      } else {
        assert FirstRow()(p.1) == p;
        assert p in Image(FirstRow(), first) <==> p.1 in first;
      }
    }
  }

  lemma {:induction false} PlacesCount(corpus: Corpus, hit: (SymbolId, SymbolId) -> bool)
    ensures |Places(corpus, hit)| == HitTotal(corpus, hit)
  {
    if corpus != [] {
      var first, rest := PlacesIn(corpus[0], hit), Places(corpus[1..], hit);
      PlacesCount(corpus[1..], hit);
      PlacesInCount(corpus[0], hit);
      PlacesTail(corpus, hit);
      ImageSize(FirstRow(), first);
      ImageSize(NextRow(), rest);
      assert Image(FirstRow(), first) !! Image(NextRow(), rest);
    }
  }

  // ---------- the counters are these numbers ----------

  lemma {:induction false} SequenceCounts(s: seq<SymbolId>, p: Pair)
    ensures PairsIn(s, p) == HitsIn(s, IsPair(p))
    ensures LeftsIn(s, p.0) == HitsIn(s, HasLeft(p.0)) && RightsIn(s, p.1) == HitsIn(s, HasRight(p.1))
    ensures HitsIn(s, Any()) == if |s| < 2 then 0 else |s| - 1
    ensures PairsIn(s, p) <= LeftsIn(s, p.0) && PairsIn(s, p) <= RightsIn(s, p.1)
  {
    if |s| >= 2 {
      SequenceCounts(s[1..], p);
    }
  }

  lemma {:induction false} CorpusCounts(corpus: Corpus, p: Pair)
    ensures PairTotal(corpus, p) == HitTotal(corpus, IsPair(p))
    ensures LeftTotal(corpus, p.0) == HitTotal(corpus, HasLeft(p.0))
    ensures RightTotal(corpus, p.1) == HitTotal(corpus, HasRight(p.1))
    ensures PositionTotal(corpus) == HitTotal(corpus, Any())
    ensures PairTotal(corpus, p) <= LeftTotal(corpus, p.0) && PairTotal(corpus, p) <= RightTotal(corpus, p.1)
    ensures PairTotal(corpus, p) <= PositionTotal(corpus)
  {
    if corpus != [] {
      SequenceCounts(corpus[0], p);
      CorpusCounts(corpus[1..], p);
      AtMostAll(corpus[0], p);
    }
  }

  lemma {:induction false} AtMostAll(s: seq<SymbolId>, p: Pair)
    ensures PairsIn(s, p) <= if |s| < 2 then 0 else |s| - 1
  {
    if |s| >= 2 {
      AtMostAll(s[1..], p);
    }
  }

  /** The four numbers of a pair. */
  datatype Numbers = Numbers(n: nat, l: nat, r: nat, total: nat)

  ghost function NumbersOf(corpus: Corpus, p: Pair): Numbers {
    Numbers(|Places(corpus, IsPair(p))|, |Places(corpus, HasLeft(p.0))|, |Places(corpus, HasRight(p.1))|,
            |Places(corpus, Any())|)
  }

  lemma NumbersAre(corpus: Corpus, p: Pair)
    ensures var m := NumbersOf(corpus, p);
            && m == Numbers(PairTotal(corpus, p), LeftTotal(corpus, p.0), RightTotal(corpus, p.1),
                            PositionTotal(corpus))
            && m.n <= m.l && m.n <= m.r && m.n <= m.total
  {
    CorpusCounts(corpus, p);
    PlacesCount(corpus, IsPair(p));
    PlacesCount(corpus, HasLeft(p.0));
    PlacesCount(corpus, HasRight(p.1));
    PlacesCount(corpus, Any());
  }

  // ---------- thresholds without dividing ----------

  /** The pair occurs and reaches the three thresholds. */
  ghost predicate Qualifies(corpus: Corpus, params: Params, p: Pair) {
    NumbersOf(corpus, p).n > 0 && Reaches(NumbersOf(corpus, p), params)
  }

  ghost predicate Reaches(m: Numbers, params: Params) {
    && m.n >= params.minFrequency && m.n as real >= params.minSupport * m.total as real
    && (m.n * m.total) as real >= params.minLift * (m.l * m.r) as real
  }

  lemma RealProduct(a: nat, b: nat)
    ensures (a * b) as real == a as real * b as real
  {}

  function Times(a: real, b: real): real {
    a * b
  }

  lemma Positive(a: real, b: real)
    requires a > 0.0 && b > 0.0
    ensures Times(a, b) > 0.0
  {}

  lemma Order(a: real, b: real, c: real)
    requires c > 0.0
    ensures a >= b <==> Times(a, c) >= Times(b, c)
    ensures a == b <==> Times(a, c) == Times(b, c)
  {
    if a > b {
      Positive(a - b, c);
      assert Times(a - b, c) == Times(a, c) - Times(b, c);
    } else if b > a {
      Positive(b - a, c);
      assert Times(b - a, c) == Times(b, c) - Times(a, c);
    }
  }

  lemma Regrouped(a: real, b: real, c: real)
    ensures Times(Times(a, b), c) == Times(a, Times(b, c)) == Times(b, Times(a, c))
  {}

  lemma QuotientBack(a: real, b: real)
    requires b > 0.0
    ensures Times(a / b, b) == a
  {}

  lemma SupportReached(n: nat, total: nat, support: real)
    requires total > 0
    ensures n as real / total as real >= support <==> n as real >= support * total as real
  {
    QuotientBack(n as real, total as real);
    Order(n as real / total as real, support, total as real);
  }

  /** The lift times the product of the two counts is n times total. */
  lemma LiftScaled(m: Numbers)
    requires m.l > 0 && m.r > 0 && m.total > 0
    ensures Times(Lift(m.n, m.l, m.r, m.total), (m.l * m.r) as real) == (m.n * m.total) as real
    ensures (m.l * m.r) as real > 0.0
  {
    var lr, t, n := (m.l * m.r) as real, m.total as real, m.n as real;
    RealProduct(m.l, m.r);
    RealProduct(m.n, m.total);
    Positive(m.l as real, m.r as real);
    var e, lift := Expected(m.l, m.r, m.total), Lift(m.n, m.l, m.r, m.total);
    QuotientBack(lr, t);
    ExpectedPositive(e, t, lr);
    QuotientBack(n, e);
    Regrouped(lift, e, t);
  }

  lemma ExpectedPositive(e: real, t: real, lr: real)
    requires t > 0.0 && Times(e, t) == lr > 0.0
    ensures e > 0.0
  {
    Order(0.0, e, t);
  }

  lemma AdmittedExactly(m: Numbers, params: Params)
    requires m.l > 0 && m.r > 0 && m.total > 0
    ensures Admitted(m.n, m.l, m.r, m.total, params) <==> Reaches(m, params)
  {
    SupportReached(m.n, m.total, params.minSupport);
    LiftScaled(m);
    LiftReached(Lift(m.n, m.l, m.r, m.total), (m.l * m.r) as real, (m.n * m.total) as real, params.minLift);
  }

  lemma LiftReached(lift: real, lr: real, nt: real, min: real)
    requires lr > 0.0 && Times(lift, lr) == nt
    ensures lift >= min <==> nt >= min * lr
  {
    Order(lift, min, lr);
  }

  /** A pair is promotable exactly if it qualifies. */
  lemma PromotableExactly(corpus: Corpus, params: Params, p: Pair)
    ensures Promotable(corpus, params, p) <==> Qualifies(corpus, params, p)
  {
    NumbersAre(corpus, p);
    if PairTotal(corpus, p) > 0 {
      AdmittedExactly(NumbersOf(corpus, p), params);
    }
  }

  // ---------- ranks without dividing ----------

  /** The higher score, and of equal ones the smaller pair. */
  ghost predicate Outranks(corpus: Corpus, p: Pair, q: Pair) {
    var a, b := NumbersOf(corpus, p), NumbersOf(corpus, q);
    var x, y := a.n * a.n * (b.l * b.r), b.n * b.n * (a.l * a.r);
    x > y || (x == y && (p.0 < q.0 || (p.0 == q.0 && p.1 < q.1)))
  }

  /** The score times the product of the two counts is n * n times total. */
  lemma ScoreScaled(m: Numbers)
    requires m.l > 0 && m.r > 0 && m.total > 0
    ensures Times(ScoreOf(m.n, m.l, m.r, m.total), (m.l * m.r) as real) == Times((m.n * m.n) as real, m.total as real)
  {
    var lift := Lift(m.n, m.l, m.r, m.total);
    LiftScaled(m);
    Regrouped(m.n as real, lift, (m.l * m.r) as real);
    RealProduct(m.n, m.total);
    RealProduct(m.n, m.n);
    Regrouped(m.n as real, m.n as real, m.total as real);
  }

  /** Two scores over a common denominator. */
  lemma CommonScale(s: real, a: real, b: real, n: real, t: real)
    requires Times(s, a) == Times(n, t)
    ensures Times(s, Times(a, b)) == Times(Times(n, b), t)
  {
    Regrouped(s, a, b);
    Regrouped(n, t, b);
    Regrouped(n, b, t);
    assert Times(t, b) == Times(b, t);
  }

  lemma ScoresCompared(s: real, u: real, a: real, b: real, n: real, m: real, t: real)
    requires a > 0.0 && b > 0.0 && t > 0.0 && Times(s, a) == Times(n, t) && Times(u, b) == Times(m, t)
    ensures s >= u <==> Times(n, b) >= Times(m, a)
    ensures s == u <==> Times(n, b) == Times(m, a)
  {
    CommonScale(s, a, b, n, t);
    CommonScale(u, b, a, m, t);
    Positive(a, b);
    assert Times(b, a) == Times(a, b);
    Order(s, u, Times(a, b));
    Order(Times(n, b), Times(m, a), t);
  }

  lemma RealOrder(x: nat, y: nat)
    ensures x as real >= y as real <==> x >= y
    ensures x as real == y as real <==> x == y
  {}

  lemma RanksExactly(a: Numbers, b: Numbers, s: real, u: real)
    requires a.l > 0 && a.r > 0 && b.l > 0 && b.r > 0 && a.total == b.total > 0
    requires s == ScoreOf(a.n, a.l, a.r, a.total) && u == ScoreOf(b.n, b.l, b.r, b.total)
    ensures s >= u <==> a.n * a.n * (b.l * b.r) >= b.n * b.n * (a.l * a.r)
    ensures s == u <==> a.n * a.n * (b.l * b.r) == b.n * b.n * (a.l * a.r)
  {
    ScoreScaled(a);
    ScoreScaled(b);
    LiftScaled(a);
    LiftScaled(b);
    ProductsCompared(s, u, a.l * a.r, b.l * b.r, a.n * a.n, b.n * b.n, a.total);
  }

  lemma ProductsCompared(s: real, u: real, a: nat, b: nat, n: nat, m: nat, t: nat)
    requires a as real > 0.0 && b as real > 0.0 && t > 0
    requires Times(s, a as real) == Times(n as real, t as real) && Times(u, b as real) == Times(m as real, t as real)
    ensures s >= u <==> n * b >= m * a
    ensures s == u <==> n * b == m * a
  {
    ScoresCompared(s, u, a as real, b as real, n as real, m as real, t as real);
    RealProduct(n, b);
    RealProduct(m, a);
    RealOrder(n * b, m * a);
  }

  lemma BetterExactly(corpus: Corpus, p: Pair, q: Pair)
    requires PairTotal(corpus, p) > 0 && PairTotal(corpus, q) > 0
    ensures Better(p, Score(corpus, p), q, Score(corpus, q)) <==> Outranks(corpus, p, q)
  {
    NumbersAre(corpus, p);
    NumbersAre(corpus, q);
    RanksExactly(NumbersOf(corpus, p), NumbersOf(corpus, q), Score(corpus, p), Score(corpus, q));
  }

  /** The pair that qualifies and outranks every other one that does. */
  ghost predicate Champion(corpus: Corpus, params: Params, p: Pair) {
    && Qualifies(corpus, params, p)
    && forall q: Pair :: Qualifies(corpus, params, q) && q != p ==> Outranks(corpus, p, q)
  }

  ghost predicate NoneQualifies(corpus: Corpus, params: Params) {
    forall p: Pair :: !Qualifies(corpus, params, p)
  }

  /** The best pair is the champion. */
  lemma BestIsChampion(corpus: Corpus, params: Params, p: Pair)
    ensures IsBest(corpus, params, p) <==> Champion(corpus, params, p)
  {
    PromotableExactly(corpus, params, p);
    forall q: Pair
      ensures Promotable(corpus, params, q) <==> Qualifies(corpus, params, q)
      ensures Promotable(corpus, params, p) && Promotable(corpus, params, q) ==>
        (Better(p, Score(corpus, p), q, Score(corpus, q)) <==> Outranks(corpus, p, q))
    {
      PromotableExactly(corpus, params, q);
      if Promotable(corpus, params, p) && Promotable(corpus, params, q) {
        BetterExactly(corpus, p, q);
      }
    }
  }

  /** What a scan reports: the champion, or that no pair qualifies. */
  lemma SelectedExactly(corpus: Corpus, params: Params, best: Option<Pair>)
    requires Selected(corpus, params, best)
    ensures match best case None => NoneQualifies(corpus, params) case Some(p) => Champion(corpus, params, p)
  {
    match best
    case None =>
      forall q: Pair
        ensures !Qualifies(corpus, params, q)
      {
        PromotableExactly(corpus, params, q);
      }
    case Some(p) =>
      BestIsChampion(corpus, params, p);
  }

  // ---------- a learning run ----------

  /** The corpus after the rules from `from` up to `to` were promoted one after the other. */
  ghost function Rewritten(corpus: Corpus, rules: Rules, from: nat, to: nat): Corpus
    requires from <= to <= |rules|
    decreases |rules| - from
  {
    if from == to then corpus
    else Rewritten(ReplacedAll(corpus, (rules[from].left, rules[from].right), rules[from].id), rules, from + 1, to)
  }

  /** Rule `k` is the champion of the corpus as it then was, with the next id and its number of places there. */
  ghost predicate IsPromotion(corpus: Corpus, params: Params, rule: AdaptiveRule, k: nat) {
    && rule.id == BASE + k && Champion(corpus, params, (rule.left, rule.right))
    && rule.frequency == |Places(corpus, IsPair((rule.left, rule.right)))|
  }

  /** Every rule from `from` on is promoted, and they stop at the limit or when the corpus is exhausted. */
  ghost predicate IsRun(promoted: (Corpus, AdaptiveRule, nat) -> bool, exhausted: Corpus -> bool, corpus: Corpus,
                        rules: Rules, from: nat, max: nat)
  {
    && from <= |rules| <= from + max
    && (forall k :: from <= k < |rules| ==> promoted(Rewritten(corpus, rules, from, k), rules[k], k))
    && (|rules| < from + max ==> exhausted(Rewritten(corpus, rules, from, |rules|)))
  }

  ghost function Promoted(params: Params): (Corpus, AdaptiveRule, nat) -> bool {
    (corpus: Corpus, rule: AdaptiveRule, k: nat) => IsPromotion(corpus, params, rule, k)
  }

  ghost function Exhausted(params: Params): Corpus -> bool {
    (corpus: Corpus) => NoneQualifies(corpus, params)
  }

  /** Champions only, one after the other, until the limit or until no pair qualifies. */
  ghost predicate IsLearningRun(corpus: Corpus, params: Params, rules: Rules, from: nat, max: nat) {
    IsRun(Promoted(params), Exhausted(params), corpus, rules, from, max)
  }

  lemma {:induction false} LearnedKeeps(rules: Rules, corpus: Corpus, max: nat, params: Params)
    ensures rules <= Learned(rules, corpus, max, params).0
    decreases max
  {
    if max > 0 && Best(corpus, params).Some? {
      var p := Best(corpus, params).value;
      LearnedKeeps(Extended(rules, p, PairTotal(corpus, p)), ReplacedAll(corpus, p, BASE + |rules|), max - 1, params);
    }
  }

  ghost predicate FirstPromoted(promoted: (Corpus, AdaptiveRule, nat) -> bool, params: Params, corpus: Corpus, k: nat) {
    match Best(corpus, params)
    case None => true
    case Some(p) => promoted(corpus, AdaptiveRule(BASE + k, p.0, p.1, PairTotal(corpus, p)), k)
  }

  ghost predicate ThenExhausted(exhausted: Corpus -> bool, params: Params, corpus: Corpus) {
    Best(corpus, params).None? ==> exhausted(corpus)
  }

  /** What must hold of the best pair, and of a corpus without one. */
  ghost predicate Fits(promoted: (Corpus, AdaptiveRule, nat) -> bool, exhausted: Corpus -> bool, params: Params) {
    && (forall corpus: Corpus, k: nat :: FirstPromoted(promoted, params, corpus, k))
    && (forall corpus: Corpus :: ThenExhausted(exhausted, params, corpus))
  }

  lemma {:induction false} LearnedIsRun(promoted: (Corpus, AdaptiveRule, nat) -> bool, exhausted: Corpus -> bool,
                                        rules: Rules, corpus: Corpus, max: nat, params: Params)
    requires Fits(promoted, exhausted, params)
    ensures IsRun(promoted, exhausted, corpus, Learned(rules, corpus, max, params).0, |rules|, max)
    decreases max
  {
    assert ThenExhausted(exhausted, params, corpus) && FirstPromoted(promoted, params, corpus, |rules|);
    if max > 0 && Best(corpus, params).Some? {
      var p := Best(corpus, params).value;
      var f := PairTotal(corpus, p);
      LearnedIsRun(promoted, exhausted, Extended(rules, p, f), ReplacedAll(corpus, p, BASE + |rules|), max - 1, params);
      LearnedKeeps(Extended(rules, p, f), ReplacedAll(corpus, p, BASE + |rules|), max - 1, params);
      LearnedNext(rules, corpus, max, params, p);
      OneMorePromotion(promoted, exhausted, corpus, Learned(rules, corpus, max, params).0, |rules|, max);
    }
  }

  /** The first rule learned, and what is learned after it. */
  lemma LearnedNext(rules: Rules, corpus: Corpus, max: nat, params: Params, p: Pair)
    requires max > 0 && Best(corpus, params) == Some(p)
    requires var f := PairTotal(corpus, p);
             Extended(rules, p, f)
             <= Learned(Extended(rules, p, f), ReplacedAll(corpus, p, BASE + |rules|), max - 1, params).0
    ensures var f, r := PairTotal(corpus, p), Learned(rules, corpus, max, params).0;
            && r == Learned(Extended(rules, p, f), ReplacedAll(corpus, p, BASE + |rules|), max - 1, params).0
            && |rules| < |r| && r[|rules|] == AdaptiveRule(BASE + |rules|, p.0, p.1, f)
  {
    var r := Learned(rules, corpus, max, params).0;
    assert r[|rules|] == Extended(rules, p, PairTotal(corpus, p))[|rules|];
  }

  lemma OneMorePromotion(promoted: (Corpus, AdaptiveRule, nat) -> bool, exhausted: Corpus -> bool, corpus: Corpus,
                         rules: Rules, from: nat, max: nat)
    requires from < |rules| && max > 0 && promoted(corpus, rules[from], from)
    requires IsRun(promoted, exhausted, ReplacedAll(corpus, (rules[from].left, rules[from].right), rules[from].id),
                   rules, from + 1, max - 1)
    ensures IsRun(promoted, exhausted, corpus, rules, from, max)
  {
    var next := ReplacedAll(corpus, (rules[from].left, rules[from].right), rules[from].id);
    forall k | from <= k < |rules|
      ensures promoted(Rewritten(corpus, rules, from, k), rules[k], k)
    {
      if k > from {
        assert Rewritten(corpus, rules, from, k) == Rewritten(next, rules, from + 1, k);
      }
    }
  }

  lemma BestPromotes(corpus: Corpus, params: Params, k: nat)
    ensures FirstPromoted(Promoted(params), params, corpus, k)
  {
    if Best(corpus, params).Some? {
      var p := Best(corpus, params).value;
      BestIsChampion(corpus, params, p);
      NumbersAre(corpus, p);
    }
  }

  lemma NothingPromotes(corpus: Corpus, params: Params)
    ensures ThenExhausted(Exhausted(params), params, corpus)
  {
    if Best(corpus, params).None? {
      BestExists(corpus, params);
      SelectedExactly(corpus, params, None);
    }
  }

  /** The learning loop is a learning run. */
  lemma LearnedRun(rules: Rules, corpus: Corpus, max: nat, params: Params)
    ensures |rules| <= |Learned(rules, corpus, max, params).0|
    ensures IsLearningRun(corpus, params, Learned(rules, corpus, max, params).0, |rules|, max)
  {
    LearnedKeeps(rules, corpus, max, params);
    forall c: Corpus, k: nat
      ensures FirstPromoted(Promoted(params), params, c, k)
    {
      BestPromotes(c, params, k);
    }
    forall c: Corpus
      ensures ThenExhausted(Exhausted(params), params, c)
    {
      NothingPromotes(c, params);
    }
    LearnedIsRun(Promoted(params), Exhausted(params), rules, corpus, max, params);
  }
}
