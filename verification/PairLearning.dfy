/**
  The learning step: count adjacent pairs, promote the best one to a rule, rewrite the working sequences.

  Scores are real numbers; rounding of the source's doubles is not modelled.
*/
module PairLearning {
  import opened Words
  import opened Common
  import opened Expansion
  import opened PairRewriting

  type Corpus = seq<seq<SymbolId>>

  // ---------- counting ----------

  /** Adjacent positions, overlapping ones included, that hold the pair. */
  function PairsIn(s: seq<SymbolId>, p: Pair): nat {
    if |s| < 2 then 0 else (if s[0] == p.0 && s[1] == p.1 then 1 else 0) + PairsIn(s[1..], p)
  }

  /** Adjacent positions whose left (right) symbol is `x`. */
  function LeftsIn(s: seq<SymbolId>, x: SymbolId): nat {
    if |s| < 2 then 0 else (if s[0] == x then 1 else 0) + LeftsIn(s[1..], x)
  }

  function RightsIn(s: seq<SymbolId>, x: SymbolId): nat {
    if |s| < 2 then 0 else (if s[1] == x then 1 else 0) + RightsIn(s[1..], x)
  }

  function PairTotal(corpus: Corpus, p: Pair): nat {
    if corpus == [] then 0 else PairsIn(corpus[0], p) + PairTotal(corpus[1..], p)
  }

  function LeftTotal(corpus: Corpus, x: SymbolId): nat {
    if corpus == [] then 0 else LeftsIn(corpus[0], x) + LeftTotal(corpus[1..], x)
  }

  function RightTotal(corpus: Corpus, x: SymbolId): nat {
    if corpus == [] then 0 else RightsIn(corpus[0], x) + RightTotal(corpus[1..], x)
  }

  function PositionTotal(corpus: Corpus): nat {
    if corpus == [] then 0 else (if |corpus[0]| < 2 then 0 else |corpus[0]| - 1) + PositionTotal(corpus[1..])
  }

  function TotalLength(corpus: Corpus): nat {
    if corpus == [] then 0 else |corpus[0]| + TotalLength(corpus[1..])
  }

  datatype Stats = Stats(pairs: map<Pair, nat>, lefts: map<SymbolId, nat>, rights: map<SymbolId, nat>, total: nat)

  /** Only pairs that occur are in the table. */
  ghost predicate OnlyPositive<K(!new)>(m: map<K, nat>) {
    forall k :: k in m ==> m[k] > 0
  }

  /** The counts of `st` are those of `seen` and what is still missing are those of `rest`. */
  ghost predicate CountsUpTo(st: Stats, before: Stats, s: seq<SymbolId>, rest: seq<SymbolId>) {
    && (forall p :: At(st.pairs, p) + PairsIn(rest, p) == At(before.pairs, p) + PairsIn(s, p))
    && (forall x :: At(st.lefts, x) + LeftsIn(rest, x) == At(before.lefts, x) + LeftsIn(s, x))
    && (forall x :: At(st.rights, x) + RightsIn(rest, x) == At(before.rights, x) + RightsIn(s, x))
    && OnlyPositive(st.pairs)
  }

  method CountSequence(before: Stats, s: seq<SymbolId>) returns (st: Stats)
    requires OnlyPositive(before.pairs)
    ensures CountsUpTo(st, before, s, [])
    ensures st.total == before.total + (if |s| < 2 then 0 else |s| - 1)
  {
    st := before;
    var i := 0;
    assert s[0..] == s;
    while i + 1 < |s|
      invariant i <= |s| && (|s| > 0 ==> i < |s|)
      invariant CountsUpTo(st, before, s, s[i..])
      invariant st.total == before.total + i
    {
      CountOne(st, before, s, i);
      st := Stats(Incremented(st.pairs, (s[i], s[i + 1])), Incremented(st.lefts, s[i]),
                  Incremented(st.rights, s[i + 1]), st.total + 1);
      i := i + 1;
    }
  }

  lemma CountOne(st: Stats, before: Stats, s: seq<SymbolId>, i: nat)
    requires i + 1 < |s| && CountsUpTo(st, before, s, s[i..])
    ensures CountsUpTo(Stats(Incremented(st.pairs, (s[i], s[i + 1])), Incremented(st.lefts, s[i]),
                             Incremented(st.rights, s[i + 1]), st.total + 1), before, s, s[i + 1..])
  {
    var rest := s[i..];
    assert rest[1..] == s[i + 1..] && rest[0] == s[i] && rest[1] == s[i + 1];
  }

  /** `st` counts the corpus exactly. */
  ghost predicate Counts(st: Stats, corpus: Corpus) {
    && (forall p :: At(st.pairs, p) == PairTotal(corpus, p))
    && (forall x :: At(st.lefts, x) == LeftTotal(corpus, x))
    && (forall x :: At(st.rights, x) == RightTotal(corpus, x))
    && OnlyPositive(st.pairs) && st.total == PositionTotal(corpus)
  }

  ghost predicate CountsPrefix(st: Stats, corpus: Corpus, rest: Corpus) {
    && (forall p :: At(st.pairs, p) + PairTotal(rest, p) == PairTotal(corpus, p))
    && (forall x :: At(st.lefts, x) + LeftTotal(rest, x) == LeftTotal(corpus, x))
    && (forall x :: At(st.rights, x) + RightTotal(rest, x) == RightTotal(corpus, x))
    && OnlyPositive(st.pairs) && st.total + PositionTotal(rest) == PositionTotal(corpus)
  }

  method CountCorpus(corpus: Corpus) returns (st: Stats)
    ensures Counts(st, corpus)
  {
    st := Stats(map[], map[], map[], 0);
    assert corpus[0..] == corpus;
    for k := 0 to |corpus|
      invariant CountsPrefix(st, corpus, corpus[k..])
    {
      var next := CountSequence(st, corpus[k]);
      CountNext(st, next, corpus, k);
      st := next;
    }
    assert corpus[|corpus|..] == [];
  }

  lemma CountNext(st: Stats, next: Stats, corpus: Corpus, k: nat)
    requires k < |corpus| && CountsPrefix(st, corpus, corpus[k..])
    requires CountsUpTo(next, st, corpus[k], [])
    requires next.total == st.total + (if |corpus[k]| < 2 then 0 else |corpus[k]| - 1)
    ensures CountsPrefix(next, corpus, corpus[k + 1..])
  {
    var rest := corpus[k..];
    assert rest[1..] == corpus[k + 1..] && rest[0] == corpus[k];
  }

  // ---------- the best pair ----------

  datatype Params = Params(minFrequency: nat, minLift: real, minSupport: real)

  function Expected(lefts: nat, rights: nat, total: nat): real
    requires total > 0
  {
    lefts as real * rights as real / total as real
  }

  function Lift(observed: nat, lefts: nat, rights: nat, total: nat): real
    requires total > 0
  {
    var e := Expected(lefts, rights, total);
    if e > 0.0 then observed as real / e else 0.0
  }

  predicate Admitted(observed: nat, lefts: nat, rights: nat, total: nat, params: Params)
    requires total > 0
  {
    && observed >= params.minFrequency
    && observed as real / total as real >= params.minSupport
    && Lift(observed, lefts, rights, total) >= params.minLift
  }

  function ScoreOf(observed: nat, lefts: nat, rights: nat, total: nat): real
    requires total > 0
  {
    observed as real * Lift(observed, lefts, rights, total)
  }

  predicate PairLess(p: Pair, q: Pair) {
    p.0 < q.0 || (p.0 == q.0 && p.1 < q.1)
  }

  /** A candidate with its score; better means higher score, then smaller pair. */
  predicate Better(p: Pair, ps: real, q: Pair, qs: real) {
    ps > qs || (ps == qs && PairLess(p, q))
  }

  function Score(corpus: Corpus, p: Pair): real {
    if PositionTotal(corpus) == 0 then 0.0
    else ScoreOf(PairTotal(corpus, p), LeftTotal(corpus, p.0), RightTotal(corpus, p.1), PositionTotal(corpus))
  }

  /** A pair that occurs and passes the three thresholds. */
  predicate Promotable(corpus: Corpus, params: Params, p: Pair) {
    && PairTotal(corpus, p) > 0 && PositionTotal(corpus) > 0
    && Admitted(PairTotal(corpus, p), LeftTotal(corpus, p.0), RightTotal(corpus, p.1), PositionTotal(corpus), params)
  }

  ghost predicate IsBest(corpus: Corpus, params: Params, p: Pair) {
    && Promotable(corpus, params, p)
    && forall q: Pair :: Promotable(corpus, params, q) && q != p ==>
      Better(p, Score(corpus, p), q, Score(corpus, q))
  }

  /** There is at most one best pair, so the order in which candidates are visited does not matter. */
  lemma BestUnique(corpus: Corpus, params: Params, p: Pair, q: Pair)
    requires IsBest(corpus, params, p) && IsBest(corpus, params, q)
    ensures p == q
  {}

  ghost predicate NonePromotable(corpus: Corpus, params: Params) {
    forall p: Pair :: !Promotable(corpus, params, p)
  }

  /** What a scan over the pair table reports. */
  ghost predicate Selected(corpus: Corpus, params: Params, best: Option<Pair>) {
    match best
    case None => NonePromotable(corpus, params)
    case Some(p) => IsBest(corpus, params, p)
  }

  /** The scan has visited all table entries outside `left`. */
  ghost predicate Scanned(corpus: Corpus, params: Params, left: set<Pair>, best: Option<Pair>) {
    match best
    case None => forall p: Pair :: Promotable(corpus, params, p) ==> p in left
    case Some(b) => Promotable(corpus, params, b)
                    && forall q: Pair :: Promotable(corpus, params, q) && q != b && q !in left ==>
                      Better(b, Score(corpus, b), q, Score(corpus, q))
  }

  /** Visits the pair table in an arbitrary order. */
  method SelectBest(st: Stats, params: Params, ghost corpus: Corpus) returns (best: Option<Pair>)
    requires Counts(st, corpus)
    ensures Selected(corpus, params, best)
  {
    best := None;
    if st.total == 0 {
      return;
    }
    var left := st.pairs.Keys;
    var bestScore := 0.0;
    TableComplete(st, corpus, params);
    while left != {}
      invariant left <= st.pairs.Keys
      invariant Scanned(corpus, params, left, best)
      invariant best.Some? ==> bestScore == Score(corpus, best.value)
      decreases |left|
    {
      var p :| p in left;
      var observed, l, r := st.pairs[p], At(st.lefts, p.0), At(st.rights, p.1);
      CandidateCounts(st, corpus, p);
      var score := ScoreOf(observed, l, r, st.total);
      var take := Admitted(observed, l, r, st.total, params)
                  && (best.None? || Better(p, score, best.value, bestScore));
      ScanStep(corpus, params, left, best, p, take);
      if take {
        best, bestScore := Some(p), score;
      }
      left := left - {p};
    }
  }

  lemma TableComplete(st: Stats, corpus: Corpus, params: Params)
    requires Counts(st, corpus)
    ensures Scanned(corpus, params, st.pairs.Keys, None)
  {
    forall p: Pair | Promotable(corpus, params, p)
      ensures p in st.pairs.Keys
    {
      assert At(st.pairs, p) == PairTotal(corpus, p);
    }
  }

  lemma CandidateCounts(st: Stats, corpus: Corpus, p: Pair)
    requires Counts(st, corpus) && p in st.pairs
    ensures st.pairs[p] == PairTotal(corpus, p) > 0
    ensures At(st.lefts, p.0) == LeftTotal(corpus, p.0) && At(st.rights, p.1) == RightTotal(corpus, p.1)
  {
    assert At(st.pairs, p) == PairTotal(corpus, p);
  }

  lemma ScanStep(corpus: Corpus, params: Params, left: set<Pair>, best: Option<Pair>, p: Pair, take: bool)
    requires Scanned(corpus, params, left, best) && p in left
    requires take <==> Promotable(corpus, params, p)
                       && (best.None? || Better(p, Score(corpus, p), best.value, Score(corpus, best.value)))
    ensures Scanned(corpus, params, left - {p}, if take then Some(p) else best)
  {
    if best.Some? {
      var b := best.value;
      forall q: Pair | Promotable(corpus, params, q) && q !in left - {p} && q != (if take then p else b)
        ensures Better(if take then p else b, Score(corpus, if take then p else b), q, Score(corpus, q))
      {
        if q != p && q != b {
          assert Better(b, Score(corpus, b), q, Score(corpus, q));
        }
      }
    }
  }

  /** If some pair is promotable then there is a best one. */
  ghost function Best(corpus: Corpus, params: Params): (best: Option<Pair>)
  {
    if exists p :: IsBest(corpus, params, p) then
      var p :| IsBest(corpus, params, p);
      Some(p)
    else None
  }

  lemma SelectedIsBest(corpus: Corpus, params: Params, best: Option<Pair>)
    requires Selected(corpus, params, best)
    ensures best == Best(corpus, params)
  {
    if best.Some? {
      var b := Best(corpus, params);
      BestUnique(corpus, params, best.value, b.value);
    }
  }

  // ---------- a best pair exists whenever something is promotable ----------

  function PairsOf(s: seq<SymbolId>): set<Pair> {
    if |s| < 2 then {} else {(s[0], s[1])} + PairsOf(s[1..])
  }

  function Occurring(corpus: Corpus): set<Pair> {
    if corpus == [] then {} else PairsOf(corpus[0]) + Occurring(corpus[1..])
  }

  lemma {:induction false} CountedOccurs(s: seq<SymbolId>, p: Pair)
    requires PairsIn(s, p) > 0
    ensures p in PairsOf(s)
  {
    if s[0] != p.0 || s[1] != p.1 {
      CountedOccurs(s[1..], p);
    }
  }

  lemma {:induction false} CountedOccursAll(corpus: Corpus, p: Pair)
    requires PairTotal(corpus, p) > 0
    ensures p in Occurring(corpus)
  {
    if PairsIn(corpus[0], p) > 0 {
      CountedOccurs(corpus[0], p);
    } else {
      CountedOccursAll(corpus[1..], p);
    }
  }

  /** The best of the promotable pairs of a finite set. */
  lemma {:induction false} BestOf(corpus: Corpus, params: Params, candidates: set<Pair>) returns (b: Pair)
    requires exists p :: p in candidates && Promotable(corpus, params, p)
    ensures b in candidates && Promotable(corpus, params, b)
    ensures forall q :: q in candidates && Promotable(corpus, params, q) && q != b ==>
      Better(b, Score(corpus, b), q, Score(corpus, q))
    decreases |candidates|
  {
    var p :| p in candidates && Promotable(corpus, params, p);
    var rest := candidates - {p};
    if exists q :: q in rest && Promotable(corpus, params, q) {
      b := BestOf(corpus, params, rest);
      if Better(p, Score(corpus, p), b, Score(corpus, b)) {
        b := p;
      }
    } else {
      b := p;
    }
  }

  lemma BestExists(corpus: Corpus, params: Params)
    ensures Best(corpus, params) == None <==> NonePromotable(corpus, params)
  {
    if p: Pair :| Promotable(corpus, params, p) {
      CountedOccursAll(corpus, p);
      var b := BestOf(corpus, params, Occurring(corpus));
      forall q: Pair | Promotable(corpus, params, q)
        ensures q in Occurring(corpus)
      {
        CountedOccursAll(corpus, q);
      }
      assert IsBest(corpus, params, b);
    }
  }

  // ---------- promotion ----------

  function ReplacedAll(corpus: Corpus, p: Pair, x: SymbolId): (out: Corpus)
    ensures |out| == |corpus|
  {
    if corpus == [] then [] else [Replaced(corpus[0], p.0, p.1, x)] + ReplacedAll(corpus[1..], p, x)
  }

  function ReplacementTotal(corpus: Corpus, p: Pair): nat {
    if corpus == [] then 0 else Replacements(corpus[0], p.0, p.1) + ReplacementTotal(corpus[1..], p)
  }

  method ReplaceAll(corpus: Corpus, p: Pair, x: SymbolId) returns (out: Corpus)
    ensures out == ReplacedAll(corpus, p, x)
  {
    out := [];
    assert corpus[0..] == corpus;
    for k := 0 to |corpus|
      invariant ReplacedAll(corpus, p, x) == out + ReplacedAll(corpus[k..], p, x)
    {
      assert corpus[k..][1..] == corpus[k + 1..];
      var s, _ := ReplacePair(corpus[k], p.0, p.1, x);
      out := out + [s];
    }
  }

  /** Counted and replaced occurrences: equal for two different symbols, at least half for a repeated one. */
  lemma {:induction false} CountedAndReplaced(s: seq<SymbolId>, p: Pair)
    ensures p.0 != p.1 ==> Replacements(s, p.0, p.1) == PairsIn(s, p)
    ensures PairsIn(s, p) <= 2 * Replacements(s, p.0, p.1)
    decreases |s|
  {
    if |s| >= 2 && s[0] == p.0 && s[1] == p.1 {
      CountedAndReplaced(s[2..], p);
      assert s[1..][1..] == s[2..];
    } else if s != [] {
      CountedAndReplaced(s[1..], p);
    }
  }

  lemma {:induction false} CountedAndReplacedAll(corpus: Corpus, p: Pair)
    ensures p.0 != p.1 ==> ReplacementTotal(corpus, p) == PairTotal(corpus, p)
    ensures PairTotal(corpus, p) <= 2 * ReplacementTotal(corpus, p)
  {
    if corpus != [] {
      CountedAndReplaced(corpus[0], p);
      CountedAndReplacedAll(corpus[1..], p);
    }
  }

  lemma {:induction false} ReplacedAllLength(corpus: Corpus, p: Pair, x: SymbolId)
    ensures TotalLength(ReplacedAll(corpus, p, x)) + ReplacementTotal(corpus, p) == TotalLength(corpus)
  {
    if corpus != [] {
      ReplacedLength(corpus[0], p.0, p.1, x);
      ReplacedAllLength(corpus[1..], p, x);
    }
  }

  /** A promotion shortens the working sequences by the counted frequency, or by at least half of it. */
  lemma PromotionShortens(corpus: Corpus, p: Pair, x: SymbolId)
    ensures TotalLength(ReplacedAll(corpus, p, x)) <= TotalLength(corpus)
    ensures var saved := TotalLength(corpus) - TotalLength(ReplacedAll(corpus, p, x));
            && (p.0 != p.1 ==> saved == PairTotal(corpus, p))
            && PairTotal(corpus, p) <= 2 * saved
  {
    ReplacedAllLength(corpus, p, x);
    CountedAndReplacedAll(corpus, p);
  }

  /** The learning loop: at most `max` promotions, until nothing is promotable. */
  ghost function Learned(rules: Rules, corpus: Corpus, max: nat, params: Params): (Rules, Corpus)
    decreases max
  {
    match (if max == 0 then None else Best(corpus, params))
    case None => (rules, corpus)
    case Some(p) =>
      var id := BASE + |rules|;
      Learned(rules + [AdaptiveRule(id, p.0, p.1, PairTotal(corpus, p))], ReplacedAll(corpus, p, id), max - 1, params)
  }

  method Learn(rules0: Rules, corpus: Corpus, max: nat, params: Params) returns (rules: Rules, learned: nat)
    ensures rules == Learned(rules0, corpus, max, params).0
    ensures |rules| == |rules0| + learned
  {
    rules, learned := rules0, 0;
    var working := corpus;
    while learned < max
      invariant learned <= max && |rules| == |rules0| + learned
      invariant Learned(rules0, corpus, max, params) == Learned(rules, working, max - learned, params)
    {
      var st := CountCorpus(working);
      var best := SelectBest(st, params, working);
      SelectedIsBest(working, params, best);
      if best.None? {
        break;
      }
      var p := best.value;
      var id := BASE + |rules|;
      CandidatePresent(st, working, params, p);
      rules := rules + [AdaptiveRule(id, p.0, p.1, st.pairs[p])];
      working := ReplaceAll(working, p, id);
      learned := learned + 1;
    }
  }

  lemma CandidatePresent(st: Stats, corpus: Corpus, params: Params, p: Pair)
    requires Counts(st, corpus) && IsBest(corpus, params, p)
    ensures p in st.pairs && st.pairs[p] == PairTotal(corpus, p)
  {
    assert At(st.pairs, p) == PairTotal(corpus, p);
  }

  // ---------- what learning keeps ----------

  ghost predicate AllKnown(rules: Rules, corpus: Corpus) {
    forall k :: 0 <= k < |corpus| ==> Known(RulePairs(rules), corpus[k])
  }

  ghost predicate AllNormal(rules: Rules, corpus: Corpus) {
    forall k :: 0 <= k < |corpus| ==> NormalForm(rules, corpus[k])
  }

  lemma {:induction false} ReplacedAllAt(corpus: Corpus, p: Pair, x: SymbolId, k: nat)
    requires k < |corpus|
    ensures ReplacedAll(corpus, p, x)[k] == Replaced(corpus[k], p.0, p.1, x)
  {
    if k > 0 {
      ReplacedAllAt(corpus[1..], p, x, k - 1);
    }
  }

  /** A pair that is counted stands somewhere in the corpus. */
  lemma {:induction false} PairOccurs(s: seq<SymbolId>, p: Pair) returns (i: nat)
    requires PairsIn(s, p) > 0
    ensures i + 1 < |s| && s[i] == p.0 && s[i + 1] == p.1
  {
    if s[0] == p.0 && s[1] == p.1 {
      i := 0;
    } else {
      var j := PairOccurs(s[1..], p);
      i := j + 1;
    }
  }

  lemma {:induction false} PairOccursAll(corpus: Corpus, p: Pair) returns (k: nat, i: nat)
    requires PairTotal(corpus, p) > 0
    ensures k < |corpus| && i + 1 < |corpus[k]| && corpus[k][i] == p.0 && corpus[k][i + 1] == p.1
  {
    if PairsIn(corpus[0], p) > 0 {
      i := PairOccurs(corpus[0], p);
      k := 0;
    } else {
      var j;
      j, i := PairOccursAll(corpus[1..], p);
      k := j + 1;
    }
  }

  function Extended(rules: Rules, p: Pair, frequency: nat): (longer: Rules)
    ensures |longer| == |rules| + 1
  {
    rules + [AdaptiveRule(BASE + |rules|, p.0, p.1, frequency)]
  }

  lemma ExtendedPairs(rules: Rules, p: Pair, frequency: nat)
    ensures RulePairs(Extended(rules, p, frequency)) == RulePairs(rules) + [p]
  {}

  /** A promoted pair consists of known symbols, so the longer table is ordered again. */
  lemma PromotionKeepsOrder(rules: Rules, corpus: Corpus, p: Pair, frequency: nat)
    requires Ordered(rules) && AllKnown(rules, corpus) && PairTotal(corpus, p) > 0
    ensures Ordered(Extended(rules, p, frequency))
    ensures AllKnown(Extended(rules, p, frequency), ReplacedAll(corpus, p, BASE + |rules|))
  {
    var k, i := PairOccursAll(corpus, p);
    assert Known(RulePairs(rules), corpus[k]);
    var longer, x := Extended(rules, p, frequency), BASE + |rules|;
    ExtendedPairs(rules, p, frequency);
    OrderedIsWellFounded(longer);
    forall j | 0 <= j < |corpus|
      ensures Known(RulePairs(longer), ReplacedAll(corpus, p, x)[j])
    {
      ReplacedAllAt(corpus, p, x, j);
      assert Known(RulePairs(rules), corpus[j]);
      assert Known(RulePairs(longer), corpus[j]);
      ReplacedExpands(RulePairs(longer), corpus[j], x);
    }
  }

  /** In normal-form sequences every promoted pair is new, and the sequences stay in normal form. */
  lemma PromotionKeepsNormal(rules: Rules, corpus: Corpus, p: Pair, frequency: nat)
    requires Ordered(rules) && AllKnown(rules, corpus) && AllNormal(rules, corpus) && PairTotal(corpus, p) > 0
    ensures p !in RulePairs(rules)
    ensures AllNormal(Extended(rules, p, frequency), ReplacedAll(corpus, p, BASE + |rules|))
  {
    var k, i := PairOccursAll(corpus, p);
    var x := BASE + |rules|;
    assert NormalForm(rules, corpus[k]) && Known(RulePairs(rules), corpus[k]);
    forall n | 0 <= n < |rules|
      ensures RulePairs(rules)[n] != p
    {
      assert Free(corpus[k], rules[n].left, rules[n].right);
    }
    forall j | 0 <= j < |corpus|
      ensures NormalForm(Extended(rules, p, frequency), ReplacedAll(corpus, p, x)[j])
    {
      ReplacedAllAt(corpus, p, x, j);
      assert NormalForm(rules, corpus[j]);
      SequenceStaysNormal(rules, corpus[j], p, frequency);
    }
  }

  lemma SequenceStaysNormal(rules: Rules, s: seq<SymbolId>, p: Pair, frequency: nat)
    requires Ordered(rules) && NormalForm(rules, s) && p.0 < BASE + |rules| && p.1 < BASE + |rules|
    ensures NormalForm(Extended(rules, p, frequency), Replaced(s, p.0, p.1, BASE + |rules|))
  {
    var longer, x := Extended(rules, p, frequency), BASE + |rules|;
    forall n | 0 <= n < |longer|
      ensures Free(Replaced(s, p.0, p.1, x), longer[n].left, longer[n].right)
    {
      if n < |rules| {
        assert Free(s, rules[n].left, rules[n].right);
        ReplacedKeepsFree(s, p.0, p.1, x, rules[n].left, rules[n].right);
      } else {
        ReplacedIsFree(s, p.0, p.1, x);
      }
    }
  }

  lemma BestOccurs(corpus: Corpus, params: Params)
    ensures Best(corpus, params).Some? ==> PairTotal(corpus, Best(corpus, params).value) > 0
  {}

  /** Learning on known symbols appends rules and keeps the table ordered. */
  lemma {:induction false} LearnedOrdered(rules: Rules, corpus: Corpus, max: nat, params: Params)
    requires Ordered(rules) && AllKnown(rules, corpus)
    ensures Ordered(Learned(rules, corpus, max, params).0)
    ensures rules <= Learned(rules, corpus, max, params).0
    decreases max
  {
    BestOccurs(corpus, params);
    if max > 0 && Best(corpus, params).Some? {
      var p := Best(corpus, params).value;
      var f := PairTotal(corpus, p);
      PromotionKeepsOrder(rules, corpus, p, f);
      LearnedOrdered(Extended(rules, p, f), ReplacedAll(corpus, p, BASE + |rules|), max - 1, params);
    }
  }

  /** Learning on normal-form sequences never promotes one pair twice. */
  lemma {:induction false} LearnedDistinct(rules: Rules, corpus: Corpus, max: nat, params: Params)
    requires Ordered(rules) && AllKnown(rules, corpus) && AllNormal(rules, corpus) && Distinct(RulePairs(rules))
    ensures Distinct(RulePairs(Learned(rules, corpus, max, params).0))
    decreases max
  {
    BestOccurs(corpus, params);
    if max > 0 && Best(corpus, params).Some? {
      var p := Best(corpus, params).value;
      var f := PairTotal(corpus, p);
      PromotionKeepsOrder(rules, corpus, p, f);
      PromotionKeepsNormal(rules, corpus, p, f);
      ExtendedPairs(rules, p, f);
      DistinctPush(RulePairs(rules), p);
      LearnedDistinct(Extended(rules, p, f), ReplacedAll(corpus, p, BASE + |rules|), max - 1, params);
    }
  }

  lemma DistinctPush(pairs: seq<Pair>, p: Pair)
    requires Distinct(pairs) && p !in pairs
    ensures Distinct(pairs + [p])
  {}

  /** Every learned rule saves at least one symbol, so learning stops by itself. */
  lemma {:induction false} LearnedBounded(rules: Rules, corpus: Corpus, max: nat, params: Params)
    ensures var (rules', corpus') := Learned(rules, corpus, max, params);
            |rules'| + TotalLength(corpus') <= |rules| + TotalLength(corpus)
    decreases max
  {
    BestOccurs(corpus, params);
    if max > 0 && Best(corpus, params).Some? {
      var p := Best(corpus, params).value;
      var f := PairTotal(corpus, p);
      PromotionShortens(corpus, p, BASE + |rules|);
      LearnedBounded(Extended(rules, p, f), ReplacedAll(corpus, p, BASE + |rules|), max - 1, params);
    }
  }
}
