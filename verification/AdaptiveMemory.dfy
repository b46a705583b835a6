/**
  The adaptive memory: an append-only rule table that learns recurring pairs and rewrites data with them.
*/
module AdaptiveMemory {
  import opened Words
  import opened Common
  import opened Expansion
  import opened PairRewriting
  import opened PairLearning
  import opened PairScores

  datatype AdaptiveEncodeResult = AdaptiveEncodeResult(trail: seq<SymbolId>, inputBytes: nat, rulesApplied: nat)

  function SymbolCorpus(corpus: seq<seq<Byte>>): (working: Corpus)
    ensures |working| == |corpus|
  {
    seq(|corpus|, k requires 0 <= k < |corpus| => BytesAsSymbols(corpus[k]))
  }

  class Memory {
    var rules: Rules

    constructor ()
      ensures rules == []
    {
      rules := [];
    }

    /** Forgets all rules and learns from a corpus. */
    method Train(corpus: seq<seq<Byte>>, maxRules: nat, params: Params)
      modifies this
      ensures rules == Learned([], SymbolCorpus(corpus), maxRules, params).0
      ensures IsLearningRun(SymbolCorpus(corpus), params, rules, 0, maxRules)
      ensures Ordered(rules) && Distinct(RulePairs(rules))
    {
      BytesAreNormal(corpus);
      LearnedOrdered([], SymbolCorpus(corpus), maxRules, params);
      LearnedDistinct([], SymbolCorpus(corpus), maxRules, params);
      LearnedRun([], SymbolCorpus(corpus), maxRules, params);
      var learned;
      rules, learned := Learn([], SymbolCorpus(corpus), maxRules, params);
    }

    /** Learns from the trail of one input, after the rules known so far. */
    method LearnOnline(data: seq<Byte>, maxNewRules: nat, params: Params) returns (learned: nat)
      modifies this
      ensures rules == Learned(old(rules), [Applied(old(rules), BytesAsSymbols(data))], maxNewRules, params).0
      ensures |rules| == |old(rules)| + learned
      ensures IsLearningRun([Applied(old(rules), BytesAsSymbols(data))], params, rules, |old(rules)|, maxNewRules)
      ensures old(Ordered(rules)) ==> Ordered(rules) && old(rules) <= rules
      ensures old(Ordered(rules) && Distinct(RulePairs(rules))) ==> Distinct(RulePairs(rules))
    {
      if Ordered(rules) {
        OnlineKeeps(rules, data, maxNewRules, params);
      }
      var encoded := Encode(data);
      LearnedRun(rules, [encoded.trail], maxNewRules, params);
      rules, learned := Learn(rules, [encoded.trail], maxNewRules, params);
    }

    /** Adds higher-order rules found in existing trails. */
    method Consolidate(trails: seq<seq<SymbolId>>, maxNewRules: nat, params: Params) returns (learned: nat)
      modifies this
      ensures rules == Learned(old(rules), trails, maxNewRules, params).0
      ensures |rules| == |old(rules)| + learned
      ensures IsLearningRun(trails, params, rules, |old(rules)|, maxNewRules)
      ensures old(Ordered(rules) && AllKnown(rules, trails)) ==> Ordered(rules) && old(rules) <= rules
    {
      ghost var before := rules;
      LearnedRun(before, trails, maxNewRules, params);
      rules, learned := Learn(rules, trails, maxNewRules, params);
      if Ordered(before) && AllKnown(before, trails) {
        LearnedOrdered(before, trails, maxNewRules, params);
      }
    }

    method Encode(data: seq<Byte>) returns (result: AdaptiveEncodeResult)
      ensures result.trail == Applied(rules, BytesAsSymbols(data))
      ensures result.inputBytes == |data|
      ensures result.rulesApplied == |data| - |result.trail|
    {
      var trail, applied := BytesAsSymbols(data), 0;
      for k := 0 to |rules|
        invariant trail == Applied(rules[..k], BytesAsSymbols(data))
        invariant applied == AppliedCount(rules[..k], BytesAsSymbols(data))
      {
        assert rules[..k + 1][..k] == rules[..k];
        var rule, replacements := rules[k], 0;
        trail, replacements := ReplacePair(trail, rule.left, rule.right, rule.id);
        applied := applied + replacements;
      }
      assert rules[..|rules|] == rules;
      AppliedLength(rules, BytesAsSymbols(data));
      result := AdaptiveEncodeResult(trail, |data|, applied);
    }

    method ExpandInto(symbol: SymbolId, out0: seq<Byte>) returns (ok: bool, out: seq<Byte>)
      requires Ordered(rules)
      ensures WellFounded(RulePairs(rules))
      ensures ok <==> symbol < BASE + |rules|
      ensures ok ==> out == out0 + Expand(RulePairs(rules), symbol)
      decreases symbol
    {
      OrderedIsWellFounded(rules);
      if symbol < BASE {
        return true, out0 + [symbol];
      }
      if symbol - BASE >= |rules| {
        return false, out0;
      }
      var rule := rules[symbol - BASE];
      RuleExpands(rules, symbol);
      ok, out := ExpandInto(rule.left, out0);
      ok, out := ExpandInto(rule.right, out);
    }

    method Decode(trail: seq<SymbolId>) returns (r: Result<seq<Byte>>)
      requires Ordered(rules)
      ensures WellFounded(RulePairs(rules))
      ensures r == Decoded(RulePairs(rules), trail)
    {
      OrderedIsWellFounded(rules);
      var out := [];
      for i := 0 to |trail|
        invariant Known(RulePairs(rules), trail[..i])
        invariant out == ExpandAll(RulePairs(rules), trail[..i])
      {
        var ok;
        ok, out := ExpandInto(trail[i], out);
        if !ok {
          return Err("invalid relation symbol");
        }
        assert trail[..i + 1] == trail[..i] + [trail[i]];
        KnownCons(RulePairs(rules), trail[i], []);
        assert [trail[i]] + [] == [trail[i]];
        ExpandAllConcat(RulePairs(rules), trail[..i], [trail[i]]);
      }
      assert trail[..|trail|] == trail;
      r := Ok(out);
    }

    /** Accepts exactly the append-only layout; a rejected table changes nothing. */
    method LoadRules(table: Rules) returns (ok: bool)
      modifies this
      ensures ok <==> Ordered(table)
      ensures rules == if ok then table else old(rules)
    {
      for i := 0 to |table|
        invariant Ordered(table[..i]) && rules == old(rules)
      {
        var r := table[i];
        if r.id != BASE + i || r.left >= r.id || r.right >= r.id {
          return false;
        }
        assert table[..i + 1] == table[..i] + [r];
      }
      assert table[..|table|] == table;
      rules := table;
      ok := true;
    }
  }

  lemma RuleExpands(rules: Rules, s: SymbolId)
    requires Ordered(rules) && BASE <= s < BASE + |rules|
    ensures WellFounded(RulePairs(rules)) && rules[s - BASE].left < s && rules[s - BASE].right < s
    ensures Expand(RulePairs(rules), s)
         == Expand(RulePairs(rules), rules[s - BASE].left) + Expand(RulePairs(rules), rules[s - BASE].right)
  {
    OrderedIsWellFounded(rules);
    var pairs := RulePairs(rules);
    assert pairs[s - BASE] == (rules[s - BASE].left, rules[s - BASE].right);
  }

  lemma BytesAreNormal(corpus: seq<seq<Byte>>)
    ensures AllKnown([], SymbolCorpus(corpus)) && AllNormal([], SymbolCorpus(corpus))
  {
    forall k | 0 <= k < |corpus|
      ensures Known(RulePairs([]), SymbolCorpus(corpus)[k])
    {
      ExpandBytes(RulePairs([]), corpus[k]);
    }
  }

  lemma OnlineKeeps(rules: Rules, data: seq<Byte>, max: nat, params: Params)
    requires Ordered(rules)
    ensures var after := Learned(rules, [Applied(rules, BytesAsSymbols(data))], max, params).0;
            && Ordered(after) && rules <= after
            && (Distinct(RulePairs(rules)) ==> Distinct(RulePairs(after)))
  {
    var trail := Applied(rules, BytesAsSymbols(data));
    AdaptiveRoundTrip(rules, data);
    AppliedIsNormal(rules, BytesAsSymbols(data));
    LearnedOrdered(rules, [trail], max, params);
    if Distinct(RulePairs(rules)) {
      LearnedDistinct(rules, [trail], max, params);
    }
  }

  // ---------- every learning history ----------

  datatype Step =
    | Online(data: seq<Byte>, max: nat, params: Params)
    | Consolidation(trails: seq<seq<SymbolId>>, max: nat, params: Params)

  ghost function After(rules: Rules, step: Step): Rules {
    match step
    case Online(data, max, params) => Learned(rules, [Applied(rules, BytesAsSymbols(data))], max, params).0
    case Consolidation(trails, max, params) => Learned(rules, trails, max, params).0
  }

  /** Consolidation uses trails of symbols known at that time. */
  ghost predicate Admissible(rules: Rules, steps: seq<Step>)
    decreases |steps|
  {
    steps == [] || (
      && (steps[0].Consolidation? ==> AllKnown(rules, steps[0].trails))
      && Admissible(After(rules, steps[0]), steps[1..]))
  }

  ghost function AfterAll(rules: Rules, steps: seq<Step>): Rules
    decreases |steps|
  {
    if steps == [] then rules else AfterAll(After(rules, steps[0]), steps[1..])
  }

  lemma StepAppends(rules: Rules, step: Step)
    requires Ordered(rules) && (step.Consolidation? ==> AllKnown(rules, step.trails))
    ensures Ordered(After(rules, step)) && rules <= After(rules, step)
  {
    match step
    case Online(data, max, params) => OnlineKeeps(rules, data, max, params);
    case Consolidation(trails, max, params) => LearnedOrdered(rules, trails, max, params);
  }

  /**
    Whatever is learned later, the table stays loadable, old rules keep their ids, and every trail that was
    valid decodes to the same bytes.
  */
  lemma {:induction false} OldTrailsSurvive(rules: Rules, steps: seq<Step>, trail: seq<SymbolId>)
    requires Ordered(rules) && Admissible(rules, steps) && Known(RulePairs(rules), trail)
    ensures WellFounded(RulePairs(rules)) && WellFounded(RulePairs(AfterAll(rules, steps)))
    ensures Ordered(AfterAll(rules, steps)) && rules <= AfterAll(rules, steps)
    ensures Decoded(RulePairs(AfterAll(rules, steps)), trail) == Decoded(RulePairs(rules), trail)
    decreases |steps|
  {
    OrderedIsWellFounded(rules);
    if steps != [] {
      var next := After(rules, steps[0]);
      StepAppends(rules, steps[0]);
      OrderedIsWellFounded(next);
      PrefixPairs(rules, next);
      ExpandAllStable(RulePairs(rules), RulePairs(next), trail);
      OldTrailsSurvive(next, steps[1..], trail);
    }
  }

  lemma PrefixPairs(rules: Rules, longer: Rules)
    requires rules <= longer
    ensures RulePairs(rules) <= RulePairs(longer)
  {}

  /** Encoding reaches a normal form of the table, losslessly, and applying the rules again changes nothing. */
  lemma EncodeNormalForm(rules: Rules, data: seq<Byte>)
    requires Ordered(rules)
    ensures WellFounded(RulePairs(rules))
    ensures Decoded(RulePairs(rules), Applied(rules, BytesAsSymbols(data))) == Ok(data)
    ensures NormalForm(rules, Applied(rules, BytesAsSymbols(data)))
    ensures Applied(rules, Applied(rules, BytesAsSymbols(data))) == Applied(rules, BytesAsSymbols(data))
  {
    AdaptiveRoundTrip(rules, data);
    AppliedIsNormal(rules, BytesAsSymbols(data));
    NormalIsStable(rules, Applied(rules, BytesAsSymbols(data)));
  }

  /**
    Knowing the symbols of the trails is necessary: with any symbol that is not known yet, some consolidation
    produces a rule that does not refer to earlier symbols only.
  */
  lemma UnknownSymbolsBreakOrder(rules: Rules, s: SymbolId)
    requires Ordered(rules) && s >= BASE + |rules|
    ensures var after := Learned(rules, [[s, s]], 1, Params(1, 1.0, 0.0)).0;
            after == rules + [AdaptiveRule(BASE + |rules|, s, s, 1)] && !Ordered(after)
  {
    var corpus: Corpus, params, p: Pair := [[s, s]], Params(1, 1.0, 0.0), (s, s);
    OnePair(s);
    forall q: Pair
      ensures PairTotal(corpus, q) == if q == p then 1 else 0
    {
      OnePairTotal(s, q);
    }
    assert Promotable(corpus, params, p);
    assert IsBest(corpus, params, p);
    BestUnique(corpus, params, p, Best(corpus, params).value);
    var after: Rules := rules + [AdaptiveRule(BASE + |rules|, s, s, 1)];
    assert after[|rules|].left >= after[|rules|].id;
    assert Learned(rules, corpus, 1, params) == Learned(after, ReplacedAll(corpus, p, BASE + |rules|), 0, params);
  }

  /** The counts of a corpus that is one pair of the same symbol. */
  lemma OnePair(s: SymbolId)
    ensures var corpus: Corpus := [[s, s]];
            LeftTotal(corpus, s) == 1 && RightTotal(corpus, s) == 1 && PositionTotal(corpus) == 1
  {
    var corpus: Corpus, t: seq<SymbolId> := [[s, s]], [s, s];
    assert corpus[0] == t && corpus[1..] == [] && t[1..] == [s];
    assert LeftsIn(t, s) == 1 + LeftsIn(t[1..], s);
    assert RightsIn(t, s) == 1 + RightsIn(t[1..], s);
  }

  lemma OnePairTotal(s: SymbolId, q: Pair)
    ensures var corpus: Corpus := [[s, s]]; PairTotal(corpus, q) == if q == (s, s) then 1 else 0
  {
    var corpus: Corpus, t: seq<SymbolId> := [[s, s]], [s, s];
    assert corpus[0] == t && corpus[1..] == [] && t[1..] == [s];
    assert PairsIn(t[1..], q) == 0 && PairTotal(corpus[1..], q) == 0;
    assert q == (s, s) <==> q.0 == s && q.1 == s;
  }
}
