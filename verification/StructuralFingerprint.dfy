/**
  The exact fingerprint of a run of events, and the similarity of two of them.
*/
module StructuralFingerprint {
  import opened Words
  import opened Common
  import opened StructuralStream
  import opened Similarity
  import opened Observations

  type Transition = (SymbolId, SymbolId)

  datatype Fingerprint = Fingerprint(
    totalBytes: Word, eventCount: nat, relationFrequency: map<SymbolId, nat>,
    regionalFrequency: seq<map<SymbolId, nat>>, transitions: map<Transition, nat>)

  datatype Scores = Scores(frequency: real, regional: real, transitions: real, combined: real)

  function Weighted(frequency: real, regional: real, transitions: real): Scores {
    Scores(frequency, regional, transitions, 0.40 * frequency + 0.35 * regional + 0.25 * transitions)
  }

  /** The three channels count exactly the ids, the ids of each region and the transitions of `items`. */
  ghost predicate Describes(f: Fingerprint, items: seq<Item>) {
    && Counts(f.relationFrequency, multiset(Ids(items)))
    && (forall r :: 0 <= r < |f.regionalFrequency| ==>
          Counts(f.regionalFrequency[r], multiset(InRegion(items, r))))
    && Counts(f.transitions, multiset(Transitions(items)))
  }

  lemma IncrementCounts<K(!new)>(m: map<K, nat>, s: seq<K>, k: K, t: seq<K>)
    requires Counts(m, multiset(s)) && t == s + [k]
    ensures Counts(Incremented(m, k), multiset(t))
  {
    assert multiset(t) == multiset(s) + multiset{k};
  }

  /** One id of an event in region `r`. */
  function Counted(f: Fingerprint, r: nat, id: SymbolId, previous: Option<SymbolId>): Fingerprint
    requires r < |f.regionalFrequency|
  {
    f.(relationFrequency := Incremented(f.relationFrequency, id),
       regionalFrequency := f.regionalFrequency[r := Incremented(f.regionalFrequency[r], id)],
       transitions := if previous.Some? then Incremented(f.transitions, (previous.value, id)) else f.transitions)
  }

  lemma CountedDescribes(f: Fingerprint, items: seq<Item>, r: nat, id: SymbolId)
    requires Describes(f, items) && r < |f.regionalFrequency|
    ensures Describes(Counted(f, r, id, LastId(items)), items + [Item(r, id)])
  {
    var more := items + [Item(r, id)];
    var g := Counted(f, r, id, LastId(items));
    OneMoreItem(items, Item(r, id));
    IncrementCounts(f.relationFrequency, Ids(items), id, Ids(more));
    if items == [] {
      assert Transitions(more) == Transitions(items);
    } else {
      IncrementCounts(f.transitions, Transitions(items), (LastId(items).value, id), Transitions(more));
    }
    forall q | 0 <= q < |g.regionalFrequency|
      ensures Counts(g.regionalFrequency[q], multiset(InRegion(more, q)))
    {
      OneMoreInRegion(items, Item(r, id), q);
      if q == r {
        IncrementCounts(f.regionalFrequency[q], InRegion(items, q), id, InRegion(more, q));
      }
    }
  }

  /** The items of a run of events, placed by the exact region form. */
  function ExactItems(events: seq<StructuralEvent>, total: Word, regions: Word): seq<Item>
    requires regions > 0
  {
    Items(ExactRegionOf(total, regions), events)
  }

  function RegionCount(regions: Word): (n: Word)
    ensures n > 0
  {
    if regions == 0 then 1 else regions
  }

  method MakeStructuralFingerprint(events: seq<StructuralEvent>, total: Word, regions: Word)
      returns (f: Fingerprint)
    ensures f.totalBytes == total && f.eventCount == |events|
    ensures |f.regionalFrequency| == RegionCount(regions)
    ensures Describes(f, ExactItems(events, total, RegionCount(regions)))
  {
    var n := RegionCount(regions);
    f := Fingerprint(total, |events|, map[], seq(n, i => map[]), map[]);
    var previous := None;
    ghost var items := [];
    for i := 0 to |events|
      invariant items == ExactItems(events[..i], total, n)
      invariant Describes(f, items) && previous == LastId(items)
      invariant f.totalBytes == total && f.eventCount == |events| && |f.regionalFrequency| == n
    {
      var e := events[i];
      var r := ExactRegion(e.byteOffset, total, n);
      OneMoreEvent(ExactRegionOf(total, n), events, i);
      f, previous := CountEvent(f, r, e.relationIds, previous, items);
      items := items + EventItems(r, e.relationIds);
    }
    assert events[..|events|] == events;
  }

  /** Counts the ids of one event. */
  method CountEvent(f0: Fingerprint, r: nat, ids: seq<SymbolId>, previous0: Option<SymbolId>, ghost items: seq<Item>)
      returns (f: Fingerprint, previous: Option<SymbolId>)
    requires Describes(f0, items) && previous0 == LastId(items) && r < |f0.regionalFrequency|
    ensures Describes(f, items + EventItems(r, ids)) && previous == LastId(items + EventItems(r, ids))
    ensures f.totalBytes == f0.totalBytes && f.eventCount == f0.eventCount
    ensures |f.regionalFrequency| == |f0.regionalFrequency|
  {
    f, previous := f0, previous0;
    PartNone(items, r, ids);
    for j := 0 to |ids|
      invariant Describes(f, Part(items, r, ids, j)) && previous == LastId(Part(items, r, ids, j))
      invariant f.totalBytes == f0.totalBytes && f.eventCount == f0.eventCount
      invariant |f.regionalFrequency| == |f0.regionalFrequency|
    {
      PartNext(items, r, ids, j);
      CountedDescribes(f, Part(items, r, ids, j), r, ids[j]);
      f := Counted(f, r, ids[j], previous);
      previous := Some(ids[j]);
    }
    PartAll(items, r, ids);
  }

  // ---------- comparing ----------

  /** The score of region `r`. */
  ghost function RegionScore(r: nat, a: seq<Item>, b: seq<Item>): real {
    Jaccard(multiset(InRegion(a, r)), multiset(InRegion(b, r)))
  }

  ghost function RegionScores(a: seq<Item>, b: seq<Item>): nat -> real {
    (r: nat) => RegionScore(r, a, b)
  }

  ghost function RegionalSum(n: nat, a: seq<Item>, b: seq<Item>): real {
    ScoreSum(RegionScores(a, b), n)
  }

  /** What the comparison means for the observed ids themselves. */
  ghost function ExactScores(n: nat, a: seq<Item>, b: seq<Item>): Scores {
    Weighted(Jaccard(multiset(Ids(a)), multiset(Ids(b))),
             if n > 0 then RegionalSum(n, a, b) / n as real else 1.0,
             Jaccard(multiset(Transitions(a)), multiset(Transitions(b))))
  }

  ghost predicate InUnit(s: Scores) {
    && 0.0 <= s.frequency <= 1.0 && 0.0 <= s.regional <= 1.0 && 0.0 <= s.transitions <= 1.0
    && 0.0 <= s.combined <= 1.0
  }

  /** The weights, in twentieths: eight of the frequency, seven of the regional and five of the transition score. */
  lemma CombinedWeights(n: nat, a: seq<Item>, b: seq<Item>)
    ensures var s := ExactScores(n, a, b);
            20.0 * s.combined == 8.0 * s.frequency + 7.0 * s.regional + 5.0 * s.transitions
  {}

  lemma MeanInUnit(sum: real, n: real)
    requires n > 0.0 && 0.0 <= sum <= n
    ensures 0.0 <= sum / n <= 1.0 && (sum / n == 1.0 <==> sum == n)
  {
    var q := sum / n;
    assert q * n == sum;
    NotPositive(q - 1.0, n);
    NotPositive(-q, n);
    if sum == n {
      NotPositive(1.0 - q, n);
    }
  }

  /** Both runs have the same ids in each of the first `n` regions. */
  ghost predicate SameRegions(n: nat, a: seq<Item>, b: seq<Item>) {
    forall r :: 0 <= r < n ==> multiset(InRegion(a, r)) == multiset(InRegion(b, r))
  }

  lemma RegionScoreRange(r: nat, a: seq<Item>, b: seq<Item>)
    ensures 0.0 <= RegionScores(a, b)(r) <= 1.0
    ensures RegionScores(a, b)(r) == 1.0 <==> multiset(InRegion(a, r)) == multiset(InRegion(b, r))
  {
    JaccardRange(multiset(InRegion(a, r)), multiset(InRegion(b, r)));
    assert RegionScores(a, b)(r) == RegionScore(r, a, b);
  }

  lemma {:induction false} SumRange(score: nat -> real, n: nat)
    requires forall r: nat :: 0.0 <= score(r) <= 1.0
    ensures 0.0 <= ScoreSum(score, n) <= n as real
    ensures ScoreSum(score, n) == n as real <==> forall r :: 0 <= r < n ==> score(r) == 1.0
  {
    if n > 0 {
      SumRange(score, n - 1);
    }
  }

  lemma RegionalRange(n: nat, a: seq<Item>, b: seq<Item>)
    ensures 0.0 <= RegionalSum(n, a, b) <= n as real
    ensures RegionalSum(n, a, b) == n as real <==> SameRegions(n, a, b)
  {
    var scores := RegionScores(a, b);
    forall r: nat
      ensures 0.0 <= scores(r) <= 1.0
      ensures scores(r) == 1.0 <==> multiset(InRegion(a, r)) == multiset(InRegion(b, r))
    {
      RegionScoreRange(r, a, b);
    }
    SumRange(scores, n);
  }

  /** All scores lie between 0 and 1, and the combined one is 1 exactly if all three channels are equal. */
  lemma ScoresRange(n: nat, a: seq<Item>, b: seq<Item>)
    requires n > 0
    ensures InUnit(ExactScores(n, a, b))
    ensures ExactScores(n, a, b).combined == 1.0 <==>
      && multiset(Ids(a)) == multiset(Ids(b)) && SameRegions(n, a, b)
      && multiset(Transitions(a)) == multiset(Transitions(b))
  {
    JaccardRange(multiset(Ids(a)), multiset(Ids(b)));
    JaccardRange(multiset(Transitions(a)), multiset(Transitions(b)));
    RegionalRange(n, a, b);
    MeanInUnit(RegionalSum(n, a, b), n as real);
    CombinedWeights(n, a, b);
  }

  /** All items lie in the first `n` regions. */
  ghost predicate Placed(items: seq<Item>, n: nat) {
    forall i :: 0 <= i < |items| ==> items[i].region < n
  }

  lemma {:induction false} BeyondIsEmpty(items: seq<Item>, n: nat, r: nat)
    requires Placed(items, n) && r >= n
    ensures InRegion(items, r) == []
  {
    if items != [] {
      BeyondIsEmpty(items[..|items| - 1], n, r);
    }
  }

  function RegionMap(f: Fingerprint, i: nat): map<SymbolId, nat> {
    if i < |f.regionalFrequency| then f.regionalFrequency[i] else map[]
  }

  lemma RegionMapCounts(f: Fingerprint, items: seq<Item>, i: nat)
    requires Describes(f, items) && Placed(items, |f.regionalFrequency|)
    ensures Counts(RegionMap(f, i), multiset(InRegion(items, i)))
  {
    if i >= |f.regionalFrequency| {
      BeyondIsEmpty(items, |f.regionalFrequency|, i);
    }
  }

  method CompareStructuralFingerprints(a: Fingerprint, b: Fingerprint, ghost x: seq<Item>, ghost y: seq<Item>)
      returns (s: Scores)
    requires Describes(a, x) && Placed(x, |a.regionalFrequency|)
    requires Describes(b, y) && Placed(y, |b.regionalFrequency|)
    ensures s == ExactScores(Max(|a.regionalFrequency|, |b.regionalFrequency|), x, y)
  {
    var frequency := WeightedJaccardMaps(a.relationFrequency, b.relationFrequency,
                                         multiset(Ids(x)), multiset(Ids(y)));
    var transitions := WeightedJaccardMaps(a.transitions, b.transitions,
                                           multiset(Transitions(x)), multiset(Transitions(y)));
    var n := Max(|a.regionalFrequency|, |b.regionalFrequency|);
    var sum := SumRegions(a, b, n, x, y);
    var regional := if n > 0 then sum / n as real else 1.0;
    s := Weighted(frequency, regional, transitions);
  }

  method SumRegions(a: Fingerprint, b: Fingerprint, n: nat, ghost x: seq<Item>, ghost y: seq<Item>)
      returns (sum: real)
    requires Describes(a, x) && Placed(x, |a.regionalFrequency|)
    requires Describes(b, y) && Placed(y, |b.regionalFrequency|)
    ensures sum == RegionalSum(n, x, y)
  {
    sum := 0.0;
    ghost var scores := RegionScores(x, y);
    for i := 0 to n
      invariant sum == ScoreSum(scores, i)
    {
      var score := ScoreRegion(a, b, i, x, y);
      assert score == scores(i);
      sum := sum + score;
    }
  }

  method ScoreRegion(a: Fingerprint, b: Fingerprint, i: nat, ghost x: seq<Item>, ghost y: seq<Item>)
      returns (score: real)
    requires Describes(a, x) && Placed(x, |a.regionalFrequency|)
    requires Describes(b, y) && Placed(y, |b.regionalFrequency|)
    ensures score == RegionScore(i, x, y)
  {
    RegionMapCounts(a, x, i);
    RegionMapCounts(b, y, i);
    score := WeightedJaccardMaps(RegionMap(a, i), RegionMap(b, i),
                                 multiset(InRegion(x, i)), multiset(InRegion(y, i)));
  }
}
