/**
  The bounded fingerprint: the same observations, hashed into fixed vectors of 64-bit counters.
*/
module BoundedFingerprint {
  import opened Words
  import opened Common
  import opened StructuralStream
  import opened Similarity
  import opened Observations
  import opened Buckets
  import opened StructuralFingerprint

  datatype Bounded = Bounded(
    totalBytes: Word, eventCount: nat, config: BoundedConfig, frequency: seq<nat>, regional: seq<nat>,
    transitions: seq<nat>)

  /** `n` counters after the hits. */
  ghost function Tally(n: nat, hits: seq<nat>): (v: seq<nat>)
    ensures |v| == n
  {
    if hits == [] then seq(n, i => 0)
    else
      var v, b := Tally(n, hits[..|hits| - 1]), hits[|hits| - 1];
      if b < n then Bump(v, b) else v
  }

  /** A vector that tallies the buckets hit by the keys. */
  ghost predicate Channel<K>(v: seq<nat>, n: nat, bucket: K -> nat, keys: seq<K>) {
    v == Tally(n, Hashed(bucket, keys))
  }

  lemma ChannelHit<K>(v: seq<nat>, n: nat, bucket: K -> nat, keys: seq<K>, k: K, b: nat)
    requires Channel(v, n, bucket, keys) && b == bucket(k) && b < n
    ensures Channel(Bump(v, b), n, bucket, keys + [k])
  {
    HashedPush(bucket, keys, k);
    TallyPush(n, Hashed(bucket, keys), b);
  }

  lemma TallyPush(n: nat, hits: seq<nat>, b: nat)
    requires b < n
    ensures Tally(n, hits + [b]) == Bump(Tally(n, hits), b)
  {
    assert (hits + [b])[..|hits|] == hits;
  }

  lemma {:induction false} TallyCounts(n: nat, hits: seq<nat>)
    requires forall i :: 0 <= i < |hits| ==> hits[i] < n
    ensures Tallies(Tally(n, hits), multiset(hits))
  {
    if hits != [] {
      var front, b := hits[..|hits| - 1], hits[|hits| - 1];
      TallyCounts(n, front);
      assert hits == front + [b];
    }
  }

  lemma ChannelTallies<K(!new)>(v: seq<nat>, n: nat, bucket: K -> nat, keys: seq<K>)
    requires Channel(v, n, bucket, keys) && forall k :: bucket(k) < n
    ensures Tallies(v, multiset(Hashed(bucket, keys)))
  {
    forall i | 0 <= i < |keys|
      ensures Hashed(bucket, keys)[i] < n
    {
      HashedBelow(n, bucket, keys, i);
    }
    TallyCounts(n, Hashed(bucket, keys));
  }

  /** The keys that share bucket `b`. */
  ghost function Sharing<K>(bucket: K -> nat, keys: seq<K>, b: nat): seq<K> {
    if keys == [] then []
    else
      Sharing(bucket, keys[..|keys| - 1], b)
      + if bucket(keys[|keys| - 1]) == b then [keys[|keys| - 1]] else []
  }

  lemma {:induction false} SharingCounts<K(!new)>(bucket: K -> nat, keys: seq<K>, b: nat)
    ensures forall k :: multiset(Sharing(bucket, keys, b))[k] == if bucket(k) == b then multiset(keys)[k] else 0
  {
    if keys != [] {
      var front := keys[..|keys| - 1];
      assert keys == front + [keys[|keys| - 1]];
      SharingCounts(bucket, front, b);
    }
  }

  lemma {:induction false} TallyIsSharing<K>(n: nat, bucket: K -> nat, keys: seq<K>, b: nat)
    requires b < n
    ensures Tally(n, Hashed(bucket, keys))[b] == |Sharing(bucket, keys, b)|
  {
    if keys != [] {
      var front, k := keys[..|keys| - 1], keys[|keys| - 1];
      TallyIsSharing(n, bucket, front, b);
      assert keys == front + [k];
      HashedPush(bucket, front, k);
      if bucket(k) < n {
        TallyPush(n, Hashed(bucket, front), bucket(k));
      } else {
        var hits := Hashed(bucket, keys);
        assert hits[..|hits| - 1] == Hashed(bucket, front);
      }
    }
  }

  /** A bounded counter is the sum of the exact counts of the keys that share its bucket. */
  lemma BucketIsSum<K(!new)>(n: nat, bucket: K -> nat, keys: seq<K>, b: nat)
    requires b < n
    ensures Tally(n, Hashed(bucket, keys))[b] == |multiset(Sharing(bucket, keys, b))|
    ensures forall k :: multiset(Sharing(bucket, keys, b))[k] == if bucket(k) == b then multiset(keys)[k] else 0
  {
    TallyIsSharing(n, bucket, keys, b);
    SharingCounts(bucket, keys, b);
  }

  /** One channel for every region, side by side. */
  ghost predicate RegionChannels(v: seq<nat>, regions: nat, n: nat, bucket: SymbolId -> nat, items: seq<Item>) {
    && |v| == Base(regions, n)
    && forall r :: 0 <= r < regions ==> Channel(Slot(v, r, n), n, bucket, InRegion(items, r))
  }

  lemma RegionHit(v: seq<nat>, regions: nat, n: nat, bucket: SymbolId -> nat, items: seq<Item>, item: Item, b: nat)
    requires RegionChannels(v, regions, n, bucket, items)
    requires item.region < regions && b == bucket(item.id) && b < n
    ensures Base(item.region, n) + b < |v|
    ensures RegionChannels(Bump(v, Base(item.region, n) + b), regions, n, bucket, items + [item])
  {
    SlotInside(item.region, regions, n);
    var w := Bump(v, Base(item.region, n) + b);
    forall q | 0 <= q < regions
      ensures Channel(Slot(w, q, n), n, bucket, InRegion(items + [item], q))
    {
      if q == item.region {
        SlotHit(v, n, bucket, items, item, b);
      } else {
        OtherSlotHit(v, n, bucket, items, item, b, q);
      }
    }
  }

  lemma SlotHit(v: seq<nat>, n: nat, bucket: SymbolId -> nat, items: seq<Item>, item: Item, b: nat)
    requires Base(item.region, n) + n <= |v| && b == bucket(item.id) && b < n
    requires Channel(Slot(v, item.region, n), n, bucket, InRegion(items, item.region))
    ensures Channel(Slot(Bump(v, Base(item.region, n) + b), item.region, n), n, bucket,
                    InRegion(items + [item], item.region))
  {
    OneMoreInRegion(items, item, item.region);
    SlotBumped(v, item.region, n, b);
    ChannelHit(Slot(v, item.region, n), n, bucket, InRegion(items, item.region), item.id, b);
  }

  lemma OtherSlotHit(v: seq<nat>, n: nat, bucket: SymbolId -> nat, items: seq<Item>, item: Item, b: nat, q: nat)
    requires Base(item.region, n) + n <= |v| && b < n && q != item.region
    requires Channel(Slot(v, q, n), n, bucket, InRegion(items, q))
    ensures Channel(Slot(Bump(v, Base(item.region, n) + b), q, n), n, bucket, InRegion(items + [item], q))
  {
    OneMoreInRegion(items, item, q);
    OtherSlotBumped(v, item.region, n, b, q);
  }

  /** The three channels: all ids, the ids of each region, the transitions. */
  ghost predicate BoundedDescribes(f: Bounded, items: seq<Item>) {
    && GoodDimensions(f.config)
    && Channel(f.frequency, f.config.frequencyBuckets, FrequencyBucket(f.config), Ids(items))
    && RegionChannels(f.regional, f.config.regions, f.config.frequencyBuckets, FrequencyBucket(f.config), items)
    && Channel(f.transitions, f.config.transitionBuckets, TransitionBucket(f.config), Transitions(items))
  }

  /** One hit in each channel. */
  lemma BoundedHit(f: Bounded, items: seq<Item>, item: Item, b: nat, g: Bounded)
    requires BoundedDescribes(f, items) && item.region < f.config.regions && Same(f, g)
    requires b == FrequencyBucket(f.config)(item.id) && b < f.config.frequencyBuckets
    requires g.frequency == Bump(f.frequency, b)
    requires RegionChannels(g.regional, f.config.regions, f.config.frequencyBuckets, FrequencyBucket(f.config),
                            items + [item])
    requires Channel(g.transitions, f.config.transitionBuckets, TransitionBucket(f.config),
                     Transitions(items + [item]))
    ensures BoundedDescribes(g, items + [item])
  {
    OneMoreItem(items, item);
    ChannelHit(f.frequency, f.config.frequencyBuckets, FrequencyBucket(f.config), Ids(items), item.id, b);
  }

  /** Accumulates events one by one. */
  class Accumulator {
    var fingerprint: Bounded
    var previous: Option<SymbolId>
    ghost var items: seq<Item>

    ghost predicate Valid()
      reads this
    {
      BoundedDescribes(fingerprint, items) && previous == LastId(items)
    }

    constructor (total: Word, config: BoundedConfig)
      requires GoodDimensions(config)
      ensures Valid() && items == [] && fingerprint.totalBytes == total && fingerprint.config == config
      ensures fingerprint.eventCount == 0
    {
      fingerprint := Bounded(total, 0, config, seq(config.frequencyBuckets, i => 0),
                             seq(Base(config.regions, config.frequencyBuckets), i => 0),
                             seq(config.transitionBuckets, i => 0));
      previous := None;
      items := [];
      new;
      FreshDescribes(fingerprint);
    }

    /** The dimensions must not be zero. */
    static method Create(total: Word, config: BoundedConfig) returns (r: Result<Accumulator>)
      ensures r.Ok? <==> GoodDimensions(config)
      ensures r.Ok? ==> var a := r.value;
              && fresh(a) && a.Valid() && a.items == [] && a.fingerprint.totalBytes == total
              && a.fingerprint.config == config && a.fingerprint.eventCount == 0
    {
      if config.frequencyBuckets == 0 || config.transitionBuckets == 0 || config.regions == 0 {
        return Err("bounded fingerprint dimensions must be non-zero");
      }
      var a := new Accumulator(total, config);
      r := Ok(a);
    }

    method Observe(e: StructuralEvent)
      requires Valid()
      modifies this
      ensures Valid()
      ensures fingerprint.totalBytes == old(fingerprint.totalBytes) && fingerprint.config == old(fingerprint.config)
      ensures fingerprint.eventCount == old(fingerprint.eventCount) + 1
      ensures items == old(items)
        + EventItems(BoundedRegion(e.byteOffset, fingerprint.totalBytes, fingerprint.config.regions), e.relationIds)
    {
      fingerprint := fingerprint.(eventCount := fingerprint.eventCount + 1);
      var r := BoundedRegion(e.byteOffset, fingerprint.totalBytes, fingerprint.config.regions);
      ghost var before, start := items, fingerprint;
      PartNone(items, r, e.relationIds);
      for j := 0 to |e.relationIds|
        invariant Valid() && items == Part(before, r, e.relationIds, j)
        invariant Same(fingerprint, start)
      {
        PartNext(before, r, e.relationIds, j);
        ObserveId(r, e.relationIds[j]);
      }
      PartAll(before, r, e.relationIds);
    }

    method ObserveId(r: nat, id: SymbolId)
      requires Valid() && r < fingerprint.config.regions
      modifies this
      ensures Valid() && items == old(items) + [Item(r, id)]
      ensures Same(fingerprint, old(fingerprint))
    {
      var c, f := fingerprint.config, fingerprint;
      var b := FrequencyBucket(c)(id);
      SlotInside(r, c.regions, c.frequencyBuckets);
      var slot := Base(r, c.frequencyBuckets) + b;
      RegionHit(f.regional, c.regions, c.frequencyBuckets, FrequencyBucket(c), items, Item(r, id), b);
      var g := f.(frequency := Bump(f.frequency, b), regional := Bump(f.regional, slot),
                  transitions := WithTransition(f.transitions, TransitionBucket(c), previous, id));
      TransitionCounted(f.transitions, c.transitionBuckets, TransitionBucket(c), items, Item(r, id));
      BoundedHit(f, items, Item(r, id), b, g);
      OneMoreItem(items, Item(r, id));
      fingerprint := g;
      previous := Some(id);
      items := items + [Item(r, id)];
    }
  }

  ghost predicate Same(f: Bounded, g: Bounded) {
    f.totalBytes == g.totalBytes && f.eventCount == g.eventCount && f.config == g.config
  }

  function WithTransition(v: seq<nat>, bucket: Transition -> nat, previous: Option<SymbolId>, id: SymbolId): seq<nat>
    requires forall t :: bucket(t) < |v|
  {
    if previous.None? then v
    else
      Bump(v, bucket((previous.value, id)))
  }

  lemma TransitionCounted(v: seq<nat>, n: nat, bucket: Transition -> nat, items: seq<Item>, item: Item)
    requires Channel(v, n, bucket, Transitions(items)) && forall t :: bucket(t) < n
    ensures Channel(WithTransition(v, bucket, LastId(items), item.id), n, bucket, Transitions(items + [item]))
  {
    OneMoreItem(items, item);
    if items == [] {
      assert Transitions(items + [item]) == Transitions(items);
    } else {
      var t := (LastId(items).value, item.id);
      ChannelHit(v, n, bucket, Transitions(items), t, bucket(t));
    }
  }

  lemma FreshDescribes(f: Bounded)
    requires GoodDimensions(f.config)
    requires |f.frequency| == f.config.frequencyBuckets && |f.transitions| == f.config.transitionBuckets
    requires |f.regional| == Base(f.config.regions, f.config.frequencyBuckets)
    requires forall i :: 0 <= i < |f.frequency| ==> f.frequency[i] == 0
    requires forall i :: 0 <= i < |f.regional| ==> f.regional[i] == 0
    requires forall i :: 0 <= i < |f.transitions| ==> f.transitions[i] == 0
    ensures BoundedDescribes(f, [])
  {
    var n := f.config.frequencyBuckets;
    forall r | 0 <= r < f.config.regions
      ensures Channel(Slot(f.regional, r, n), n, FrequencyBucket(f.config), InRegion([], r))
    {
      SlotInside(r, f.config.regions, n);
    }
  }

  method MakeBoundedFingerprint(events: seq<StructuralEvent>, total: Word, config: BoundedConfig)
      returns (r: Result<Bounded>)
    ensures r.Ok? <==> GoodDimensions(config)
    ensures r.Ok? ==>
      && r.value.totalBytes == total && r.value.config == config && r.value.eventCount == |events|
      && BoundedDescribes(r.value, BoundedItems(events, total, config.regions))
  {
    var accumulator :- Accumulator.Create(total, config);
    for i := 0 to |events|
      invariant fresh(accumulator) && accumulator.Valid()
      invariant accumulator.items == BoundedItems(events[..i], total, config.regions)
      invariant accumulator.fingerprint.totalBytes == total && accumulator.fingerprint.config == config
      invariant accumulator.fingerprint.eventCount == i
    {
      OneMoreEvent(BoundedRegionOf(total, config.regions), events, i);
      accumulator.Observe(events[i]);
    }
    assert events[..|events|] == events;
    r := Ok(accumulator.fingerprint);
  }

  function BoundedItems(events: seq<StructuralEvent>, total: Word, regions: Word): seq<Item>
    requires regions > 0
  {
    Items(BoundedRegionOf(total, regions), events)
  }

  // ---------- comparing ----------

  /** The score of the hashed ids of region `r`. */
  ghost function HashedScore(bucket: SymbolId -> nat, r: nat, a: seq<Item>, b: seq<Item>): real {
    Jaccard(multiset(Hashed(bucket, InRegion(a, r))), multiset(Hashed(bucket, InRegion(b, r))))
  }

  ghost function HashedRegions(bucket: SymbolId -> nat, a: seq<Item>, b: seq<Item>): nat -> real {
    (r: nat) => HashedScore(bucket, r, a, b)
  }

  ghost function HashedSum(bucket: SymbolId -> nat, n: nat, a: seq<Item>, b: seq<Item>): real {
    ScoreSum(HashedRegions(bucket, a, b), n)
  }

  ghost function HashedScores(id: SymbolId -> nat, transition: Transition -> nat, regions: nat, a: seq<Item>,
                              b: seq<Item>): Scores
    requires regions > 0
  {
    Weighted(Jaccard(multiset(Hashed(id, Ids(a))), multiset(Hashed(id, Ids(b)))),
             HashedSum(id, regions, a, b) / regions as real,
             Jaccard(multiset(Hashed(transition, Transitions(a))), multiset(Hashed(transition, Transitions(b)))))
  }

  /** The scores of the hashed observations. */
  ghost function BoundedScores(c: BoundedConfig, a: seq<Item>, b: seq<Item>): Scores
    requires GoodDimensions(c)
  {
    HashedScores(FrequencyBucket(c), TransitionBucket(c), c.regions, a, b)
  }

  method CompareBoundedFingerprints(a: Bounded, b: Bounded, ghost x: seq<Item>, ghost y: seq<Item>)
      returns (s: Scores)
    requires BoundedDescribes(a, x) && BoundedDescribes(b, y) && a.config.hashing == b.config.hashing
    ensures s == if a.config == b.config then BoundedScores(a.config, x, y) else Scores(0.0, 0.0, 0.0, 0.0)
  {
    if a.config.frequencyBuckets != b.config.frequencyBuckets
       || a.config.transitionBuckets != b.config.transitionBuckets
       || a.config.regions != b.config.regions || a.config.seed != b.config.seed {
      return Scores(0.0, 0.0, 0.0, 0.0);
    }
    var c := a.config;
    ghost var id, transition := FrequencyBucket(c), TransitionBucket(c);
    ChannelTallies(a.frequency, c.frequencyBuckets, id, Ids(x));
    ChannelTallies(b.frequency, c.frequencyBuckets, id, Ids(y));
    ChannelTallies(a.transitions, c.transitionBuckets, transition, Transitions(x));
    ChannelTallies(b.transitions, c.transitionBuckets, transition, Transitions(y));
    var frequency := WeightedJaccardVectors(a.frequency, b.frequency,
                                            multiset(Hashed(id, Ids(x))), multiset(Hashed(id, Ids(y))));
    var transitions := WeightedJaccardVectors(a.transitions, b.transitions,
      multiset(Hashed(transition, Transitions(x))), multiset(Hashed(transition, Transitions(y))));
    var sum := SumSlots(a.regional, b.regional, c.regions, c.frequencyBuckets, id, x, y);
    s := Weighted(frequency, sum / c.regions as real, transitions);
  }

  method SumSlots(v: seq<nat>, w: seq<nat>, regions: nat, n: nat, ghost bucket: SymbolId -> nat, ghost x: seq<Item>,
                  ghost y: seq<Item>) returns (sum: real)
    requires RegionChannels(v, regions, n, bucket, x) && RegionChannels(w, regions, n, bucket, y)
    requires forall id :: bucket(id) < n
    ensures sum == HashedSum(bucket, regions, x, y)
  {
    sum := 0.0;
    ghost var scores := HashedRegions(bucket, x, y);
    for r := 0 to regions
      invariant sum == ScoreSum(scores, r)
    {
      var score := SlotScore(Slot(v, r, n), Slot(w, r, n), n, bucket, InRegion(x, r), InRegion(y, r));
      RegionIsSlot(bucket, r, x, y, score);
      sum := sum + score;
    }
  }

  lemma RegionIsSlot(bucket: SymbolId -> nat, r: nat, x: seq<Item>, y: seq<Item>, score: real)
    requires score == Jaccard(multiset(Hashed(bucket, InRegion(x, r))), multiset(Hashed(bucket, InRegion(y, r))))
    ensures HashedRegions(bucket, x, y)(r) == score
  {}

  method SlotScore(v: seq<nat>, w: seq<nat>, n: nat, ghost bucket: SymbolId -> nat, ghost x: seq<SymbolId>,
                   ghost y: seq<SymbolId>) returns (score: real)
    requires Channel(v, n, bucket, x) && Channel(w, n, bucket, y) && forall id :: bucket(id) < n
    ensures score == Jaccard(multiset(Hashed(bucket, x)), multiset(Hashed(bucket, y)))
  {
    ChannelTallies(v, n, bucket, x);
    ChannelTallies(w, n, bucket, y);
    score := WeightedJaccardVectors(v, w, multiset(Hashed(bucket, x)), multiset(Hashed(bucket, y)));
  }

  // ---------- collisions can only raise the scores ----------

  /** Every score of `s` is at least the one of `t`. */
  ghost predicate AtLeast(s: Scores, t: Scores) {
    && s.frequency >= t.frequency && s.regional >= t.regional && s.transitions >= t.transitions
    && s.combined >= t.combined
  }

  lemma HashedSumGrows(bucket: SymbolId -> nat, n: nat, a: seq<Item>, b: seq<Item>)
    ensures HashedSum(bucket, n, a, b) >= RegionalSum(n, a, b)
  {
    forall r: nat
      ensures RegionScores(a, b)(r) <= HashedRegions(bucket, a, b)(r)
    {
      CollisionsRaise(bucket, InRegion(a, r), InRegion(b, r));
    }
    ScoreSumGrows(RegionScores(a, b), HashedRegions(bucket, a, b), n);
  }

  lemma DivideMonotone(x: real, y: real, n: real)
    requires x <= y && n > 0.0
    ensures x / n <= y / n
  {
    assert (y - x) / n >= 0.0;
  }

  /** Whatever the hash functions are. */
  lemma HashingRaises(id: SymbolId -> nat, transition: Transition -> nat, regions: nat, a: seq<Item>, b: seq<Item>)
    requires regions > 0
    ensures AtLeast(HashedScores(id, transition, regions, a, b), ExactScores(regions, a, b))
  {
    CollisionsRaise(id, Ids(a), Ids(b));
    CollisionsRaise(transition, Transitions(a), Transitions(b));
    HashedSumGrows(id, regions, a, b);
    DivideMonotone(RegionalSum(regions, a, b), HashedSum(id, regions, a, b), regions as real);
  }

  // ---------- for which events ----------

  /** Every event lies inside the input, or its offset times the regions fits 64 bits. */
  ghost predicate Placeable(events: seq<StructuralEvent>, total: Word, regions: Word) {
    total == 0
    || forall i :: 0 <= i < |events| ==> events[i].byteOffset < total || events[i].byteOffset * regions < WORD
  }

  /** Then both fingerprints place every id in the same region. */
  lemma SameItems(events: seq<StructuralEvent>, total: Word, regions: Word)
    requires regions > 0 && Placeable(events, total, regions)
    ensures BoundedItems(events, total, regions) == ExactItems(events, total, regions)
  {
    forall i | 0 <= i < |events|
      ensures BoundedRegionOf(total, regions)(events[i].byteOffset)
           == ExactRegionOf(total, regions)(events[i].byteOffset)
    {
      SameRegion(events[i].byteOffset, total, regions);
    }
    SameRegionsSameItems(BoundedRegionOf(total, regions), ExactRegionOf(total, regions), events);
  }

  lemma SameRegion(offset: nat, total: Word, regions: Word)
    requires regions > 0 && (total == 0 || offset < total || offset * regions < WORD)
    ensures BoundedRegion(offset, total, regions) == ExactRegion(offset, total, regions)
  {
    if total == 0 || offset < total {
      RegionsAgree(offset, total, regions);
    } else {
      BothProportional(offset, total, regions);
    }
  }

  /** The bounded scores of two runs of events are each at least the exact ones. */
  ghost predicate Raised(c: BoundedConfig, a: seq<StructuralEvent>, totalA: Word, b: seq<StructuralEvent>, totalB: Word)
    requires GoodDimensions(c)
  {
    AtLeast(BoundedScores(c, BoundedItems(a, totalA, c.regions), BoundedItems(b, totalB, c.regions)),
            ExactScores(c.regions, ExactItems(a, totalA, c.regions), ExactItems(b, totalB, c.regions)))
  }

  /**
    For the same events and equal configurations, the bounded frequency, regional, transition and combined
    scores are each at least the exact ones.
  */
  lemma BoundedAtLeastExact(c: BoundedConfig, a: seq<StructuralEvent>, totalA: Word, b: seq<StructuralEvent>,
                            totalB: Word)
    requires GoodDimensions(c) && Placeable(a, totalA, c.regions) && Placeable(b, totalB, c.regions)
    ensures Raised(c, a, totalA, b, totalB)
  {
    SameItems(a, totalA, c.regions);
    SameItems(b, totalB, c.regions);
    HashingRaises(FrequencyBucket(c), TransitionBucket(c), c.regions,
                  ExactItems(a, totalA, c.regions), ExactItems(b, totalB, c.regions));
  }

  // ---------- an event that the two formulas place differently ----------

  /** An event with one relation id. */
  function OneId(offset: nat, id: SymbolId): StructuralEvent {
    StructuralEvent("", 0, offset, 0, [], [id], 0, 1)
  }

  lemma OneIdItems(region: nat -> nat, offset: nat, id: SymbolId)
    ensures Items(region, [OneId(offset, id)]) == [Item(region(offset), id)]
  {
    var e := OneId(offset, id);
    assert [e][..0] == [] && [id][..0] == [];
    assert EventItems(region(offset), [id]) == [] + [Item(region(offset), id)];
    assert Items(region, [e]) == [] + EventItems(region(offset), [id]);
  }

  lemma SelfSum(n: nat, a: seq<Item>)
    ensures RegionalSum(n, a, a) == n as real
  {
    forall r: nat
      ensures RegionScores(a, a)(r) == 1.0
    {
      JaccardRange(multiset(InRegion(a, r)), multiset(InRegion(a, r)));
    }
    FullSum(RegionScores(a, a), n);
  }

  lemma AtMostOne(bucket: SymbolId -> nat, a: seq<Item>, b: seq<Item>)
    ensures forall r :: HashedRegions(bucket, a, b)(r) <= 1.0
  {
    forall r: nat
      ensures HashedScore(bucket, r, a, b) <= 1.0
    {
      JaccardRange(multiset(Hashed(bucket, InRegion(a, r))), multiset(Hashed(bucket, InRegion(b, r))));
    }
  }

  /** One id in two different regions: the region of the second one scores nothing. */
  lemma ApartRegion(bucket: SymbolId -> nat, x: Item, y: Item)
    requires x.region != y.region
    ensures HashedScore(bucket, y.region, [x], [y]) == 0.0
  {
    OneInRegion(x, y.region);
    OneInRegion(y, y.region);
    NoCommonKey(multiset(Hashed(bucket, [])), multiset(Hashed(bucket, [y.id])));
  }

  lemma NoCommonKey(a: multiset<nat>, b: multiset<nat>)
    requires |a| == 0 && |b| == 1
    ensures Jaccard(a, b) == 0.0
  {
    CommonIsSmaller(a, b);
  }

  lemma OneInRegion(x: Item, r: nat)
    ensures InRegion([x], r) == if x.region == r then [x.id] else []
  {
    assert [x] == [] + [x];
    OneMoreInRegion([], x, r);
  }

  lemma QuotientBelowOne(x: real, n: real)
    requires n > 0.0 && x <= n - 1.0
    ensures x / n < 1.0
  {
    assert (n - x) / n > 0.0;
  }

  lemma ApartScores(c: BoundedConfig, f: nat, e: nat, id: SymbolId)
    requires GoodDimensions(c) && f != e && e < c.regions
    ensures BoundedScores(c, [Item(f, id)], [Item(e, id)]).regional < 1.0
  {
    var bucket := FrequencyBucket(c);
    ApartRegion(bucket, Item(f, id), Item(e, id));
    AtMostOne(bucket, [Item(f, id)], [Item(e, id)]);
    ShortSum(HashedRegions(bucket, [Item(f, id)], [Item(e, id)]), c.regions, e);
    QuotientBelowOne(HashedSum(bucket, c.regions, [Item(f, id)], [Item(e, id)]), c.regions as real);
  }

  lemma SelfScores(n: nat, a: seq<Item>)
    requires n > 0
    ensures ExactScores(n, a, a).regional == 1.0
  {
    SelfSum(n, a);
  }

  /** In an input of as many bytes as regions, byte `e` lies in region `e`. */
  lemma OwnRegion(e: nat, regions: Word)
    requires e < regions && regions * regions <= WORD
    ensures ExactRegion(e, regions, regions) == e && BoundedRegion(e, regions, regions) == e
  {
    Below(e, regions, regions);
    RegionsAgree(e, regions, regions);
    SmallDivision(e * regions, WORD);
    DivideUnique(e * regions, regions, e);
  }

  /** A misplaced event lowers the score against the event that the exact formula places in the same region. */
  lemma MisplacedLowers(c: BoundedConfig, offset: nat, total: Word, id: SymbolId)
    requires GoodDimensions(c) && c.regions * c.regions <= WORD
    requires ExactRegion(offset, total, c.regions) != BoundedRegion(offset, total, c.regions)
    ensures var e := ExactRegion(offset, total, c.regions);
            !Raised(c, [OneId(offset, id)], total, [OneId(e, id)], c.regions)
  {
    var e, f := ExactRegion(offset, total, c.regions), BoundedRegion(offset, total, c.regions);
    OwnRegion(e, c.regions);
    OneIdItems(ExactRegionOf(total, c.regions), offset, id);
    OneIdItems(BoundedRegionOf(total, c.regions), offset, id);
    OneIdItems(ExactRegionOf(c.regions, c.regions), e, id);
    OneIdItems(BoundedRegionOf(c.regions, c.regions), e, id);
    ApartScores(c, f, e, id);
    SelfScores(c.regions, [Item(e, id)]);
  }

  lemma RaisedIfPlacedAlike(c: BoundedConfig, offset: nat, total: Word, id: SymbolId, b: seq<StructuralEvent>,
                            totalB: Word)
    requires GoodDimensions(c) && Placeable(b, totalB, c.regions)
    requires ExactRegion(offset, total, c.regions) == BoundedRegion(offset, total, c.regions)
    ensures Raised(c, [OneId(offset, id)], total, b, totalB)
  {
    OneIdItems(ExactRegionOf(total, c.regions), offset, id);
    OneIdItems(BoundedRegionOf(total, c.regions), offset, id);
    SameItems(b, totalB, c.regions);
    HashingRaises(FrequencyBucket(c), TransitionBucket(c), c.regions,
                  ExactItems([OneId(offset, id)], total, c.regions), ExactItems(b, totalB, c.regions));
  }

  /** The scores of one event against every placeable run are raised. */
  ghost predicate AlwaysRaised(c: BoundedConfig, offset: nat, total: Word, id: SymbolId)
    requires GoodDimensions(c)
  {
    forall b: seq<StructuralEvent>, totalB: Word ::
      Placeable(b, totalB, c.regions) ==> Raised(c, [OneId(offset, id)], total, b, totalB)
  }

  lemma MisplacedNotRaised(c: BoundedConfig, offset: nat, total: Word, id: SymbolId)
    requires GoodDimensions(c) && c.regions * c.regions <= WORD
    requires ExactRegion(offset, total, c.regions) != BoundedRegion(offset, total, c.regions)
    ensures !AlwaysRaised(c, offset, total, id)
  {
    var e := ExactRegion(offset, total, c.regions);
    MisplacedLowers(c, offset, total, id);
    NotAlways(c, offset, total, id, [OneId(e, id)], c.regions);
  }

  lemma NotAlways(c: BoundedConfig, offset: nat, total: Word, id: SymbolId, b: seq<StructuralEvent>, totalB: Word)
    requires GoodDimensions(c) && Placeable(b, totalB, c.regions)
    requires !Raised(c, [OneId(offset, id)], total, b, totalB)
    ensures !AlwaysRaised(c, offset, total, id)
  {}

  /** For one event, whatever its offset, this is so exactly if the two region formulas agree on the offset. */
  lemma RaisedExactlyIfPlacedAlike(c: BoundedConfig, offset: nat, total: Word, id: SymbolId)
    requires GoodDimensions(c) && c.regions * c.regions <= WORD
    ensures ExactRegion(offset, total, c.regions) == BoundedRegion(offset, total, c.regions)
       <==> AlwaysRaised(c, offset, total, id)
  {
    if ExactRegion(offset, total, c.regions) == BoundedRegion(offset, total, c.regions) {
      forall b: seq<StructuralEvent>, totalB: Word | Placeable(b, totalB, c.regions)
        ensures Raised(c, [OneId(offset, id)], total, b, totalB)
      {
        RaisedIfPlacedAlike(c, offset, total, id, b, totalB);
      }
    } else {
      MisplacedNotRaised(c, offset, total, id);
    }
  }

  /** Such an event exists: byte 2^63 of an input said to have three bytes, with two regions. */
  lemma OverflowMisplaces(c: BoundedConfig, id: SymbolId)
    requires GoodDimensions(c) && c.regions == 2
    ensures ExactRegion(0x8000_0000_0000_0000, 3, 2) == 0 && BoundedRegion(0x8000_0000_0000_0000, 3, 2) == 1
    ensures !Raised(c, [OneId(0x8000_0000_0000_0000, id)], 3, [OneId(0, id)], 2)
  {
    MisplacedLowers(c, 0x8000_0000_0000_0000, 3, id);
  }
}
