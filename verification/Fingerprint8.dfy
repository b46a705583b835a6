/**
  The bounded fingerprint with 8-bit counters: each vector halves itself when one of its counters is full.
*/
module Fingerprint8 {
  import opened Words
  import opened Common
  import opened StructuralStream
  import opened Observations
  import opened Buckets
  import opened Counters

  type Transition = (SymbolId, SymbolId)

  /** The sketch of a run of keys. */
  ghost function SketchOf<K>(n: nat, bucket: K -> nat, keys: seq<K>): Sketch {
    Run(n, Hashed(bucket, keys))
  }

  lemma SketchPush<K>(n: nat, bucket: K -> nat, keys: seq<K>, k: K)
    ensures SketchOf(n, bucket, keys + [k]) == After(SketchOf(n, bucket, keys), bucket(k))
  {
    HashedPush(bucket, keys, k);
    RunPush(n, Hashed(bucket, keys), bucket(k));
  }

  /** The counter of an item in a vector that holds a slot for every region. */
  function SlotIndex(n: nat, bucket: SymbolId -> nat, item: Item): nat {
    Base(item.region, n) + bucket(item.id)
  }

  function SlotBucket(n: nat, bucket: SymbolId -> nat): Item -> nat {
    (item: Item) => SlotIndex(n, bucket, item)
  }

  /** What the three vectors have been through. */
  ghost function Frequency(c: BoundedConfig, items: seq<Item>): Sketch
    requires GoodDimensions(c)
  {
    SketchOf(c.frequencyBuckets, FrequencyBucket(c), Ids(items))
  }

  ghost function Regional(c: BoundedConfig, items: seq<Item>): Sketch
    requires GoodDimensions(c)
  {
    SketchOf(Base(c.regions, c.frequencyBuckets), SlotBucket(c.frequencyBuckets, FrequencyBucket(c)), items)
  }

  ghost function TransitionSketch(c: BoundedConfig, items: seq<Item>): Sketch
    requires GoodDimensions(c)
  {
    SketchOf(c.transitionBuckets, TransitionBucket(c), Transitions(items))
  }

  lemma FrequencyPush(c: BoundedConfig, items: seq<Item>, item: Item)
    requires GoodDimensions(c)
    ensures Frequency(c, items + [item]) == After(Frequency(c, items), FrequencyBucket(c)(item.id))
  {
    OneMoreItem(items, item);
    SketchPush(c.frequencyBuckets, FrequencyBucket(c), Ids(items), item.id);
  }

  lemma RegionalPush(c: BoundedConfig, items: seq<Item>, item: Item)
    requires GoodDimensions(c)
    ensures Regional(c, items + [item])
         == After(Regional(c, items), Base(item.region, c.frequencyBuckets) + FrequencyBucket(c)(item.id))
  {
    SketchPush(Base(c.regions, c.frequencyBuckets), SlotBucket(c.frequencyBuckets, FrequencyBucket(c)), items, item);
  }

  /** One more hit, if there is one. */
  ghost function Also(s: Sketch, hit: Option<nat>): Sketch {
    if hit.None? then s else After(s, hit.value)
  }

  lemma TransitionPush(c: BoundedConfig, items: seq<Item>, item: Item)
    requires GoodDimensions(c)
    ensures TransitionSketch(c, items + [item])
         == Also(TransitionSketch(c, items),
                 if LastId(items).None? then None else Some(TransitionBucket(c)((LastId(items).value, item.id))))
  {
    OneMoreItem(items, item);
    if items != [] {
      SketchPush(c.transitionBuckets, TransitionBucket(c), Transitions(items), (LastId(items).value, item.id));
    } else {
      assert Transitions(items + [item]) == Transitions(items);
    }
  }

  /** The counters that one more item hits. */
  ghost predicate Hits(c: BoundedConfig, items: seq<Item>, item: Item, b: nat, slot: nat, t: Option<nat>)
    requires GoodDimensions(c)
  {
    && Frequency(c, items + [item]) == After(Frequency(c, items), b)
    && Regional(c, items + [item]) == After(Regional(c, items), slot)
    && TransitionSketch(c, items + [item]) == Also(TransitionSketch(c, items), t)
    && LastId(items + [item]) == Some(item.id)
  }

  lemma ItemHits(c: BoundedConfig, items: seq<Item>, item: Item)
    requires GoodDimensions(c)
    ensures Hits(c, items, item, FrequencyBucket(c)(item.id),
                 Base(item.region, c.frequencyBuckets) + FrequencyBucket(c)(item.id),
                 if LastId(items).None? then None else Some(TransitionBucket(c)((LastId(items).value, item.id))))
  {
    FrequencyPush(c, items, item);
    RegionalPush(c, items, item);
    TransitionPush(c, items, item);
    OneMoreItem(items, item);
  }

  /** The buckets of an id, and of the transition to it. */
  method HitBuckets(c: BoundedConfig, ghost items: seq<Item>, item: Item, previous: Option<SymbolId>)
      returns (b: nat, t: Option<nat>)
    requires GoodDimensions(c) && previous == LastId(items)
    ensures b == FrequencyBucket(c)(item.id) && b < c.frequencyBuckets
    ensures t.Some? ==> t.value < c.transitionBuckets
    ensures Hits(c, items, item, b, Base(item.region, c.frequencyBuckets) + b, t)
  {
    ItemHits(c, items, item);
    b := FrequencyBucket(c)(item.id);
    t := if previous.None? then None else Some(TransitionBucket(c)((previous.value, item.id)));
  }

  /** One hit of a vector that halves as a whole, and whether it did. */
  method CountHit(counters: array<Byte>, index: nat, ghost s: Sketch) returns (halvings: nat)
    requires index < counters.Length && counters[..] == s.counters
    modifies counters
    ensures counters[..] == After(s, index).counters
    ensures halvings == After(s, index).renorms - s.renorms
  {
    var halved := Increment(counters, index);
    halvings := if halved then 1 else 0;
  }

  class Accumulator8 {
    const totalBytes: Word
    const config: BoundedConfig
    const frequency: array<Byte>
    const regional: array<Byte>
    const transitions: array<Byte>
    var eventCount: nat
    var renormalizations: nat
    var previous: Option<SymbolId>
    ghost var items: seq<Item>

    ghost predicate Separate() {
      && frequency != regional && frequency != transitions && regional != transitions
      && GoodDimensions(config)
      && frequency.Length == config.frequencyBuckets
      && regional.Length == Base(config.regions, config.frequencyBuckets)
      && transitions.Length == config.transitionBuckets
    }

    ghost predicate Valid()
      reads this, frequency, regional, transitions
    {
      && Separate() && previous == LastId(items)
      && Holds(Frequency(config, items), Regional(config, items), TransitionSketch(config, items))
    }

    /** The three vectors and the halvings of all of them. */
    ghost predicate Holds(f: Sketch, g: Sketch, t: Sketch)
      reads this, frequency, regional, transitions
    {
      && frequency[..] == f.counters && regional[..] == g.counters && transitions[..] == t.counters
      && renormalizations == f.renorms + g.renorms + t.renorms
    }

    constructor (totalBytes: Word, config: BoundedConfig)
      requires GoodDimensions(config)
      ensures Valid() && items == [] && eventCount == 0
      ensures this.totalBytes == totalBytes && this.config == config
      ensures fresh(frequency) && fresh(regional) && fresh(transitions)
    {
      this.totalBytes := totalBytes;
      this.config := config;
      frequency := new Byte[config.frequencyBuckets](i => 0);
      regional := new Byte[Base(config.regions, config.frequencyBuckets)](i => 0);
      transitions := new Byte[config.transitionBuckets](i => 0);
      eventCount, renormalizations, previous, items := 0, 0, None, [];
    }

    /** The dimensions must not be zero. */
    static method Create(totalBytes: Word, config: BoundedConfig) returns (r: Result<Accumulator8>)
      ensures r.Ok? <==> GoodDimensions(config)
      ensures r.Ok? ==> var a := r.value;
              && fresh(a) && fresh(a.frequency) && fresh(a.regional) && fresh(a.transitions)
              && a.Valid() && a.items == [] && a.totalBytes == totalBytes && a.config == config
    {
      if config.frequencyBuckets == 0 || config.transitionBuckets == 0 || config.regions == 0 {
        return Err("bounded fingerprint dimensions must be non-zero");
      }
      var a := new Accumulator8(totalBytes, config);
      r := Ok(a);
    }

    /** The region is the one of the 64-bit form; each id hits its frequency, regional and transition counter. */
    method Observe(e: StructuralEvent)
      requires Valid()
      modifies this, frequency, regional, transitions
      ensures Valid() && eventCount == old(eventCount) + 1
      ensures items == old(items)
        + EventItems(BoundedRegion(e.byteOffset, totalBytes, config.regions), e.relationIds)
    {
      eventCount := eventCount + 1;
      var r := BoundedRegion(e.byteOffset, totalBytes, config.regions);
      ghost var before := items;
      PartNone(items, r, e.relationIds);
      for j := 0 to |e.relationIds|
        invariant Valid() && items == Part(before, r, e.relationIds, j)
        invariant eventCount == old(eventCount) + 1
      {
        PartNext(before, r, e.relationIds, j);
        ObserveId(r, e.relationIds[j]);
      }
      PartAll(before, r, e.relationIds);
    }

    method ObserveId(r: nat, id: SymbolId)
      requires Valid() && r < config.regions
      modifies this, frequency, regional, transitions
      ensures Valid() && items == old(items) + [Item(r, id)] && eventCount == old(eventCount)
    {
      var item := Item(r, id);
      var b, t := HitBuckets(config, items, item, previous);
      SlotInside(r, config.regions, config.frequencyBuckets);
      CountId(b, Base(r, config.frequencyBuckets) + b, t,
              Frequency(config, items), Regional(config, items), TransitionSketch(config, items));
      previous := Some(id);
      items := items + [item];
    }

    /** One hit in each vector. */
    method CountId(b: nat, slot: nat, transition: Option<nat>, ghost f: Sketch, ghost g: Sketch, ghost t: Sketch)
      requires Separate() && Holds(f, g, t) && b < frequency.Length && slot < regional.Length
      requires transition.Some? ==> transition.value < transitions.Length
      modifies this`renormalizations, frequency, regional, transitions
      ensures Holds(After(f, b), After(g, slot), Also(t, transition))
    {
      var byId := CountHit(frequency, b, f);
      var byRegion := CountHit(regional, slot, g);
      renormalizations := renormalizations + byId + byRegion;
      if transition.Some? {
        var byTransition := CountHit(transitions, transition.value, t);
        renormalizations := renormalizations + byTransition;
      }
    }
  }

  /** Halvings of the whole fingerprint are rare compared to what it has counted. */
  lemma RenormalizationsAreRare(c: BoundedConfig, items: seq<Item>)
    requires GoodDimensions(c)
    ensures 127 * (Frequency(c, items).renorms + Regional(c, items).renorms + TransitionSketch(c, items).renorms)
         <= 3 * |items|
  {
    HalvingsAreRare(c.frequencyBuckets, Hashed(FrequencyBucket(c), Ids(items)), 0);
    SlotInside(0, c.regions, c.frequencyBuckets);
    HalvingsAreRare(Base(c.regions, c.frequencyBuckets),
                    Hashed(SlotBucket(c.frequencyBuckets, FrequencyBucket(c)), items), 0);
    HalvingsAreRare(c.transitionBuckets, Hashed(TransitionBucket(c), Transitions(items)), 0);
    IdsLength(items);
  }

  lemma {:induction false} IdsLength(items: seq<Item>)
    ensures |Ids(items)| == |items| && |Transitions(items)| <= |items|
  {
    if items != [] {
      IdsLength(items[..|items| - 1]);
    }
  }
}
