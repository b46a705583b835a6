/**
  The rolling fingerprint: a fixed number of regions holds the latest epochs of an endless stream. An epoch is
  `span` bytes long and uses the region of its residue; a newer epoch of the same residue takes the region over.
*/
module RollingFingerprint {
  import opened Words
  import opened Common
  import opened StructuralStream
  import opened Observations
  import opened Buckets
  import opened Counters
  import opened Fingerprint8

  /** The epoch of a region that was never used. */
  const UNUSED: Word := WORD - 1

  // ---------- which epoch a region shows ----------

  function Region(epoch: nat, regions: nat): (r: nat)
    requires regions > 0
    ensures r < regions
  {
    epoch % regions
  }

  /** The latest epoch seen that uses region `r`. */
  ghost function Latest(epochs: seq<nat>, regions: nat, r: nat): Option<nat>
    requires regions > 0
  {
    if epochs == [] then None
    else if Region(epochs[|epochs| - 1], regions) == r then Some(epochs[|epochs| - 1])
    else Latest(epochs[..|epochs| - 1], regions, r)
  }

  ghost predicate AtMost(epochs: seq<nat>, e: nat) {
    forall x :: x in epochs ==> x <= e
  }

  ghost predicate Ascending(epochs: seq<nat>) {
    epochs == []
    || (Ascending(epochs[..|epochs| - 1]) && AtMost(epochs[..|epochs| - 1], epochs[|epochs| - 1]))
  }

  lemma AscendingPush(epochs: seq<nat>, e: nat)
    ensures Ascending(epochs + [e]) <==> Ascending(epochs) && AtMost(epochs, e)
  {
    assert (epochs + [e])[..|epochs|] == epochs;
  }

  /** It is the largest epoch of that residue. */
  lemma {:induction false} LatestIsLargest(epochs: seq<nat>, regions: nat, r: nat)
    requires regions > 0 && Ascending(epochs)
    ensures match Latest(epochs, regions, r)
            case None => forall e :: e in epochs ==> e % regions != r
            case Some(x) => x in epochs && x % regions == r
                            && forall e :: e in epochs && e % regions == r ==> e <= x
  {
    if epochs != [] {
      var front, last := epochs[..|epochs| - 1], epochs[|epochs| - 1];
      LatestIsLargest(front, regions, r);
      assert epochs == front + [last];
    }
  }

  lemma LatestPush(epochs: seq<nat>, regions: nat, r: nat, e: nat)
    requires regions > 0
    ensures Latest(epochs + [e], regions, r)
         == if Region(e, regions) == r then Some(e) else Latest(epochs, regions, r)
  {
    assert (epochs + [e])[..|epochs|] == epochs;
  }

  /** An epoch has been seen exactly if its region shows it. */
  lemma SeenIfShown(epochs: seq<nat>, regions: nat, e: nat)
    requires regions > 0 && Ascending(epochs + [e])
    ensures e in epochs <==> Latest(epochs, regions, Region(e, regions)) == Some(e)
  {
    AscendingPush(epochs, e);
    LatestIsLargest(epochs, regions, Region(e, regions));
  }

  // ---------- counting region reuses ----------

  ghost function EpochSet(epochs: seq<nat>): set<nat> {
    set e | e in epochs
  }

  ghost function RegionSet(epochs: seq<nat>, regions: nat): set<nat>
    requires regions > 0
  {
    set e | e in epochs :: Region(e, regions)
  }

  /** Distinct epochs beyond the distinct regions they use. */
  ghost function Reuses(epochs: seq<nat>, regions: nat): int
    requires regions > 0
  {
    |EpochSet(epochs)| - |RegionSet(epochs, regions)|
  }

  /** Whether entering epoch `e` takes a region over from an older epoch. */
  ghost function Reuse(epochs: seq<nat>, regions: nat, e: nat): nat
    requires regions > 0
  {
    var shown := Latest(epochs, regions, Region(e, regions));
    if shown.Some? && shown.value != e then 1 else 0
  }

  lemma ReusesPush(epochs: seq<nat>, regions: nat, e: nat)
    requires regions > 0 && Ascending(epochs + [e])
    ensures Reuses(epochs + [e], regions) == Reuses(epochs, regions) + Reuse(epochs, regions, e)
  {
    var r := Region(e, regions);
    var all := epochs + [e];
    AscendingPush(epochs, e);
    SeenIfShown(epochs, regions, e);
    LatestIsLargest(epochs, regions, r);
    assert EpochSet(all) == EpochSet(epochs) + {e};
    assert RegionSet(all, regions) == RegionSet(epochs, regions) + {r};
    if e in epochs {
      assert r in RegionSet(epochs, regions);
      assert EpochSet(all) == EpochSet(epochs) && RegionSet(all, regions) == RegionSet(epochs, regions);
    } else if Latest(epochs, regions, r).Some? {
      assert r in RegionSet(epochs, regions);
      assert RegionSet(all, regions) == RegionSet(epochs, regions);
    }
  }

  // ---------- what the fingerprint shows ----------

  /** The ids of the epoch that region `r` shows. */
  ghost function Shown(epochs: seq<nat>, items: seq<Item>, regions: nat, r: nat): seq<SymbolId>
    requires regions > 0
  {
    match Latest(epochs, regions, r)
    case None => []
    case Some(e) => InRegion(items, e)
  }

  /** Region `r` holds its latest epoch and nothing but the counters of a fresh array fed with that epoch's ids. */
  ghost predicate RegionShows(c: BoundedConfig, epochs: seq<nat>, items: seq<Item>, regional: seq<Byte>,
                              regionEpochs: seq<Word>, r: nat)
    requires GoodDimensions(c) && r < |regionEpochs|
  {
    && regionEpochs[r] == (match Latest(epochs, c.regions, r) case None => UNUSED case Some(e) => e)
    && Slot(regional, r, c.frequencyBuckets)
       == SketchOf(c.frequencyBuckets, FrequencyBucket(c), Shown(epochs, items, c.regions, r)).counters
  }

  ghost predicate AllRegionsShow(c: BoundedConfig, epochs: seq<nat>, items: seq<Item>, regional: seq<Byte>,
                                 regionEpochs: seq<Word>)
    requires GoodDimensions(c)
  {
    && |regional| == Base(c.regions, c.frequencyBuckets) && |regionEpochs| == c.regions
    && forall r :: 0 <= r < c.regions ==> RegionShows(c, epochs, items, regional, regionEpochs, r)
  }

  /** How often the counters of a region were halved, over all regions and epochs. */
  ghost function RegionHalvings(n: nat, bucket: SymbolId -> nat, items: seq<Item>): nat {
    if items == [] then 0
    else
      var front, last := items[..|items| - 1], items[|items| - 1];
      RegionHalvings(n, bucket, front) + Halving(n, bucket, front, last)
  }

  /** Whether one more item halves the counters of its epoch. */
  ghost function Halving(n: nat, bucket: SymbolId -> nat, items: seq<Item>, item: Item): nat {
    var s := SketchOf(n, bucket, InRegion(items, item.region));
    if bucket(item.id) < n && s.counters[bucket(item.id)] == 255 then 1 else 0
  }

  ghost predicate EpochsSeen(epochs: seq<nat>, items: seq<Item>) {
    forall i :: 0 <= i < |items| ==> items[i].region in epochs
  }

  lemma {:induction false} UnseenIsEmpty(epochs: seq<nat>, items: seq<Item>, e: nat)
    requires EpochsSeen(epochs, items) && e !in epochs
    ensures InRegion(items, e) == []
  {
    if items != [] {
      UnseenIsEmpty(epochs, items[..|items| - 1], e);
      assert items[|items| - 1].region in epochs;
    }
  }

  // ---------- entering an epoch ----------

  /** The region of the epoch as it must be before the ids of the event are counted. */
  lemma EnterShows(c: BoundedConfig, epochs: seq<nat>, items: seq<Item>, regional: seq<Byte>,
                   regionEpochs: seq<Word>, e: Word, regional': seq<Byte>, regionEpochs': seq<Word>)
    requires GoodDimensions(c) && AllRegionsShow(c, epochs, items, regional, regionEpochs)
    requires Ascending(epochs + [e]) && EpochsSeen(epochs, items) && e <= UNUSED
    requires regionEpochs' == regionEpochs[Region(e, c.regions) := e]
    requires if regionEpochs[Region(e, c.regions)] == e then regional' == regional
             else SlotReplaced(regional, regional', c.regions, Region(e, c.regions), c.frequencyBuckets,
                               Zeros(c.frequencyBuckets))
    ensures AllRegionsShow(c, epochs + [e], items, regional', regionEpochs')
  {
    forall q | 0 <= q < c.regions
      ensures RegionShows(c, epochs + [e], items, regional', regionEpochs', q)
    {
      assert RegionShows(c, epochs, items, regional, regionEpochs, q);
      LatestPush(epochs, c.regions, q, e);
      if q == Region(e, c.regions) {
        EnteredRegion(c, epochs, items, regional, regionEpochs, e);
      }
    }
  }

  lemma EnteredRegion(c: BoundedConfig, epochs: seq<nat>, items: seq<Item>, regional: seq<Byte>,
                      regionEpochs: seq<Word>, e: nat)
    requires GoodDimensions(c) && |regionEpochs| == c.regions
    requires RegionShows(c, epochs, items, regional, regionEpochs, Region(e, c.regions))
    requires Ascending(epochs + [e]) && EpochsSeen(epochs, items) && e <= UNUSED
    ensures regionEpochs[Region(e, c.regions)] == e ==>
      Shown(epochs, items, c.regions, Region(e, c.regions)) == InRegion(items, e)
    ensures regionEpochs[Region(e, c.regions)] != e ==> InRegion(items, e) == []
  {
    SeenIfShown(epochs, c.regions, e);
    if e !in epochs {
      UnseenIsEmpty(epochs, items, e);
      LatestAtMost(epochs, c.regions, e);
    }
  }

  lemma LatestAtMost(epochs: seq<nat>, regions: nat, e: nat)
    requires regions > 0 && Ascending(epochs + [e])
    ensures var shown := Latest(epochs, regions, Region(e, regions)); shown.Some? ==> shown.value <= e
  {
    AscendingPush(epochs, e);
    LatestIsLargest(epochs, regions, Region(e, regions));
  }

  // ---------- counting an id ----------

  lemma CountShows(c: BoundedConfig, epochs: seq<nat>, items: seq<Item>, regional: seq<Byte>,
                   regionEpochs: seq<Word>, item: Item, b: nat, regional': seq<Byte>)
    requires GoodDimensions(c) && AllRegionsShow(c, epochs, items, regional, regionEpochs)
    requires epochs != [] && epochs[|epochs| - 1] == item.region
    requires b == FrequencyBucket(c)(item.id)
    requires SlotReplaced(regional, regional', c.regions, Region(item.region, c.regions), c.frequencyBuckets,
               After(Sketch(Slot(regional, Region(item.region, c.regions), c.frequencyBuckets), 0), b).counters)
    ensures AllRegionsShow(c, epochs, items + [item], regional', regionEpochs)
  {
    forall q | 0 <= q < c.regions
      ensures RegionShows(c, epochs, items + [item], regional', regionEpochs, q)
    {
      assert RegionShows(c, epochs, items, regional, regionEpochs, q);
      if q == Region(item.region, c.regions) {
        OneMoreInRegion(items, item, item.region);
        SketchPush(c.frequencyBuckets, FrequencyBucket(c), InRegion(items, item.region), item.id);
      } else {
        OtherRegionShown(epochs, items, c.regions, item, q);
      }
    }
  }

  lemma OtherRegionShown(epochs: seq<nat>, items: seq<Item>, regions: nat, item: Item, q: nat)
    requires regions > 0 && q != Region(item.region, regions)
    ensures Shown(epochs, items + [item], regions, q) == Shown(epochs, items, regions, q)
  {
    LatestResidue(epochs, regions, q);
    if Latest(epochs, regions, q).Some? {
      OneMoreInRegion(items, item, Latest(epochs, regions, q).value);
    }
  }

  lemma {:induction false} LatestResidue(epochs: seq<nat>, regions: nat, r: nat)
    requires regions > 0
    ensures Latest(epochs, regions, r).Some? ==> Region(Latest(epochs, regions, r).value, regions) == r
  {
    if epochs != [] {
      LatestResidue(epochs[..|epochs| - 1], regions, r);
    }
  }

  // ---------- the accumulator ----------

  /** Epochs never go back; the last offset lies in the last epoch, which is the latest one. */
  ghost predicate OnTrack(span: nat, epochs: seq<nat>, eventCount: nat, lastOffset: Option<nat>, latestEpoch: nat) {
    && span > 0 && Ascending(epochs) && eventCount == |epochs|
    && (if epochs == [] then lastOffset.None? && latestEpoch == 0
        else lastOffset.Some? && lastOffset.value / span == epochs[|epochs| - 1]
             && latestEpoch == epochs[|epochs| - 1])
  }

  lemma TrackPush(span: nat, epochs: seq<nat>, eventCount: nat, lastOffset: Option<nat>, latestEpoch: nat,
                    offset: nat, epoch: nat)
    requires OnTrack(span, epochs, eventCount, lastOffset, latestEpoch)
    requires offset / span == epoch && Ascending(epochs + [epoch])
    ensures OnTrack(span, epochs + [epoch], eventCount + 1, Some(offset), Max(latestEpoch, epoch))
  {
    AscendingLast(epochs, epoch);
  }

  class Accumulator {
    const config: BoundedConfig
    const span: nat
    const frequency: array<Byte>
    const regional: array<Byte>
    const transitions: array<Byte>
    const regionEpochs: array<Word>
    var eventCount: nat
    var renormalizations: nat
    var regionReuses: nat
    var latestEpoch: nat
    var previous: Option<SymbolId>
    var lastOffset: Option<nat>
    ghost var epochs: seq<nat>
    ghost var items: seq<Item>

    ghost predicate Separate() {
      && frequency != regional && frequency != transitions && regional != transitions
      && GoodDimensions(config) && span > 0
      && frequency.Length == config.frequencyBuckets
      && regional.Length == Base(config.regions, config.frequencyBuckets)
      && transitions.Length == config.transitionBuckets
      && regionEpochs.Length == config.regions
    }

    /** How often any counters were halved. */
    ghost function Halvings(): nat
      reads this
      requires GoodDimensions(config)
    {
      Frequency(config, items).renorms + TransitionSketch(config, items).renorms
      + RegionHalvings(config.frequencyBuckets, FrequencyBucket(config), items)
    }

    ghost predicate Valid()
      reads this, frequency, regional, transitions, regionEpochs
    {
      && Separate() && Ordered() && EpochsSeen(epochs, items)
      && Counted()
      && AllRegionsShow(config, epochs, items, regional[..], regionEpochs[..])
      && regionReuses == Reuses(epochs, config.regions)
    }

    /** The two vectors that never forget, and the halvings of all three. */
    ghost predicate Counted()
      reads this, frequency, transitions
      requires GoodDimensions(config)
    {
      && frequency[..] == Frequency(config, items).counters
      && transitions[..] == TransitionSketch(config, items).counters
      && renormalizations == Halvings()
      && previous == LastId(items)
    }

    ghost predicate Ordered()
      reads this
    {
      OnTrack(span, epochs, eventCount, lastOffset, latestEpoch)
    }

    constructor (config: BoundedConfig, span: nat)
      requires GoodDimensions(config) && span > 0
      ensures Valid() && epochs == [] && items == [] && lastOffset == None
      ensures this.config == config && this.span == span
      ensures fresh(frequency) && fresh(regional) && fresh(transitions) && fresh(regionEpochs)
    {
      this.config := config;
      this.span := span;
      frequency := new Byte[config.frequencyBuckets](i => 0);
      regional := new Byte[Base(config.regions, config.frequencyBuckets)](i => 0);
      transitions := new Byte[config.transitionBuckets](i => 0);
      regionEpochs := new Word[config.regions](i => UNUSED);
      eventCount, renormalizations, regionReuses, latestEpoch := 0, 0, 0, 0;
      previous, lastOffset, epochs, items := None, None, [], [];
      new;
      FreshShows(config, regional[..], regionEpochs[..]);
    }

    /** Neither a dimension nor the span of an epoch may be zero. */
    static method Create(config: BoundedConfig, span: nat) returns (r: Result<Accumulator>)
      ensures r.Ok? <==> GoodDimensions(config) && span > 0
      ensures r.Ok? ==> var a := r.value;
              && fresh(a) && fresh(a.frequency) && fresh(a.regional) && fresh(a.transitions) && fresh(a.regionEpochs)
              && a.Valid() && a.epochs == [] && a.items == [] && a.config == config && a.span == span
    {
      if config.frequencyBuckets == 0 || config.transitionBuckets == 0 || config.regions == 0 || span == 0 {
        return Err("rolling fingerprint dimensions and span must be non-zero");
      }
      var a := new Accumulator(config, span);
      r := Ok(a);
    }

    /** Offsets must not go back; an event that does changes nothing. */
    method Observe(e: StructuralEvent) returns (ok: bool)
      requires Valid() && e.byteOffset < WORD
      modifies this, frequency, regional, transitions, regionEpochs
      ensures Valid()
      ensures ok <==> old(lastOffset.None? || lastOffset.value <= e.byteOffset)
      ensures ok ==> lastOffset == Some(e.byteOffset)
      ensures ok ==> epochs == old(epochs) + [e.byteOffset / span]
      ensures ok ==> items == old(items) + EventItems(e.byteOffset / span, e.relationIds)
      ensures !ok ==> epochs == old(epochs) && items == old(items) && lastOffset == old(lastOffset)
    {
      if lastOffset.Some? && e.byteOffset < lastOffset.value {
        return false;
      }
      QuotientSmaller(e.byteOffset, span);
      var epoch: Word := e.byteOffset / span;
      EpochsAscend(epochs, lastOffset, e.byteOffset, span);
      Enter(epoch, e.byteOffset);
      ghost var before := items;
      PartNone(items, epoch, e.relationIds);
      for j := 0 to |e.relationIds|
        invariant Valid() && items == Part(before, epoch, e.relationIds, j)
        invariant epochs == old(epochs) + [epoch] && lastOffset == Some(e.byteOffset)
      {
        PartNext(before, epoch, e.relationIds, j);
        ObserveId(epoch, e.relationIds[j]);
      }
      PartAll(before, epoch, e.relationIds);
      ok := true;
    }

    /** Makes the region of the epoch show that epoch. */
    method Enter(epoch: Word, offset: nat)
      requires Valid() && offset / span == epoch && Ascending(epochs + [epoch])
      modifies this`eventCount, this`regionReuses, this`latestEpoch, this`lastOffset, this`epochs
      modifies regional, regionEpochs
      ensures Valid() && epochs == old(epochs) + [epoch] && lastOffset == Some(offset)
    {
      TrackPush(span, epochs, eventCount, lastOffset, latestEpoch, offset, epoch);
      lastOffset, eventCount := Some(offset), eventCount + 1;
      latestEpoch := Max(latestEpoch, epoch);
      EnterRegion(epoch);
      epochs := epochs + [epoch];
    }

    method EnterRegion(epoch: Word)
      requires Separate() && Ascending(epochs + [epoch]) && EpochsSeen(epochs, items)
      requires AllRegionsShow(config, epochs, items, regional[..], regionEpochs[..])
      requires regionReuses == Reuses(epochs, config.regions)
      modifies this`regionReuses, regional, regionEpochs
      ensures AllRegionsShow(config, epochs + [epoch], items, regional[..], regionEpochs[..])
      ensures regionReuses == Reuses(epochs + [epoch], config.regions)
    {
      ghost var oldRegional, oldEpochs := regional[..], regionEpochs[..];
      ReusesPush(epochs, config.regions, epoch);
      var r := Region(epoch, config.regions);
      assert RegionShows(config, epochs, items, oldRegional, oldEpochs, r);
      ReuseIsStale(epochs, config.regions, epoch, regionEpochs[r]);
      if regionEpochs[r] != epoch {
        if regionEpochs[r] != UNUSED {
          regionReuses := regionReuses + 1;
        }
        ClearRegion(r);
        regionEpochs[r] := epoch;
      }
      assert regionEpochs[..] == oldEpochs[r := epoch];
      EnterShows(config, epochs, items, oldRegional, oldEpochs, epoch, regional[..], regionEpochs[..]);
    }

    method ClearRegion(r: nat)
      requires Separate() && r < config.regions
      modifies regional
      ensures SlotReplaced(old(regional[..]), regional[..], config.regions, r, config.frequencyBuckets,
                           Zeros(config.frequencyBuckets))
    {
      var n := config.frequencyBuckets;
      SlotInside(r, config.regions, n);
      var from := Base(r, n);
      for i := 0 to n
        invariant forall k :: from <= k < from + i ==> regional[k] == 0
        invariant forall k :: 0 <= k < from || from + n <= k < regional.Length ==> regional[k] == old(regional[k])
      {
        regional[from + i] := 0;
      }
      ReplacesSlot(old(regional[..]), regional[..], config.regions, r, n);
      assert regional[..][from..from + n] == Zeros(n);
    }

    /** One id of the current epoch. */
    method ObserveId(epoch: nat, id: SymbolId)
      requires Valid() && epochs != [] && epochs[|epochs| - 1] == epoch
      modifies this`renormalizations, this`previous, this`items, frequency, regional, transitions
      ensures Valid() && items == old(items) + [Item(epoch, id)]
    {
      var item := Item(epoch, id);
      SeenPush(epochs, items, item);
      CountItem(item);
      items := items + [item];
    }

    method CountItem(item: Item)
      requires Separate() && Counted() && epochs != [] && epochs[|epochs| - 1] == item.region
      requires AllRegionsShow(config, epochs, items, regional[..], regionEpochs[..])
      modifies this`renormalizations, this`previous, frequency, regional, transitions
      ensures AllRegionsShow(config, epochs, items + [item], regional[..], regionEpochs[..])
      ensures frequency[..] == Frequency(config, items + [item]).counters
      ensures transitions[..] == TransitionSketch(config, items + [item]).counters
      ensures renormalizations
           == Frequency(config, items + [item]).renorms + TransitionSketch(config, items + [item]).renorms
              + RegionHalvings(config.frequencyBuckets, FrequencyBucket(config), items + [item])
      ensures previous == LastId(items + [item])
    {
      var b, t := HitBuckets(config, items, item, previous);
      CountInRegion(item, b);
      CountId(b, t, Frequency(config, items), TransitionSketch(config, items));
      HalvingsPush(config.frequencyBuckets, FrequencyBucket(config), items, item);
      previous := Some(item.id);
    }

    /** One hit in each vector that halves as a whole. */
    method CountId(b: nat, transition: Option<nat>, ghost f: Sketch, ghost t: Sketch)
      requires Separate() && b < frequency.Length
      requires transition.Some? ==> transition.value < transitions.Length
      requires frequency[..] == f.counters && transitions[..] == t.counters
      modifies this`renormalizations, frequency, transitions
      ensures frequency[..] == After(f, b).counters && transitions[..] == Also(t, transition).counters
      ensures renormalizations - old(renormalizations)
           == After(f, b).renorms - f.renorms + (Also(t, transition).renorms - t.renorms)
    {
      var byId := CountHit(frequency, b, f);
      renormalizations := renormalizations + byId;
      if transition.Some? {
        var byTransition := CountHit(transitions, transition.value, t);
        renormalizations := renormalizations + byTransition;
      }
    }

    /** One hit of the region of the item's epoch, which halves alone. */
    method CountInRegion(item: Item, b: nat)
      requires Separate() && epochs != [] && epochs[|epochs| - 1] == item.region
      requires AllRegionsShow(config, epochs, items, regional[..], regionEpochs[..])
      requires b == FrequencyBucket(config)(item.id) && b < config.frequencyBuckets
      modifies this`renormalizations, regional
      ensures AllRegionsShow(config, epochs, items + [item], regional[..], regionEpochs[..])
      ensures renormalizations == old(renormalizations)
        + Halving(config.frequencyBuckets, FrequencyBucket(config), items, item)
    {
      var n, r := config.frequencyBuckets, Region(item.region, config.regions);
      SlotInside(r, config.regions, n);
      ghost var before := regional[..];
      var halved := IncrementRange(regional, Base(r, n), n, b);
      if halved {
        renormalizations := renormalizations + 1;
      }
      assert regional[..][Base(r, n)..Base(r, n) + n] == regional[Base(r, n)..Base(r, n) + n];
      RegionCounted(config, epochs, items, before, regionEpochs[..], item, b, regional[..]);
    }
  }

  /** One hit in the region of the current epoch. */
  lemma RegionCounted(c: BoundedConfig, epochs: seq<nat>, items: seq<Item>, before: seq<Byte>,
                      regionEpochs: seq<Word>, item: Item, b: nat, after: seq<Byte>)
    requires GoodDimensions(c) && AllRegionsShow(c, epochs, items, before, regionEpochs)
    requires epochs != [] && epochs[|epochs| - 1] == item.region
    requires b == FrequencyBucket(c)(item.id) && b < c.frequencyBuckets && |after| == |before|
    requires var from := Base(Region(item.region, c.regions), c.frequencyBuckets);
             && from + c.frequencyBuckets <= |before|
             && after[from..from + c.frequencyBuckets] == Hit(before[from..from + c.frequencyBuckets], b)
             && forall i :: 0 <= i < from || from + c.frequencyBuckets <= i < |before| ==> after[i] == before[i]
    ensures AllRegionsShow(c, epochs, items + [item], after, regionEpochs)
    ensures before[Base(Region(item.region, c.regions), c.frequencyBuckets) + b] == 255
       <==> Halving(c.frequencyBuckets, FrequencyBucket(c), items, item) == 1
  {
    var n, r := c.frequencyBuckets, Region(item.region, c.regions);
    ReplacesSlot(before, after, c.regions, r, n);
    CountShows(c, epochs, items, before, regionEpochs, item, b, after);
    assert RegionShows(c, epochs, items, before, regionEpochs, r);
    assert Slot(before, r, n)[b] == before[Base(r, n) + b];
  }

  lemma FreshShows(c: BoundedConfig, regional: seq<Byte>, regionEpochs: seq<Word>)
    requires GoodDimensions(c) && |regional| == Base(c.regions, c.frequencyBuckets) && |regionEpochs| == c.regions
    requires forall i :: 0 <= i < |regional| ==> regional[i] == 0
    requires forall i :: 0 <= i < |regionEpochs| ==> regionEpochs[i] == UNUSED
    ensures AllRegionsShow(c, [], [], regional, regionEpochs)
    ensures Reuses([], c.regions) == 0
  {
    assert EpochSet([]) == {} && RegionSet([], c.regions) == {};
    forall r | 0 <= r < c.regions
      ensures RegionShows(c, [], [], regional, regionEpochs, r)
    {
      SlotInside(r, c.regions, c.frequencyBuckets);
      assert Slot(regional, r, c.frequencyBuckets) == Zeros(c.frequencyBuckets);
    }
  }

  lemma SeenPush(epochs: seq<nat>, items: seq<Item>, item: Item)
    requires EpochsSeen(epochs, items) && item.region in epochs
    ensures EpochsSeen(epochs, items + [item])
  {}

  lemma AscendingLast(epochs: seq<nat>, e: nat)
    requires Ascending(epochs + [e])
    ensures epochs != [] ==> epochs[|epochs| - 1] <= e
  {
    AscendingPush(epochs, e);
    if epochs != [] {
      assert epochs[|epochs| - 1] in epochs;
    }
  }

  lemma EpochsAscend(epochs: seq<nat>, last: Option<nat>, offset: nat, span: nat)
    requires span > 0 && Ascending(epochs) && (epochs == [] <==> last.None?)
    requires epochs != [] ==> last.value / span == epochs[|epochs| - 1] && last.value <= offset
    ensures Ascending(epochs + [offset / span])
  {
    AscendingPush(epochs, offset / span);
    if epochs != [] {
      QuotientsAscend(last.value, offset, span);
      assert epochs == epochs[..|epochs| - 1] + [epochs[|epochs| - 1]];
    }
  }

  lemma QuotientsAscend(x: nat, y: nat, d: nat)
    requires d > 0 && x <= y
    ensures x / d <= y / d
  {
    var p, q := x / d, y / d;
    assert x == p * d + x % d && y == q * d + y % d;
    if q < p {
      MulMonotone(q + 1, p, d);
    }
  }

  /** A region is taken over exactly if the epoch it shows is neither this one nor none. */
  lemma ReuseIsStale(epochs: seq<nat>, regions: nat, e: nat, stored: Word)
    requires regions > 0 && Ascending(epochs + [e]) && e <= UNUSED
    requires stored == match Latest(epochs, regions, Region(e, regions)) case None => UNUSED case Some(x) => x
    ensures Reuse(epochs, regions, e) == if stored != e && stored != UNUSED then 1 else 0
  {
    LatestAtMost(epochs, regions, e);
  }

  lemma HalvingsPush(n: nat, bucket: SymbolId -> nat, items: seq<Item>, item: Item)
    ensures RegionHalvings(n, bucket, items + [item]) == RegionHalvings(n, bucket, items) + Halving(n, bucket, items, item)
  {
    assert (items + [item])[..|items|] == items;
  }
}
