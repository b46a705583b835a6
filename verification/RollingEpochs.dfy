/**
  What the rolling fingerprint shows, said by epochs: an epoch can be looked up by its residue until a later epoch of
  the same residue was seen, so the latest epochs, as many as there are regions, are all there.
*/
module RollingEpochs {
  import opened Words
  import opened Common
  import opened Observations
  import opened Buckets
  import opened Counters
  import opened Fingerprint8
  import opened RollingFingerprint

  // ---------- which epochs can be looked up ----------

  /** No later epoch of the same residue was seen. */
  ghost predicate NotReplaced(epochs: seq<nat>, regions: nat, e: nat)
    requires regions > 0
  {
    e in epochs && forall f :: f in epochs && f % regions == e % regions ==> f <= e
  }

  lemma SameResidue(e: nat, f: nat, regions: nat)
    requires regions > 0 && e < f && e % regions == f % regions
    ensures e + regions <= f
  {
    var p, q := e / regions, f / regions;
    assert e == p * regions + e % regions && f == q * regions + f % regions;
    if q < p + 1 {
      MulMonotone(q, p, regions);
    } else {
      MulMonotone(p + 1, q, regions);
      assert (p + 1) * regions == p * regions + regions;
    }
  }

  /** The latest epochs, as many as there are regions, are not replaced. */
  lemma RecentNotReplaced(epochs: seq<nat>, regions: nat, e: nat)
    requires regions > 0 && e in epochs && forall f :: f in epochs ==> f < e + regions
    ensures NotReplaced(epochs, regions, e)
  {
    forall f | f in epochs && f % regions == e % regions
      ensures f <= e
    {
      if e < f {
        SameResidue(e, f, regions);
      }
    }
  }

  lemma LatestExactly(epochs: seq<nat>, regions: nat, e: nat)
    requires regions > 0 && Ascending(epochs) && e in epochs
    ensures Latest(epochs, regions, e % regions) == Some(e) <==> NotReplaced(epochs, regions, e)
  {
    LatestIsLargest(epochs, regions, e % regions);
  }

  // ---------- what is stored for an epoch ----------

  /** The counters stored for epoch `e` are those of a fresh array fed with the ids of that epoch. */
  ghost predicate HoldsEpoch(c: BoundedConfig, items: seq<Item>, regional: seq<Byte>, e: nat)
    requires GoodDimensions(c)
  {
    var from := e % c.regions * c.frequencyBuckets;
    && from + c.frequencyBuckets <= |regional|
    && regional[from..from + c.frequencyBuckets]
       == Run(c.frequencyBuckets, Hashed(FrequencyBucket(c), InRegion(items, e))).counters
  }

  lemma EpochHeld(c: BoundedConfig, epochs: seq<nat>, items: seq<Item>, regional: seq<Byte>, regionEpochs: seq<Word>,
                  e: nat)
    requires GoodDimensions(c) && Ascending(epochs) && AllRegionsShow(c, epochs, items, regional, regionEpochs)
    requires NotReplaced(epochs, c.regions, e)
    ensures regionEpochs[e % c.regions] == e && HoldsEpoch(c, items, regional, e)
  {
    var r := e % c.regions;
    LatestExactly(epochs, c.regions, e);
    assert RegionShows(c, epochs, items, regional, regionEpochs, r);
    SlotInside(r, c.regions, c.frequencyBuckets);
    BaseIsProduct(r, c.frequencyBuckets);
  }

  /** A seen epoch can be looked up exactly until it is replaced, and the latest `regions` epochs always can. */
  lemma EpochsShown(a: Accumulator, e: nat)
    requires a.Valid() && e in a.epochs
    ensures a.regionEpochs.Length == a.config.regions > 0
    ensures a.regionEpochs[e % a.config.regions] == e <==> NotReplaced(a.epochs, a.config.regions, e)
    ensures NotReplaced(a.epochs, a.config.regions, e) ==> HoldsEpoch(a.config, a.items, a.regional[..], e)
    ensures e + a.config.regions > a.latestEpoch ==> NotReplaced(a.epochs, a.config.regions, e)
  {
    var c, r := a.config, e % a.config.regions;
    if NotReplaced(a.epochs, c.regions, e) {
      EpochHeld(c, a.epochs, a.items, a.regional[..], a.regionEpochs[..], e);
      assert a.regionEpochs[..][r] == a.regionEpochs[r];
    } else {
      LatestExactly(a.epochs, c.regions, e);
      LatestIsLargest(a.epochs, c.regions, r);
      assert RegionShows(c, a.epochs, a.items, a.regional[..], a.regionEpochs[..], r);
    }
    if e + c.regions > a.latestEpoch {
      LastIsLatest(a.epochs);
      RecentNotReplaced(a.epochs, c.regions, e);
    }
  }

  lemma LastIsLatest(epochs: seq<nat>)
    requires Ascending(epochs) && epochs != []
    ensures forall e :: e in epochs ==> e <= epochs[|epochs| - 1]
  {
    var front, last := epochs[..|epochs| - 1], epochs[|epochs| - 1];
    assert epochs == front + [last];
  }

  // ---------- region reuses ----------

  ghost predicate ResiduesDiffer(epochs: seq<nat>, regions: nat)
    requires regions > 0
  {
    forall e, f :: e in epochs && f in epochs && e % regions == f % regions ==> e == f
  }

  function Residue(regions: nat): nat -> nat
    requires regions > 0
  {
    (e: nat) => e % regions
  }

  /** The set of residues, and how it grows. */
  lemma RegionsAreResidues(epochs: seq<nat>, regions: nat)
    requires regions > 0
    ensures Reuses(epochs, regions) == |EpochSet(epochs)| - |Image<nat, nat>(Residue(regions), EpochSet(epochs))|
  {
    var residues := Image<nat, nat>(Residue(regions), EpochSet(epochs));
    forall e: nat | e in epochs
      ensures Region(e, regions) in residues && Residue(regions)(e) in RegionSet(epochs, regions)
    {
      assert e in EpochSet(epochs) && Residue(regions)(e) == Region(e, regions);
    }
    assert RegionSet(epochs, regions) == residues;
  }

  lemma {:induction false} ImageAtMost<A(!new), B(!new)>(f: A -> B, s: set<A>)
    ensures |Image(f, s)| <= |s|
  {
    if s != {} {
      var x :| x in s;
      ImageAtMost(f, s - {x});
      assert Image(f, s) == Image(f, s - {x}) + {f(x)};
    }
  }

  lemma Collision<A(!new), B(!new)>(f: A -> B, s: set<A>, x: A, y: A)
    requires x in s && y in s && x != y && f(x) == f(y)
    ensures |Image(f, s)| < |s|
  {
    ImageAtMost(f, s - {x});
    assert y in s - {x};
    assert Image(f, s) == Image(f, s - {x});
  }

  /** No region was ever taken over exactly if no two epochs seen have the same residue. */
  lemma ReusesZeroExactly(epochs: seq<nat>, regions: nat)
    requires regions > 0
    ensures Reuses(epochs, regions) == 0 <==> ResiduesDiffer(epochs, regions)
  {
    var s, f := EpochSet(epochs), Residue(regions);
    RegionsAreResidues(epochs, regions);
    if ResiduesDiffer(epochs, regions) {
      ImageSize<nat, nat>(f, s);
    } else {
      var x: nat, y: nat :| x in epochs && y in epochs && x % regions == y % regions && x != y;
      Collision<nat, nat>(f, s, x, y);
    }
  }

  /** So it is zero while at most `regions` consecutive epochs have been seen. */
  lemma NoReuseInWindow(a: Accumulator, first: nat)
    requires a.Valid() && forall e :: e in a.epochs ==> first <= e < first + a.config.regions
    ensures a.regionReuses == 0
  {
    forall e, f | e in a.epochs && f in a.epochs && e % a.config.regions == f % a.config.regions
      ensures e == f
    {
      if e < f {
        SameResidue(e, f, a.config.regions);
      } else if f < e {
        SameResidue(f, e, a.config.regions);
      }
    }
    ReusesZeroExactly(a.epochs, a.config.regions);
  }

  /** The accumulator counts the takeovers: the epochs seen, less their different residues. */
  lemma ReusesCounted(a: Accumulator)
    requires a.Valid()
    ensures a.regionReuses == |set e | e in a.epochs| - |set e | e in a.epochs :: e % a.config.regions|
    ensures a.regionReuses == 0 <==> ResiduesDiffer(a.epochs, a.config.regions)
  {
    ReusesZeroExactly(a.epochs, a.config.regions);
    assert EpochSet(a.epochs) == set e | e in a.epochs;
    assert RegionSet(a.epochs, a.config.regions) == set e | e in a.epochs :: e % a.config.regions;
  }

  // ---------- halvings ----------

  function SumBelow(f: nat -> nat, m: nat): nat {
    if m == 0 then 0 else SumBelow(f, m - 1) + f(m - 1)
  }

  lemma {:induction false} SumChanges(f: nat -> nat, g: nat -> nat, m: nat, e: nat, d: nat)
    requires forall x: nat :: g(x) == f(x) + if x == e then d else 0
    ensures SumBelow(g, m) == SumBelow(f, m) + if e < m then d else 0
  {
    if m > 0 {
      SumChanges(f, g, m - 1, e, d);
    }
  }

  lemma {:induction false} SumOfNone(f: nat -> nat, m: nat)
    requires forall x: nat :: f(x) == 0
    ensures SumBelow(f, m) == 0
  {
    if m > 0 {
      SumOfNone(f, m - 1);
    }
  }

  /** How often a fresh array fed with the ids of one epoch is halved. */
  ghost function EpochHalvings(n: nat, bucket: SymbolId -> nat, items: seq<Item>): nat -> nat {
    (e: nat) => Run(n, Hashed(bucket, InRegion(items, e))).renorms
  }

  /** One more item changes only the array of its own epoch. */
  lemma OneArrayChanges(n: nat, bucket: SymbolId -> nat, items: seq<Item>, item: Item, e: nat)
    requires bucket(item.id) < n
    ensures EpochHalvings(n, bucket, items + [item])(e)
         == EpochHalvings(n, bucket, items)(e) + if item.region == e then Halving(n, bucket, items, item) else 0
  {
    OneMoreInRegion(items, item, e);
    if item.region == e {
      SketchPush(n, bucket, InRegion(items, e), item.id);
    }
  }

  /** Regions are halved as often as separate arrays, one for each epoch below `m`, would be. */
  lemma {:induction false} RegionHalvingsExactly(n: nat, bucket: SymbolId -> nat, items: seq<Item>, m: nat)
    requires (forall id :: bucket(id) < n) && forall i :: 0 <= i < |items| ==> items[i].region < m
    ensures RegionHalvings(n, bucket, items) == SumBelow(EpochHalvings(n, bucket, items), m)
  {
    if items == [] {
      SumOfNone(EpochHalvings(n, bucket, []), m);
    } else {
      var front, last := items[..|items| - 1], items[|items| - 1];
      RegionHalvingsExactly(n, bucket, front, m);
      forall e: nat
        ensures EpochHalvings(n, bucket, items)(e)
             == EpochHalvings(n, bucket, front)(e) + if e == last.region then Halving(n, bucket, front, last) else 0
      {
        assert items == front + [last];
        OneArrayChanges(n, bucket, front, last, e);
      }
      SumChanges(EpochHalvings(n, bucket, front), EpochHalvings(n, bucket, items), m, last.region,
                 Halving(n, bucket, front, last));
    }
  }
}
