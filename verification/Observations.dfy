/**
  What a fingerprint is taken of: the relation ids of a run of events, each with the region of its event.
*/
module Observations {
  import opened Words
  import opened Common
  import opened StructuralStream
  import opened Similarity

  datatype Item = Item(region: nat, id: SymbolId)

  function EventItems(region: nat, ids: seq<SymbolId>): seq<Item> {
    if ids == [] then [] else EventItems(region, ids[..|ids| - 1]) + [Item(region, ids[|ids| - 1])]
  }

  /** All relation ids of the events in order; `region` places an event by its offset. */
  function Items(region: nat -> nat, events: seq<StructuralEvent>): seq<Item> {
    if events == [] then []
    else
      var last := events[|events| - 1];
      Items(region, events[..|events| - 1]) + EventItems(region(last.byteOffset), last.relationIds)
  }

  lemma {:induction false} SameRegionsSameItems(f: nat -> nat, g: nat -> nat, events: seq<StructuralEvent>)
    requires forall i :: 0 <= i < |events| ==> f(events[i].byteOffset) == g(events[i].byteOffset)
    ensures Items(f, events) == Items(g, events)
  {
    if events != [] {
      SameRegionsSameItems(f, g, events[..|events| - 1]);
      assert f(events[|events| - 1].byteOffset) == g(events[|events| - 1].byteOffset);
    }
  }

  function Ids(items: seq<Item>): seq<SymbolId> {
    if items == [] then [] else Ids(items[..|items| - 1]) + [items[|items| - 1].id]
  }

  function InRegion(items: seq<Item>, region: nat): seq<SymbolId> {
    if items == [] then []
    else
      InRegion(items[..|items| - 1], region)
      + if items[|items| - 1].region == region then [items[|items| - 1].id] else []
  }

  /** Neighbouring ids, across events too. */
  function Transitions(items: seq<Item>): seq<(SymbolId, SymbolId)> {
    if |items| < 2 then []
    else Transitions(items[..|items| - 1]) + [(items[|items| - 2].id, items[|items| - 1].id)]
  }

  function LastId(items: seq<Item>): Option<SymbolId> {
    if items == [] then None else Some(items[|items| - 1].id)
  }

  /** The ids are those of the items, and the transitions those of neighbours, in order. */
  lemma {:induction false} ItemsInOrder(items: seq<Item>)
    ensures |Ids(items)| == |items| && forall i :: 0 <= i < |items| ==> Ids(items)[i] == items[i].id
    ensures |Transitions(items)| == if items == [] then 0 else |items| - 1
    ensures forall i :: 0 <= i < |Transitions(items)| ==> Transitions(items)[i] == (items[i].id, items[i + 1].id)
  {
    if items != [] {
      ItemsInOrder(items[..|items| - 1]);
    }
  }

  function LiesIn(region: nat): Item -> bool {
    (item: Item) => item.region == region
  }

  function IdOf(): Item -> SymbolId {
    (item: Item) => item.id
  }

  /** The ids of a region are those of the items that lie in it, in order. */
  lemma {:induction false} RegionKept(items: seq<Item>, region: nat)
    ensures InRegion(items, region) == Kept(items, LiesIn(region), IdOf())
  {
    if items != [] {
      RegionKept(items[..|items| - 1], region);
    }
  }

  /** Number of an event, and number of an id in it. */
  type IdPlace = (nat, nat)

  ghost predicate IsIdPlace(events: seq<StructuralEvent>, p: IdPlace) {
    p.0 < |events| && p.1 < |events[p.0].relationIds|
  }

  /** Every id of every event once: by event, and in an event by its place. */
  ghost predicate AllIdPlaces(events: seq<StructuralEvent>, at: seq<IdPlace>) {
    && (forall j, k :: 0 <= j < k < |at| ==> at[j].0 < at[k].0 || (at[j].0 == at[k].0 && at[j].1 < at[k].1))
    && (forall p: IdPlace :: p in at <==> IsIdPlace(events, p))
  }

  ghost predicate ItemsAt(region: nat -> nat, events: seq<StructuralEvent>, at: seq<IdPlace>, items: seq<Item>) {
    && |items| == |at|
    && forall k :: 0 <= k < |at| ==>
      && IsIdPlace(events, at[k])
      && items[k] == Item(region(events[at[k].0].byteOffset), events[at[k].0].relationIds[at[k].1])
  }

  function RowOf(e: nat, n: nat): (row: seq<IdPlace>)
    ensures |row| == n
  {
    seq(n, j requires 0 <= j => (e, j))
  }

  lemma {:induction false} EventItemsAt(region: nat, ids: seq<SymbolId>)
    ensures |EventItems(region, ids)| == |ids|
    ensures forall j :: 0 <= j < |ids| ==> EventItems(region, ids)[j] == Item(region, ids[j])
  {
    if ids != [] {
      EventItemsAt(region, ids[..|ids| - 1]);
    }
  }

  lemma AllIdPlacesPush(events: seq<StructuralEvent>, e: StructuralEvent, at: seq<IdPlace>)
    requires AllIdPlaces(events, at)
    ensures AllIdPlaces(events + [e], at + RowOf(|events|, |e.relationIds|))
  {
    var all, row := events + [e], RowOf(|events|, |e.relationIds|);
    forall k | 0 <= k < |at|
      ensures at[k].0 < |events|
    {
      assert at[k] in at;
    }
    forall p: IdPlace
      ensures p in at + row <==> IsIdPlace(all, p)
    {
      if p.0 == |events| && p.1 < |e.relationIds| {
        assert row[p.1] == p;
      }
      assert p in row ==> p.0 == |events|;
      assert p in at <==> IsIdPlace(events, p);
    }
  }

  lemma ItemsAtPush(region: nat -> nat, events: seq<StructuralEvent>, e: StructuralEvent, at: seq<IdPlace>,
                    items: seq<Item>)
    requires ItemsAt(region, events, at, items)
    ensures ItemsAt(region, events + [e], at + RowOf(|events|, |e.relationIds|),
                    items + EventItems(region(e.byteOffset), e.relationIds))
  {
    EventItemsAt(region(e.byteOffset), e.relationIds);
  }

  /** What is observed: every relation id of every event once, in order, in the region of its event. */
  lemma {:induction false} ItemsListed(region: nat -> nat, events: seq<StructuralEvent>) returns (at: seq<IdPlace>)
    ensures AllIdPlaces(events, at) && ItemsAt(region, events, at, Items(region, events))
  {
    if events == [] {
      at := [];
    } else {
      var front, last := events[..|events| - 1], events[|events| - 1];
      var before := ItemsListed(region, front);
      AllIdPlacesPush(front, last, before);
      ItemsAtPush(region, front, last, before, Items(region, front));
      assert events == front + [last];
      at := before + RowOf(|front|, |last.relationIds|);
    }
  }

  /** The transition that one more id makes. */
  function NewTransition(items: seq<Item>, id: SymbolId): seq<(SymbolId, SymbolId)> {
    if items == [] then [] else [(items[|items| - 1].id, id)]
  }

  lemma OneMoreItem(items: seq<Item>, item: Item)
    ensures var more := items + [item];
            && Ids(more) == Ids(items) + [item.id]
            && Transitions(more) == Transitions(items) + NewTransition(items, item.id)
            && LastId(more) == Some(item.id)
  {
    var more := items + [item];
    assert more[..|more| - 1] == items;
  }

  lemma OneMoreInRegion(items: seq<Item>, item: Item, r: nat)
    ensures item.region == r ==> InRegion(items + [item], r) == InRegion(items, r) + [item.id]
    ensures item.region != r ==> InRegion(items + [item], r) == InRegion(items, r)
  {
    assert (items + [item])[..|items|] == items;
  }

  /** `items`, and then the first `j` ids of an event. */
  ghost function Part(items: seq<Item>, region: nat, ids: seq<SymbolId>, j: nat): seq<Item>
    requires j <= |ids|
  {
    items + EventItems(region, ids[..j])
  }

  lemma PartNone(items: seq<Item>, region: nat, ids: seq<SymbolId>)
    ensures Part(items, region, ids, 0) == items
  {}

  lemma PartAll(items: seq<Item>, region: nat, ids: seq<SymbolId>)
    ensures Part(items, region, ids, |ids|) == items + EventItems(region, ids)
  {
    assert ids[..|ids|] == ids;
  }

  lemma PartNext(items: seq<Item>, region: nat, ids: seq<SymbolId>, j: nat)
    requires j < |ids|
    ensures Part(items, region, ids, j + 1) == Part(items, region, ids, j) + [Item(region, ids[j])]
    ensures LastId(Part(items, region, ids, j + 1)) == Some(ids[j])
  {
    assert ids[..j + 1][..j] == ids[..j];
    var more := EventItems(region, ids[..j]);
    assert items + (more + [Item(region, ids[j])]) == items + more + [Item(region, ids[j])];
  }

  lemma OneMoreEvent(region: nat -> nat, events: seq<StructuralEvent>, i: nat)
    requires i < |events|
    ensures Items(region, events[..i + 1])
         == Items(region, events[..i]) + EventItems(region(events[i].byteOffset), events[i].relationIds)
  {
    assert events[..i + 1][..i] == events[..i];
  }

  // ---------- regions ----------

  /** The region of an offset as first computed, in 64-bit arithmetic: the product may wrap around. */
  function ExactRegion(offset: nat, total: Word, regions: Word): (r: nat)
    requires regions > 0
    ensures r < regions
  {
    if total == 0 then 0 else Min(regions - 1, offset * regions % WORD / total)
  }

  /** The form that divides first. */
  function BoundedRegion(offset: nat, total: Word, regions: Word): (r: nat)
    requires regions > 0
    ensures r < regions
  {
    if total == 0 then 0
    else Min(regions - 1, DividedFirst(offset / total * regions, offset % total * regions, total))
  }

  function DividedFirst(high: nat, low: nat, total: nat): nat
    requires total > 0
  {
    (high % WORD + low % WORD / total) % WORD
  }

  function ExactRegionOf(total: Word, regions: Word): nat -> nat
    requires regions > 0
  {
    (offset: nat) => ExactRegion(offset, total, regions)
  }

  function BoundedRegionOf(total: Word, regions: Word): nat -> nat
    requires regions > 0
  {
    (offset: nat) => BoundedRegion(offset, total, regions)
  }

  /** Inside the input both forms agree, whether or not the product wraps around. */
  lemma RegionsAgree(offset: nat, total: Word, regions: Word)
    requires regions > 0 && (total == 0 || offset < total)
    ensures BoundedRegion(offset, total, regions) == ExactRegion(offset, total, regions)
  {
    if total > 0 {
      SmallDivision(offset, total);
      QuotientSmaller(offset * regions % WORD, total);
      NoHighPart(offset / total, regions, offset * regions, total);
    }
  }

  lemma SmallDivision(x: nat, d: nat)
    requires x < d
    ensures x / d == 0 && x % d == x
  {}

  lemma NoHighPart(high: nat, regions: nat, low: nat, total: nat)
    requires high == 0 && total > 0 && low % WORD / total < WORD
    ensures DividedFirst(high * regions, low, total) == low % WORD / total
  {
    assert high * regions == 0;
  }

  lemma QuotientSmaller(x: nat, d: nat)
    requires d > 0
    ensures x / d <= x
  {
    var q := x / d;
    assert x == q * d + x % d;
    MulMonotone(1, d, q);
  }

  /** Inside the input, the region is offset * regions / total exactly if that product fits 64 bits. */
  lemma RegionIsProportional(offset: nat, total: Word, regions: Word)
    requires regions > 0 && offset < total
    ensures ExactRegion(offset, total, regions) == offset * regions / total <==> offset * regions < WORD
  {
    var x := offset * regions;
    MulMonotone(offset, total - 1, regions);
    ProportionalBound(offset, total, regions);
    if x >= WORD {
      WrappedIsSmaller(x, total);
    }
  }

  lemma ProportionalBound(offset: nat, total: nat, regions: nat)
    requires regions > 0 && offset < total
    ensures offset * regions / total <= regions - 1
  {
    var q := offset * regions / total;
    assert offset * regions == q * total + offset * regions % total;
    if q >= regions {
      MulMonotone(regions, q, total);
      Below(offset, total, regions);
    }
  }

  lemma Below(offset: nat, total: nat, regions: nat)
    requires regions > 0 && offset < total
    ensures offset * regions < regions * total
  {}

  lemma WrappedIsSmaller(x: nat, total: Word)
    requires x >= WORD && total > 0
    ensures x % WORD / total < x / total
  {
    var y := x % WORD;
    var q, p := y / total, x / total;
    assert x >= y + WORD;
    assert y == q * total + y % total && x == p * total + x % total;
    if p <= q {
      MulMonotone(p, q, total);
    }
  }

  lemma DivMod(x: nat, d: nat) returns (q: nat, r: nat)
    requires d > 0
    ensures q == x / d && r == x % d && r < d && x == q * d + r && r <= x
  {
    q, r := x / d, x % d;
  }

  /** Dividing first gives the same quotient, for every offset. */
  lemma DivideFirst(offset: nat, total: nat, regions: nat)
    requires total > 0
    ensures offset / total * regions + offset % total * regions / total == offset * regions / total
  {
    var q, r := DivMod(offset, total);
    var s, t := DivMod(r * regions, total);
    Recombined(offset, q, total, r, regions, s, t);
    QuotientIs(offset * regions, total, q * regions + s, t);
  }

  lemma QuotientIs(x: nat, d: nat, q: nat, r: nat)
    requires x == q * d + r && r < d
    ensures x / d == q
  {
    DivideUnique(x, d, q);
  }

  lemma Recombined(offset: nat, q: nat, total: nat, r: nat, regions: nat, s: nat, t: nat)
    requires offset == q * total + r && r * regions == s * total + t
    ensures offset * regions == (q * regions + s) * total + t
  {
    assert offset * regions == q * total * regions + r * regions;
    assert q * total * regions == q * regions * total;
  }

  /** Without overflow, both forms give the proportional region, clamped, for every offset. */
  lemma BothProportional(offset: nat, total: Word, regions: Word)
    requires regions > 0 && total > 0 && offset * regions < WORD
    ensures ExactRegion(offset, total, regions) == Min(regions - 1, offset * regions / total)
    ensures BoundedRegion(offset, total, regions) == Min(regions - 1, offset * regions / total)
  {
    SmallDivision(offset * regions, WORD);
    DividedIs(offset, total, regions);
  }

  lemma DividedIs(offset: nat, total: nat, regions: nat)
    requires total > 0 && offset * regions < WORD
    ensures DividedFirst(offset / total * regions, offset % total * regions, total) == offset * regions / total
  {
    var q, r := DivMod(offset, total);
    var high, low, sum := q * regions, r * regions, offset * regions / total;
    MulMonotone(r, offset, regions);
    QuotientSmaller(offset * regions, total);
    DivideFirst(offset, total, regions);
    NoWrap(high, low, total, sum);
  }

  lemma NoWrap(high: nat, low: nat, total: nat, sum: nat)
    requires total > 0 && low < WORD && high + low / total == sum && sum < WORD
    ensures DividedFirst(high, low, total) == sum
  {
    SmallDivision(high, WORD);
    SmallDivision(low, WORD);
    SmallDivision(sum, WORD);
  }
}
