/**
  The temporal associator: links between patterns that occur together in a slice of time. The exponential and
  the logarithm are parameters of which only their range is used; times and weights are reals.
*/
module TemporalAssociator {
  import opened Common
  import opened Moments

  datatype Occurrence = Occurrence(pattern: int, start: real, end: real) {
    function Center(): real {
      (start + end) * 0.5
    }
  }

  datatype RealitySlice = RealitySlice(start: real, end: real, occurrences: seq<Occurrence>)

  /** What the constructor of a slice accepts. */
  predicate Proper(rs: RealitySlice) {
    rs.start <= rs.end
    && forall i :: 0 <= i < |rs.occurrences| ==> rs.start <= rs.occurrences[i].start && rs.occurrences[i].end <= rs.end
  }

  /** A slice, or why there is none. */
  function Slice(start: real, end: real, occurrences: seq<Occurrence>): (r: Result<RealitySlice>)
    ensures r.Ok? <==> Proper(RealitySlice(start, end, occurrences))
    ensures r.Ok? ==> r.value == RealitySlice(start, end, occurrences)
  {
    if end < start then Err("invalid RealitySlice window")
    else if exists i :: 0 <= i < |occurrences| && (occurrences[i].start < start || occurrences[i].end > end) then
      Err("occurrence outside RealitySlice")
    else Ok(RealitySlice(start, end, occurrences))
  }

  datatype Association = Association(
    rho: real, forward: real, simultaneous: real, backward: real, repetitions: nat, meanDt: real, m2Dt: real,
    lastTime: real)

  type Key = (int, int)

  datatype Parameters = Parameters(
    eta: real, lambda0: real, consolidation: real, simultaneousDelta: real, minProximity: real, tau: real,
    exp: real -> real, log: real -> real)

  /** The parameters with which no quotient has a zero divisor. */
  ghost predicate Defined(p: Parameters) {
    p.tau != 0.0 && forall n: nat :: Slowness(p, n) != 0.0
  }

  /** What is asked of the parameters other than the time constant, and of the exponential and the logarithm. */
  ghost predicate Ordinary(p: Parameters) {
    && 0.0 < p.eta <= 1.0 && p.lambda0 >= 0.0 && p.consolidation >= 0.0
    && (forall x :: x <= 0.0 ==> 0.0 < p.exp(x) <= 1.0)
    && (forall x :: p.exp(x) >= 1.0 + x)
    && (forall x :: x >= 1.0 ==> p.log(x) >= 0.0)
  }

  function KeyOf(a: int, b: int): Key {
    if a < b then (a, b) else (b, a)
  }

  function Least(a: real, b: real): real {
    if a < b then a else b
  }

  function IntervalDistance(a: Occurrence, b: Occurrence): (d: real)
    ensures d >= 0.0
  {
    if a.end >= b.start && b.end >= a.start then 0.0 else Least(Abs(b.start - a.end), Abs(a.start - b.end))
  }

  // ---------- one pair ----------

  function Proximity(p: Parameters, a: Occurrence, b: Occurrence): real
    requires p.tau != 0.0
  {
    p.exp(-IntervalDistance(a, b) / p.tau)
  }

  /** How slowly a link is forgotten. */
  function Slowness(p: Parameters, repetitions: nat): real {
    1.0 + p.consolidation * p.log(1.0 + repetitions as real)
  }

  function Decay(p: Parameters, link: Association, now: real): real
    requires Slowness(p, link.repetitions) != 0.0
  {
    p.exp(-Faded(p, link, now))
  }

  /** How far a link has faded: the rate over the slowness, times the time passed. */
  function Faded(p: Parameters, link: Association, now: real): real
    requires Slowness(p, link.repetitions) != 0.0
  {
    p.lambda0 / Slowness(p, link.repetitions) * (now - link.lastTime)
  }

  /** A link as it is remembered now. */
  function Forgotten(p: Parameters, link: Association, now: real): Association
    requires Defined(p)
  {
    if link.lastTime <= 0.0 || now <= link.lastTime then link else Scaled(link, Decay(p, link, now))
  }

  /** One more observation of the pair, `dt` apart. */
  function Reinforced(p: Parameters, link: Association, proximity: real, dt: real, now: real): Association {
    var w := p.eta * proximity;
    Association(
      link.rho + w * (1.0 - link.rho),
      if Abs(dt) > p.simultaneousDelta && dt > 0.0 then link.forward + w else link.forward,
      if Abs(dt) <= p.simultaneousDelta then link.simultaneous + w else link.simultaneous,
      if Abs(dt) > p.simultaneousDelta && dt <= 0.0 then link.backward + w else link.backward,
      link.repetitions + 1, NextMean(link.repetitions, link.meanDt, dt),
      NextM2(link.repetitions, link.meanDt, link.m2Dt, dt), now)
  }

  const NEW_LINK := Association(0.0, 0.0, 0.0, 0.0, 0, 0.0, 0.0, 0.0)

  /** The signed distance between the centers, from the first pattern of the key to the second. */
  function Displacement(a: Occurrence, b: Occurrence): real {
    if a.pattern < b.pattern then b.Center() - a.Center() else a.Center() - b.Center()
  }

  /** The links, the pairs already counted in this slice, and the displacements counted so far. */
  datatype Links = Links(table: map<Key, Association>, seen: set<Key>, counted: map<Key, seq<real>>)

  function Get(links: Links, k: Key): Association {
    if k in links.table then links.table[k] else NEW_LINK
  }

  function Counted(links: Links, k: Key): seq<real> {
    if k in links.counted then links.counted[k] else []
  }

  /** A pair of occurrences: too far apart it changes nothing, and each pair of patterns counts once in a slice. */
  function Paired(p: Parameters, links: Links, a: Occurrence, b: Occurrence, now: real): Links
    requires Defined(p)
  {
    if a.pattern == b.pattern || Proximity(p, a, b) < p.minProximity then links
    else
      var k := KeyOf(a.pattern, b.pattern);
      var link := Forgotten(p, Get(links, k), now);
      if k in links.seen then links.(table := links.table[k := link])
      else
        var dt := Displacement(a, b);
        Links(links.table[k := Reinforced(p, link, Proximity(p, a, b), dt, now)], links.seen + {k},
              links.counted[k := Counted(links, k) + [dt]])
  }

  // ---------- what every link keeps ----------

  ghost predicate Unit(x: real) {
    0.0 <= x <= 1.0
  }

  /** Strength within [0, 1] and no negative weight. */
  ghost predicate InRange(link: Association) {
    Unit(link.rho) && link.forward >= 0.0 && link.simultaneous >= 0.0 && link.backward >= 0.0
  }

  /** The moments are exact over the displacements counted. */
  ghost predicate IsExact(link: Association, dts: seq<real>) {
    link.repetitions == |dts| && AreMoments(dts, link.meanDt, link.m2Dt)
  }

  lemma UnitProduct(x: real, y: real)
    requires Unit(x) && Unit(y)
    ensures Unit(x * y)
  {
    ProductNotNegative(x, y);
    ProductNotNegative(x, 1.0 - y);
    Distribute(x, 1.0, -y);
  }

  lemma TowardsOne(rho: real, w: real)
    requires Unit(rho) && Unit(w)
    ensures Unit(rho + w * (1.0 - rho))
  {
    var rest := 1.0 - rho;
    UnitProduct(w, rest);
    ProductNotNegative(1.0 - w, rest);
    Complement(w, rest);
  }

  lemma Complement(w: real, x: real)
    ensures (1.0 - w) * x == x - w * x
  {}

  lemma SlownessPositive(p: Parameters, repetitions: nat)
    requires Ordinary(p)
    ensures Slowness(p, repetitions) >= 1.0
  {
    assert 1.0 + repetitions as real >= 1.0;
    ProductNotNegative(p.consolidation, p.log(1.0 + repetitions as real));
  }

  lemma OrdinaryDefined(p: Parameters)
    requires Ordinary(p) && p.tau != 0.0
    ensures Defined(p)
  {
    forall n: nat
      ensures Slowness(p, n) != 0.0
    {
      SlownessPositive(p, n);
    }
  }

  lemma DecayInUnit(p: Parameters, link: Association, now: real)
    requires Ordinary(p) && now > link.lastTime && Slowness(p, link.repetitions) != 0.0
    ensures Unit(Decay(p, link, now))
  {
    SlownessPositive(p, link.repetitions);
    QuotientNotNegative(p.lambda0, Slowness(p, link.repetitions));
    ProductNotNegative(p.lambda0 / Slowness(p, link.repetitions), now - link.lastTime);
    ExpInUnit(p, Faded(p, link, now));
  }

  lemma ExpInUnit(p: Parameters, x: real)
    requires Ordinary(p) && x >= 0.0
    ensures Unit(p.exp(-x))
  {
    var y := -x;
    assert y <= 0.0 && Unit(p.exp(y));
  }

  lemma QuotientNotNegative(a: real, b: real)
    requires a >= 0.0 && b > 0.0
    ensures a / b >= 0.0
  {}

  lemma NegatedQuotient(a: real, b: real)
    requires a >= 0.0 && b > 0.0
    ensures -a / b <= 0.0
  {}

  function Scaled(link: Association, decay: real): Association {
    link.(rho := link.rho * decay, forward := link.forward * decay,
          simultaneous := link.simultaneous * decay, backward := link.backward * decay)
  }

  lemma ScaledInRange(link: Association, decay: real)
    requires InRange(link) && Unit(decay)
    ensures InRange(Scaled(link, decay))
  {
    UnitProduct(link.rho, decay);
    ProductNotNegative(link.forward, decay);
    ProductNotNegative(link.simultaneous, decay);
    ProductNotNegative(link.backward, decay);
  }

  lemma ForgottenInRange(p: Parameters, link: Association, now: real)
    requires Ordinary(p) && Defined(p) && InRange(link)
    ensures InRange(Forgotten(p, link, now))
  {
    if link.lastTime > 0.0 && now > link.lastTime {
      DecayInUnit(p, link, now);
      ScaledInRange(link, Decay(p, link, now));
    }
  }

  lemma ReinforcedInRange(p: Parameters, link: Association, proximity: real, dt: real, now: real)
    requires Ordinary(p) && InRange(link) && Unit(proximity)
    ensures InRange(Reinforced(p, link, proximity, dt, now))
  {
    UnitProduct(p.eta, proximity);
    TowardsOne(link.rho, p.eta * proximity);
  }

  /** One more displacement is counted exactly, whatever was forgotten before. */
  lemma ReinforcedExact(p: Parameters, link: Association, proximity: real, dt: real, now: real, dts: seq<real>)
    requires Defined(p) && IsExact(link, dts)
    ensures IsExact(Reinforced(p, Forgotten(p, link, now), proximity, dt, now), dts + [dt])
  {
    MomentsStep(dts, link.meanDt, link.m2Dt, dt);
  }

  lemma ProximityInUnit(p: Parameters, a: Occurrence, b: Occurrence)
    requires Ordinary(p) && p.tau > 0.0
    ensures Unit(Proximity(p, a, b))
  {
    NegatedQuotient(IntervalDistance(a, b), p.tau);
  }

  lemma NewLinkOk()
    ensures InRange(NEW_LINK) && IsExact(NEW_LINK, [])
  {
    assert 0.0 * 0.0 == 0.0;
  }

  // ---------- a pair has no order, and one direction ----------

  lemma KeySymmetric(a: int, b: int)
    requires a != b
    ensures KeyOf(a, b) == KeyOf(b, a)
  {}

  lemma DistanceSymmetric(a: Occurrence, b: Occurrence)
    ensures IntervalDistance(a, b) == IntervalDistance(b, a)
  {}

  /** It makes no difference which occurrence of a pair comes first in the sorted slice. */
  lemma PairSymmetric(p: Parameters, links: Links, a: Occurrence, b: Occurrence, now: real)
    requires Defined(p)
    ensures Paired(p, links, a, b, now) == Paired(p, links, b, a, now)
  {
    DistanceSymmetric(a, b);
    if a.pattern != b.pattern {
      KeySymmetric(a.pattern, b.pattern);
      assert Displacement(a, b) == Displacement(b, a);
    }
  }

  /** Each observation gives its whole weight to one direction: the one the centers show. */
  lemma OneDirection(p: Parameters, link: Association, proximity: real, dt: real, now: real)
    ensures var after := Reinforced(p, link, proximity, dt, now);
            after.forward + after.simultaneous + after.backward
            == link.forward + link.simultaneous + link.backward + p.eta * proximity
    ensures p.simultaneousDelta >= 0.0 && p.eta * proximity > 0.0 ==>
      var after := Reinforced(p, link, proximity, dt, now);
      && (after.forward > link.forward <==> dt > p.simultaneousDelta)
      && (after.backward > link.backward <==> -dt > p.simultaneousDelta)
  {}

  // ---------- one slice ----------

  function Patterns(occurrences: seq<Occurrence>): set<int> {
    set x | x in occurrences :: x.pattern
  }

  function CountOf(counts: map<int, nat>, pattern: int): nat {
    if pattern in counts then counts[pattern] else 0
  }

  /** Every pattern of the slice occurred in one more slice. */
  function Bumped(counts: map<int, nat>, patterns: set<int>): map<int, nat> {
    map k | k in counts.Keys + patterns :: CountOf(counts, k) + if k in patterns then 1 else 0
  }

  /** Occurrence `i` with all from `j` on. */
  function PairedRow(p: Parameters, links: Links, items: seq<Occurrence>, i: nat, j: nat, now: real): Links
    requires Defined(p) && i < |items|
    decreases |items| - j
  {
    if j >= |items| then links else PairedRow(p, Paired(p, links, items[i], items[j], now), items, i, j + 1, now)
  }

  /** All pairs whose first occurrence is `i` or later. */
  function PairedFrom(p: Parameters, links: Links, items: seq<Occurrence>, i: nat, now: real): Links
    requires Defined(p)
    decreases |items| - i
  {
    if i >= |items| then links
    else PairedFrom(p, PairedRow(p, links, items, i, i + 1, now), items, i + 1, now)
  }

  // ---------- no link is counted more often than its patterns ----------

  /** A link within a slice: it may be one ahead of the slices before, if it was seen in this one. */
  ghost predicate Tracked(links: Links, k: Key, before: map<int, nat>)
    requires k in links.table
  {
    && IsExact(links.table[k], Counted(links, k)) && links.table[k].repetitions >= 1
    && links.table[k].repetitions <= CountOf(before, k.0) + Ahead(links.seen, k)
    && links.table[k].repetitions <= CountOf(before, k.1) + Ahead(links.seen, k)
  }

  function Ahead(seen: set<Key>, k: Key): nat {
    if k in seen then 1 else 0
  }

  ghost predicate AllTracked(links: Links, before: map<int, nat>, patterns: set<int>) {
    && (forall k :: k in links.table ==> Tracked(links, k, before))
    && (forall k :: k in links.counted ==> k in links.table)
    && (forall k :: k in links.seen ==> k in links.table && k.0 in patterns && k.1 in patterns)
  }

  lemma GetOk(links: Links, k: Key, before: map<int, nat>, patterns: set<int>)
    requires AllTracked(links, before, patterns)
    ensures IsExact(Get(links, k), Counted(links, k))
    ensures Get(links, k).repetitions <= CountOf(before, k.0) + Ahead(links.seen, k)
    ensures Get(links, k).repetitions <= CountOf(before, k.1) + Ahead(links.seen, k)
  {
    if k in links.table {
      assert Tracked(links, k, before);
    } else {
      NewLinkOk();
    }
  }

  /** A pair that was seen already in this slice. */
  lemma SeenTracked(p: Parameters, links: Links, k: Key, now: real, before: map<int, nat>, patterns: set<int>)
    requires Defined(p) && AllTracked(links, before, patterns) && k in links.seen
    ensures Tracked(links.(table := links.table[k := Forgotten(p, Get(links, k), now)]), k, before)
  {
    assert Tracked(links, k, before);
  }

  /** A pair seen for the first time in this slice. */
  lemma NewTracked(p: Parameters, links: Links, k: Key, proximity: real, dt: real, now: real,
                   before: map<int, nat>, patterns: set<int>)
    requires Defined(p) && AllTracked(links, before, patterns) && k !in links.seen
    ensures Tracked(Links(links.table[k := Reinforced(p, Forgotten(p, Get(links, k), now), proximity, dt, now)],
                          links.seen + {k}, links.counted[k := Counted(links, k) + [dt]]), k, before)
  {
    GetOk(links, k, before, patterns);
    ReinforcedExact(p, Get(links, k), proximity, dt, now, Counted(links, k));
  }

  /** The link of the pair after the pair was processed. */
  lemma PairTracked(p: Parameters, links: Links, a: Occurrence, b: Occurrence, now: real, before: map<int, nat>,
                    patterns: set<int>)
    requires Defined(p) && AllTracked(links, before, patterns) && a.pattern != b.pattern
    requires Proximity(p, a, b) >= p.minProximity
    ensures var k := KeyOf(a.pattern, b.pattern);
            k in Paired(p, links, a, b, now).table && Tracked(Paired(p, links, a, b, now), k, before)
  {
    var k := KeyOf(a.pattern, b.pattern);
    if k in links.seen {
      SeenTracked(p, links, k, now, before, patterns);
    } else {
      NewTracked(p, links, k, Proximity(p, a, b), Displacement(a, b), now, before, patterns);
    }
  }

  lemma PairedKeeps(p: Parameters, links: Links, a: Occurrence, b: Occurrence, now: real, before: map<int, nat>,
                    patterns: set<int>)
    requires Defined(p) && AllTracked(links, before, patterns) && a.pattern in patterns && b.pattern in patterns
    ensures AllTracked(Paired(p, links, a, b, now), before, patterns)
  {
    if a.pattern != b.pattern && Proximity(p, a, b) >= p.minProximity {
      var k := KeyOf(a.pattern, b.pattern);
      var after := Paired(p, links, a, b, now);
      PairTracked(p, links, a, b, now, before, patterns);
      forall other | other in after.table
        ensures Tracked(after, other, before)
      {
        if other != k {
          OtherLink(p, links, a, b, now, other);
          assert Tracked(links, other, before);
        }
      }
      KeysKept(p, links, a, b, now, before, patterns);
    }
  }

  lemma OtherLink(p: Parameters, links: Links, a: Occurrence, b: Occurrence, now: real, other: Key)
    requires Defined(p) && other != KeyOf(a.pattern, b.pattern)
    ensures var after := Paired(p, links, a, b, now);
            && (other in after.table <==> other in links.table)
            && (other in links.table ==> after.table[other] == links.table[other])
            && Counted(after, other) == Counted(links, other) && (other in after.seen <==> other in links.seen)
  {}

  lemma KeysKept(p: Parameters, links: Links, a: Occurrence, b: Occurrence, now: real, before: map<int, nat>,
                 patterns: set<int>)
    requires Defined(p) && AllTracked(links, before, patterns) && a.pattern in patterns && b.pattern in patterns
    ensures var after := Paired(p, links, a, b, now);
            && (forall k :: k in after.counted ==> k in after.table)
            && (forall k :: k in after.seen ==> k in after.table && k.0 in patterns && k.1 in patterns)
  {}

  /** At the end of the slice both patterns have caught up. */
  lemma SliceEnds(links: Links, before: map<int, nat>, patterns: set<int>)
    requires AllTracked(links, before, patterns)
    ensures AllTracked(links.(seen := {}), Bumped(before, patterns), {})
  {
    var after := links.(seen := {});
    forall k | k in after.table
      ensures Tracked(after, k, Bumped(before, patterns))
    {
      assert Tracked(links, k, before);
    }
  }

  lemma SliceBegins(links: Links, before: map<int, nat>, patterns: set<int>)
    requires AllTracked(links, before, {}) && links.seen == {}
    ensures AllTracked(links, before, patterns)
  {
    forall k | k in links.table
      ensures Tracked(links, k, before)
    {}
  }

  // ---------- the order of the occurrences ----------

  predicate Before(a: Occurrence, b: Occurrence) {
    a.Center() < b.Center() || (a.Center() == b.Center() && a.pattern <= b.pattern)
  }

  predicate SameKey(a: Occurrence, b: Occurrence) {
    a.Center() == b.Center() && a.pattern == b.pattern
  }

  /** `x` goes behind everything that is not after it. */
  function Inserted(items: seq<Occurrence>, x: Occurrence): seq<Occurrence> {
    if items == [] || Before(items[|items| - 1], x) then items + [x]
    else Inserted(items[..|items| - 1], x) + [items[|items| - 1]]
  }

  /** The occurrences by center and pattern; those with the same key stay in the order given. */
  function Sorted(occurrences: seq<Occurrence>): seq<Occurrence> {
    if occurrences == [] then []
    else Inserted(Sorted(occurrences[..|occurrences| - 1]), occurrences[|occurrences| - 1])
  }

  ghost predicate Ordered(items: seq<Occurrence>) {
    forall i, j :: 0 <= i < j < |items| ==> Before(items[i], items[j])
  }

  /** The occurrences with the key of `x`, in their order. */
  function Alike(items: seq<Occurrence>, x: Occurrence): seq<Occurrence> {
    if items == [] then []
    else
      var rest, last := Alike(items[..|items| - 1], x), items[|items| - 1];
      if SameKey(last, x) then rest + [last] else rest
  }

  /** The same occurrences in order, those with the same key in the order given. */
  ghost predicate IsStableSorting(items: seq<Occurrence>, occurrences: seq<Occurrence>) {
    Ordered(items) && forall x :: Alike(items, x) == Alike(occurrences, x)
  }

  lemma AlikeAppended(items: seq<Occurrence>, y: Occurrence, x: Occurrence)
    ensures Alike(items + [y], x) == if SameKey(y, x) then Alike(items, x) + [y] else Alike(items, x)
  {
    assert (items + [y])[..|items|] == items;
  }

  lemma {:induction false} AlikeInserted(items: seq<Occurrence>, y: Occurrence, x: Occurrence)
    ensures Alike(Inserted(items, y), x) == if SameKey(y, x) then Alike(items, x) + [y] else Alike(items, x)
  {
    if items == [] || Before(items[|items| - 1], y) {
      AlikeAppended(items, y, x);
    } else {
      var front, last := items[..|items| - 1], items[|items| - 1];
      AlikeInserted(front, y, x);
      AlikeAppended(Inserted(front, y), last, x);
    }
  }

  lemma {:induction false} InsertedItems(items: seq<Occurrence>, y: Occurrence)
    ensures multiset(Inserted(items, y)) == multiset(items) + multiset{y}
  {
    if items != [] {
      var front, last := items[..|items| - 1], items[|items| - 1];
      assert items == front + [last];
      InsertedItems(front, y);
    }
  }

  lemma {:induction false} InsertedOrdered(items: seq<Occurrence>, y: Occurrence)
    requires Ordered(items)
    ensures Ordered(Inserted(items, y))
  {
    if items == [] || Before(items[|items| - 1], y) {
      BeforeLast(items, y);
      OrderedAppended(items, y);
    } else {
      var front, last := items[..|items| - 1], items[|items| - 1];
      InsertedOrdered(front, y);
      InsertedItems(front, y);
      AllBefore(Inserted(front, y), front, y, last);
      OrderedAppended(Inserted(front, y), last);
    }
  }

  lemma OrderedAppended(items: seq<Occurrence>, y: Occurrence)
    requires Ordered(items) && forall i :: 0 <= i < |items| ==> Before(items[i], y)
    ensures Ordered(items + [y])
  {}

  lemma BeforeTransitive(a: Occurrence, b: Occurrence, c: Occurrence)
    requires Before(a, b) && Before(b, c)
    ensures Before(a, c)
  {}

  lemma BeforeLast(items: seq<Occurrence>, y: Occurrence)
    requires Ordered(items) && (items != [] ==> Before(items[|items| - 1], y))
    ensures forall i :: 0 <= i < |items| ==> Before(items[i], y)
  {
    forall i | 0 <= i < |items|
      ensures Before(items[i], y)
    {
      if i < |items| - 1 {
        BeforeTransitive(items[i], items[|items| - 1], y);
      }
    }
  }

  lemma AllBefore(more: seq<Occurrence>, items: seq<Occurrence>, y: Occurrence, last: Occurrence)
    requires multiset(more) == multiset(items) + multiset{y} && Before(y, last)
    requires forall i :: 0 <= i < |items| ==> Before(items[i], last)
    ensures forall i :: 0 <= i < |more| ==> Before(more[i], last)
  {
    forall i | 0 <= i < |more|
      ensures Before(more[i], last)
    {
      assert more[i] in multiset(more);
      assert more[i] == y || more[i] in multiset(items);
    }
  }

  lemma {:induction false} SortedStable(occurrences: seq<Occurrence>)
    ensures IsStableSorting(Sorted(occurrences), occurrences)
    ensures multiset(Sorted(occurrences)) == multiset(occurrences)
  {
    if occurrences != [] {
      var front, last := occurrences[..|occurrences| - 1], occurrences[|occurrences| - 1];
      assert occurrences == front + [last];
      SortedStable(front);
      InsertedOrdered(Sorted(front), last);
      InsertedItems(Sorted(front), last);
      forall x
        ensures Alike(Sorted(occurrences), x) == Alike(occurrences, x)
      {
        AlikeInserted(Sorted(front), last, x);
      }
    }
  }

  lemma {:induction false} AlikeMembers(items: seq<Occurrence>, x: Occurrence)
    ensures forall y :: y in Alike(items, x) ==> y in items && SameKey(y, x)
  {
    if items != [] {
      AlikeMembers(items[..|items| - 1], x);
    }
  }

  /** The last one in the first order cannot come before the last one in the second. */
  lemma NotBefore(items: seq<Occurrence>, others: seq<Occurrence>)
    requires items != [] && others != [] && Ordered(items)
    requires forall x :: Alike(items, x) == Alike(others, x)
    ensures Before(others[|others| - 1], items[|items| - 1])
  {
    var last := others[|others| - 1];
    assert last in Alike(others, last);
    AlikeMembers(items, last);
    assert last in items;
    var i :| 0 <= i < |items| && items[i] == last;
    assert i < |items| - 1 ==> Before(items[i], items[|items| - 1]);
  }

  lemma LastAlike(items: seq<Occurrence>)
    requires items != []
    ensures var last := items[|items| - 1];
            Alike(items, last) == Alike(items[..|items| - 1], last) + [last]
  {}

  lemma AlikeSameKey(items: seq<Occurrence>, x: Occurrence, y: Occurrence)
    requires SameKey(x, y)
    ensures Alike(items, x) == Alike(items, y)
  {}

  lemma LastEqual(items: seq<Occurrence>, others: seq<Occurrence>)
    requires items != [] && others != [] && SameKey(items[|items| - 1], others[|others| - 1])
    requires Alike(items, items[|items| - 1]) == Alike(others, items[|items| - 1])
    ensures items[|items| - 1] == others[|others| - 1]
  {
    LastAlike(items);
    LastAlike(others);
    AlikeSameKey(others, items[|items| - 1], others[|others| - 1]);
  }

  lemma FrontAlike(items: seq<Occurrence>, others: seq<Occurrence>, last: Occurrence, x: Occurrence)
    requires Alike(items + [last], x) == Alike(others + [last], x)
    ensures Alike(items, x) == Alike(others, x)
  {
    AlikeAppended(items, last, x);
    AlikeAppended(others, last, x);
    SameRest(Alike(items, x), Alike(others, x), last, SameKey(last, x));
  }

  lemma SameRest<T>(a: seq<T>, b: seq<T>, last: T, both: bool)
    requires (if both then a + [last] else a) == (if both then b + [last] else b)
    ensures a == b
  {
    if both {
      assert a == (a + [last])[..|a + [last]| - 1];
      assert b == (b + [last])[..|b + [last]| - 1];
    }
  }

  /** There is only one stable sorting. */
  lemma {:induction false} StableSortingUnique(items: seq<Occurrence>, others: seq<Occurrence>)
    requires Ordered(items) && Ordered(others) && forall x :: Alike(items, x) == Alike(others, x)
    ensures items == others
  {
    if items == [] {
      if others != [] {
        LastAlike(others);
      }
    } else if others == [] {
      LastAlike(items);
    } else {
      NotBefore(items, others);
      NotBefore(others, items);
      LastEqual(items, others);
      var a, b, last := items[..|items| - 1], others[..|others| - 1], items[|items| - 1];
      assert items == a + [last] && others == b + [last];
      forall x: Occurrence
        ensures Alike(a, x) == Alike(b, x)
      {
        FrontAlike(a, b, last, x);
      }
      StableSortingUnique(a, b);
    }
  }

  lemma SortedPatterns(occurrences: seq<Occurrence>)
    ensures forall x :: x in Sorted(occurrences) ==> x.pattern in Patterns(occurrences)
  {
    SortedStable(occurrences);
    forall x | x in Sorted(occurrences)
      ensures x.pattern in Patterns(occurrences)
    {
      assert x in multiset(Sorted(occurrences));
      assert x in occurrences;
    }
  }

  // ---------- all slices ----------

  /** The links after one more slice. */
  function Ingested(p: Parameters, links: Links, rs: RealitySlice): Links
    requires Defined(p)
  {
    PairedFrom(p, links, Sorted(rs.occurrences), 0, rs.end).(seen := {})
  }

  /** The links after all slices. */
  function History(p: Parameters, slices: seq<RealitySlice>): Links
    requires slices == [] || Defined(p)
  {
    if slices == [] then Links(map[], {}, map[])
    else Ingested(p, History(p, slices[..|slices| - 1]), slices[|slices| - 1])
  }

  /** In how many slices each pattern occurred. */
  function Occurring(slices: seq<RealitySlice>): map<int, nat> {
    if slices == [] then map[]
    else Bumped(Occurring(slices[..|slices| - 1]), Patterns(slices[|slices| - 1].occurrences))
  }

  lemma {:induction false} RowKeeps(p: Parameters, links: Links, items: seq<Occurrence>, i: nat, j: nat, now: real,
                                    before: map<int, nat>, patterns: set<int>)
    requires Defined(p) && AllTracked(links, before, patterns) && i < |items|
    requires forall x :: x in items ==> x.pattern in patterns
    ensures AllTracked(PairedRow(p, links, items, i, j, now), before, patterns)
    decreases |items| - j
  {
    if j < |items| {
      PairedKeeps(p, links, items[i], items[j], now, before, patterns);
      RowKeeps(p, Paired(p, links, items[i], items[j], now), items, i, j + 1, now, before, patterns);
    }
  }

  lemma {:induction false} SliceKeeps(p: Parameters, links: Links, items: seq<Occurrence>, i: nat, now: real,
                                      before: map<int, nat>, patterns: set<int>)
    requires Defined(p) && AllTracked(links, before, patterns)
    requires forall x :: x in items ==> x.pattern in patterns
    ensures AllTracked(PairedFrom(p, links, items, i, now), before, patterns)
    decreases |items| - i
  {
    if i < |items| {
      RowKeeps(p, links, items, i, i + 1, now, before, patterns);
      SliceKeeps(p, PairedRow(p, links, items, i, i + 1, now), items, i + 1, now, before, patterns);
    }
  }

  /** After any slices: exact moments, and no link counted more often than either of its patterns. */
  lemma {:induction false} HistoryTracked(p: Parameters, slices: seq<RealitySlice>)
    requires slices == [] || Defined(p)
    ensures AllTracked(History(p, slices), Occurring(slices), {}) && History(p, slices).seen == {}
  {
    if slices != [] {
      var front, last := slices[..|slices| - 1], slices[|slices| - 1];
      var patterns := Patterns(last.occurrences);
      HistoryTracked(p, front);
      SortedPatterns(last.occurrences);
      SliceBegins(History(p, front), Occurring(front), patterns);
      SliceKeeps(p, History(p, front), Sorted(last.occurrences), 0, last.end, Occurring(front), patterns);
      SliceEnds(PairedFrom(p, History(p, front), Sorted(last.occurrences), 0, last.end), Occurring(front), patterns);
    }
  }

  // ---------- the range of the strengths ----------

  ghost predicate AllInRange(links: Links) {
    forall k :: k in links.table ==> InRange(links.table[k])
  }

  ghost predicate AlwaysInRange(p: Parameters)
    requires Defined(p)
  {
    forall slices :: (forall rs :: rs in slices ==> Proper(rs)) ==> AllInRange(History(p, slices))
  }

  lemma PairedInRange(p: Parameters, links: Links, a: Occurrence, b: Occurrence, now: real)
    requires Ordinary(p) && Defined(p) && p.tau > 0.0 && AllInRange(links)
    ensures AllInRange(Paired(p, links, a, b, now))
  {
    var k := KeyOf(a.pattern, b.pattern);
    NewLinkOk();
    ForgottenInRange(p, Get(links, k), now);
    ProximityInUnit(p, a, b);
    ReinforcedInRange(p, Forgotten(p, Get(links, k), now), Proximity(p, a, b), Displacement(a, b), now);
  }

  lemma {:induction false} RowInRange(p: Parameters, links: Links, items: seq<Occurrence>, i: nat, j: nat, now: real)
    requires Ordinary(p) && Defined(p) && p.tau > 0.0 && AllInRange(links) && i < |items|
    ensures AllInRange(PairedRow(p, links, items, i, j, now))
    decreases |items| - j
  {
    if j < |items| {
      PairedInRange(p, links, items[i], items[j], now);
      RowInRange(p, Paired(p, links, items[i], items[j], now), items, i, j + 1, now);
    }
  }

  lemma {:induction false} SliceInRange(p: Parameters, links: Links, items: seq<Occurrence>, i: nat, now: real)
    requires Ordinary(p) && Defined(p) && p.tau > 0.0 && AllInRange(links)
    ensures AllInRange(PairedFrom(p, links, items, i, now))
    decreases |items| - i
  {
    if i < |items| {
      RowInRange(p, links, items, i, i + 1, now);
      SliceInRange(p, PairedRow(p, links, items, i, i + 1, now), items, i + 1, now);
    }
  }

  lemma {:induction false} HistoryInRange(p: Parameters, slices: seq<RealitySlice>)
    requires Ordinary(p) && Defined(p) && p.tau > 0.0
    ensures AllInRange(History(p, slices))
  {
    if slices != [] {
      var front, last := slices[..|slices| - 1], slices[|slices| - 1];
      HistoryInRange(p, front);
      SliceInRange(p, History(p, front), Sorted(last.occurrences), 0, last.end);
    }
  }

  /** One slice with the pattern 0 at time 0 and the pattern 1 at time `d`. */
  function Apart(d: real): RealitySlice {
    RealitySlice(0.0, d, [Occurrence(0, 0.0, 0.0), Occurrence(1, d, d)])
  }

  function Key01(): Key {
    (0, 1)
  }

  lemma SortedTwo(a: Occurrence, b: Occurrence)
    requires Before(a, b)
    ensures Sorted([a, b]) == [a, b]
  {
    assert [a, b][..1] == [a];
    assert [a][..0] == [];
    assert Sorted([a]) == Inserted(Sorted([]), a) == [a];
    assert Inserted([a], b) == [a] + [b];
  }

  lemma SortedApart(d: real)
    requires d > 0.0
    ensures Proper(Apart(d)) && Sorted(Apart(d).occurrences) == Apart(d).occurrences
  {
    SortedTwo(Occurrence(0, 0.0, 0.0), Occurrence(1, d, d));
  }

  /** The first observation of a pair gives the strength eta times the proximity. */
  lemma FirstStrength(p: Parameters, d: real)
    requires Defined(p) && d > 0.0 && p.exp(-d / p.tau) >= p.minProximity
    ensures Key01() in History(p, [Apart(d)]).table
    ensures History(p, [Apart(d)]).table[Key01()].rho == p.eta * p.exp(-d / p.tau)
  {
    var a, b := Occurrence(0, 0.0, 0.0), Occurrence(1, d, d);
    var none := Links(map[], {}, map[]);
    SortedApart(d);
    assert [Apart(d)][..0] == [];
    assert History(p, [Apart(d)]) == Ingested(p, none, Apart(d));
    assert IntervalDistance(a, b) == d;
    var pair := Paired(p, none, a, b, d);
    assert PairedRow(p, none, [a, b], 0, 1, d) == PairedRow(p, pair, [a, b], 0, 2, d) == pair;
    assert PairedFrom(p, none, [a, b], 0, d) == PairedFrom(p, pair, [a, b], 1, d);
    assert PairedRow(p, pair, [a, b], 1, 2, d) == pair;
    assert PairedFrom(p, pair, [a, b], 1, d) == PairedFrom(p, pair, [a, b], 2, d) == pair;
    FromZero(p.eta * p.exp(-d / p.tau));
  }

  lemma FromZero(w: real)
    ensures 0.0 + w * (1.0 - 0.0) == w
  {}

  /** How far apart, in negative time constants, two occurrences must be for their link to leave the range. */
  function TooFar(p: Parameters): real
    requires p.eta > 0.0
  {
    1.0 / p.eta + if p.minProximity > 0.0 then p.minProximity else 0.0
  }

  /** With a negative time constant one slice is enough to take a strength above 1. */
  lemma NegativeConstantBreaks(p: Parameters)
    requires Ordinary(p) && Defined(p) && p.tau < 0.0
    ensures var d := TooFar(p) * -p.tau;
      && d > 0.0 && Proper(Apart(d)) && Key01() in History(p, [Apart(d)]).table
      && History(p, [Apart(d)]).table[Key01()].rho > 1.0
  {
    TooFarBreaks(p, TooFar(p), TooFar(p) * -p.tau, 1.0 / p.eta);
  }

  lemma TooFarBreaks(p: Parameters, y: real, d: real, inverse: real)
    requires Ordinary(p) && Defined(p) && p.tau < 0.0 && d == y * -p.tau
    requires inverse == 1.0 / p.eta && y >= inverse && y >= p.minProximity
    ensures d > 0.0 && Proper(Apart(d)) && Key01() in History(p, [Apart(d)]).table
    ensures History(p, [Apart(d)]).table[Key01()].rho > 1.0
  {
    Inverse(p.eta, inverse);
    ProductPositive(y, -p.tau);
    Unscaled(y, p.tau, d);
    assert p.exp(y) >= 1.0 + y;
    SortedApart(d);
    FirstStrength(p, d);
    AboveOne(p.eta, inverse, p.exp(y));
  }

  lemma Inverse(eta: real, inverse: real)
    requires eta > 0.0 && inverse == 1.0 / eta
    ensures inverse > 0.0 && inverse * eta == 1.0
  {}

  lemma Unscaled(y: real, tau: real, d: real)
    requires tau < 0.0 && d == y * -tau
    ensures -d / tau == y
  {
    assert -d == y * tau;
  }

  function Weight(eta: real, proximity: real): real {
    eta * proximity
  }

  lemma AboveOne(eta: real, inverse: real, proximity: real)
    requires eta > 0.0 && inverse * eta == 1.0 && proximity > inverse
    ensures eta * proximity > 1.0
  {
    assert Weight(eta, inverse) == 1.0;
    WeightGrows(eta, inverse, proximity, 1.0);
  }

  lemma WeightGrows(eta: real, less: real, more: real, w: real)
    requires eta > 0.0 && less < more && Weight(eta, less) == w
    ensures Weight(eta, more) > w
  {
    ProductPositive(eta, more - less);
    assert eta * (more - less) == eta * more - eta * less;
  }

  /** With the time constant -1 and the largest eta, two occurrences one time unit apart do it. */
  lemma MinusOneBreaks(p: Parameters)
    requires Defined(p) && p.tau == -1.0 && p.eta == 1.0 && p.minProximity <= 2.0 && p.exp(1.0) >= 2.0
    ensures Proper(Apart(1.0)) && Key01() in History(p, [Apart(1.0)]).table
    ensures History(p, [Apart(1.0)]).table[Key01()].rho > 1.0
  {
    SortedApart(1.0);
    Unscaled(1.0, p.tau, 1.0);
    FirstStrength(p, 1.0);
    OneTimes(p.eta, p.exp(1.0));
  }

  lemma OneTimes(eta: real, e: real)
    requires eta == 1.0
    ensures eta * e == e
  {}

  /** Every link stays in range after all slices there can be exactly if the time constant is positive. */
  lemma InRangeExactlyIfPositive(p: Parameters)
    requires Ordinary(p) && p.tau != 0.0
    ensures Defined(p)
    ensures AlwaysInRange(p) <==> p.tau > 0.0
  {
    OrdinaryDefined(p);
    if p.tau > 0.0 {
      forall slices | forall rs :: rs in slices ==> Proper(rs)
        ensures AllInRange(History(p, slices))
      {
        HistoryInRange(p, slices);
      }
    } else {
      NegativeConstantBreaks(p);
      var slices := [Apart(TooFar(p) * -p.tau)];
      assert !InRange(History(p, slices).table[Key01()]);
      assert !AllInRange(History(p, slices));
      assert forall rs :: rs in slices ==> Proper(rs);
    }
  }

  // ---------- the associator ----------

  datatype Direction = Forwards | Simultaneously | Backwards

  /** Shares of the three directions; of equal ones the one with the greater name dominates. */
  function Dominant(link: Association): Direction {
    var total := link.forward + link.simultaneous + link.backward;
    var f, s, b := Share(link.forward, total), Share(link.simultaneous, total), Share(link.backward, total);
    if s >= f && s >= b then Simultaneously else if f >= b then Forwards else Backwards
  }

  function Share(x: real, total: real): real {
    if total == 0.0 then 0.0 else x / total
  }

  class Associator {
    const p: Parameters
    var links: map<Key, Association>
    var totalSlices: nat
    var patternSlices: map<int, nat>
    ghost var slices: seq<RealitySlice>

    ghost predicate Valid()
      reads this
    {
      && (slices == [] || Defined(p)) && links == History(p, slices).table
      && totalSlices == |slices| && patternSlices == Occurring(slices)
    }

    constructor (p: Parameters)
      ensures Valid() && slices == [] && this.p == p
    {
      this.p := p;
      links, totalSlices, patternSlices, slices := map[], 0, map[], [];
    }

    /** All pairs of the occurrences, in the order of center and pattern. */
    method Ingest(rs: RealitySlice)
      requires Valid() && Proper(rs) && Defined(p)
      modifies this
      ensures Valid() && slices == old(slices) + [rs]
    {
      totalSlices := totalSlices + 1;
      patternSlices := Bumped(patternSlices, Patterns(rs.occurrences));
      HistoryTracked(p, slices);
      ghost var seen, counted := PairUp(Sorted(rs.occurrences), rs.end, History(p, slices).counted);
      assert (slices + [rs])[..|slices|] == slices;
      slices := slices + [rs];
    }

    method PairUp(items: seq<Occurrence>, now: real, ghost counted0: map<Key, seq<real>>)
        returns (seen: set<Key>, ghost counted: map<Key, seq<real>>)
      requires Defined(p)
      modifies this`links
      ensures Links(links, seen, counted) == PairedFrom(p, Links(old(links), {}, counted0), items, 0, now)
    {
      seen, counted := {}, counted0;
      ghost var whole := PairedFrom(p, Links(links, {}, counted), items, 0, now);
      for i := 0 to |items|
        invariant whole == PairedFrom(p, Links(links, seen, counted), items, i, now)
      {
        ghost var row := PairedRow(p, Links(links, seen, counted), items, i, i + 1, now);
        for j := i + 1 to |items|
          invariant row == PairedRow(p, Links(links, seen, counted), items, i, j, now)
        {
          seen, counted := Pair(items[i], items[j], now, seen, counted);
        }
      }
    }

    /** One pair of occurrences. */
    method Pair(a: Occurrence, b: Occurrence, now: real, seen0: set<Key>, ghost counted0: map<Key, seq<real>>)
        returns (seen: set<Key>, ghost counted: map<Key, seq<real>>)
      requires Defined(p)
      modifies this`links
      ensures Links(links, seen, counted) == Paired(p, Links(old(links), seen0, counted0), a, b, now)
    {
      seen, counted := seen0, counted0;
      if a.pattern == b.pattern {
        return;
      }
      var proximity := Proximity(p, a, b);
      if proximity < p.minProximity {
        return;
      }
      var k := KeyOf(a.pattern, b.pattern);
      var link := Forgotten(p, if k in links then links[k] else NEW_LINK, now);
      if k in seen {
        links := links[k := link];
        return;
      }
      var dt := Displacement(a, b);
      seen := seen + {k};
      links := links[k := Reinforced(p, link, proximity, dt, now)];
      counted := counted[k := (if k in counted then counted[k] else []) + [dt]];
    }

    /** The share of the slices of the antecedent that contain the pair; the limit of one never binds. */
    method DirectionalCoverage(k: Key) returns (coverage: real)
      requires Valid() && k in links
      ensures var n := Denominator(links[k], patternSlices, k);
              n > 0 && coverage == links[k].repetitions as real / n as real && 0.0 < coverage <= 1.0
    {
      HistoryTracked(p, slices);
      assert Tracked(History(p, slices), k, patternSlices);
      var link := links[k];
      var n := Denominator(link, patternSlices, k);
      AtMostOne(link.repetitions, n);
      coverage := if n > 0 then Least(1.0, link.repetitions as real / n as real) else 0.0;
    }
  }

  function Denominator(link: Association, counts: map<int, nat>, k: Key): nat {
    match Dominant(link)
    case Forwards => CountOf(counts, k.0)
    case Backwards => CountOf(counts, k.1)
    case Simultaneously =>
      if CountOf(counts, k.0) < CountOf(counts, k.1) then CountOf(counts, k.1) else CountOf(counts, k.0)
  }

  lemma AtMostOne(r: nat, n: nat)
    requires 0 < r <= n
    ensures 0.0 < r as real / n as real <= 1.0
  {
    var x, y := r as real, n as real;
    var q := x / y;
    assert q * y == x;
    if q > 1.0 {
      ProductPositive(q - 1.0, y);
    } else if q <= 0.0 {
      ProductNotNegative(-q, y);
    }
  }
}
