/**
  What the temporal associator does, said of the slice and its occurrences: which pairs count, for which direction,
  how fast a link is forgotten, and what its coverage is a share of.
*/
module TemporalLaws {
  import opened Common
  import opened Moments
  import opened TemporalAssociator

  // ---------- distance and proximity ----------

  ghost predicate Inside(x: real, o: Occurrence) {
    o.start <= x <= o.end
  }

  /** The distance of two intervals is the least distance of their points. */
  lemma DistanceIsLeast(a: Occurrence, b: Occurrence) returns (x: real, y: real)
    requires a.start <= a.end && b.start <= b.end
    ensures Inside(x, a) && Inside(y, b) && Abs(y - x) == IntervalDistance(a, b)
    ensures forall u, v :: Inside(u, a) && Inside(v, b) ==> Abs(v - u) >= IntervalDistance(a, b)
  {
    if a.end < b.start {
      x, y := a.end, b.start;
    } else if b.end < a.start {
      x, y := a.start, b.end;
    } else {
      x := if a.start < b.start then b.start else a.start;
      y := x;
    }
  }

  /** At a distance of `h` time constants the proximity is exp(-h). */
  lemma ProximityByConstants(p: Parameters, a: Occurrence, b: Occurrence, h: real)
    requires p.tau != 0.0 && IntervalDistance(a, b) == h * p.tau
    ensures Proximity(p, a, b) == p.exp(-h)
  {
    Quotient(IntervalDistance(a, b), p.tau, h);
  }

  lemma Quotient(d: real, tau: real, h: real)
    requires tau != 0.0 && d == h * tau
    ensures -d / tau == -h
  {
    assert -d == -h * tau;
  }

  // ---------- forgetting ----------

  /**
    A link is weakened by exp(-h) when the rate times the time passed is `h` times its slowness, which grows with the
    logarithm of its repetitions; nothing else of it changes.
  */
  lemma ForgottenByLife(p: Parameters, link: Association, now: real, h: real)
    requires Defined(p) && 0.0 < link.lastTime < now
    requires p.lambda0 * (now - link.lastTime)
          == h * (1.0 + p.consolidation * p.log(1.0 + link.repetitions as real))
    ensures var after := Forgotten(p, link, now);
            && after.rho == link.rho * p.exp(-h) && after.forward == link.forward * p.exp(-h)
            && after.simultaneous == link.simultaneous * p.exp(-h) && after.backward == link.backward * p.exp(-h)
            && after == link.(rho := after.rho, forward := after.forward, simultaneous := after.simultaneous,
                              backward := after.backward)
  {
    FadedByLife(p.lambda0, Slowness(p, link.repetitions), now - link.lastTime, h);
    assert Faded(p, link, now) == h;
  }

  lemma FadedByLife(lambda: real, slowness: real, elapsed: real, h: real)
    requires slowness != 0.0 && lambda * elapsed == h * slowness
    ensures lambda / slowness * elapsed == h
  {
    var q := lambda / slowness;
    assert q * slowness == lambda;
    Cancel(q, slowness, elapsed, h);
  }

  lemma Cancel(q: real, s: real, e: real, h: real)
    requires s != 0.0 && q * s * e == h * s
    ensures q * e == h
  {
    assert (q * e - h) * s == 0.0;
  }

  /** A link that was never reinforced at a positive time, or not before now, is not weakened. */
  lemma NotForgotten(p: Parameters, link: Association, now: real)
    requires Defined(p) && (link.lastTime <= 0.0 || now <= link.lastTime)
    ensures Forgotten(p, link, now) == link
  {}

  // ---------- one pair ----------

  /** What one observation of `x` and `y`, `x` with the smaller pattern, makes of their link. */
  lemma PairDirection(p: Parameters, links: Links, x: Occurrence, y: Occurrence, now: real)
    requires Defined(p) && x.pattern < y.pattern && Proximity(p, x, y) >= p.minProximity
    requires (x.pattern, y.pattern) !in links.seen && p.simultaneousDelta >= 0.0
    ensures var k, w := (x.pattern, y.pattern), p.eta * Proximity(p, x, y);
            var before, after := Forgotten(p, Get(links, k), now), Paired(p, links, x, y, now);
            var dt := y.Center() - x.Center();
            && k in after.table && k in after.seen && Counted(after, k) == Counted(links, k) + [dt]
            && var link := after.table[k];
               && 1.0 - link.rho == (1.0 - w) * (1.0 - before.rho)
               && link.forward == before.forward + (if dt > p.simultaneousDelta then w else 0.0)
               && link.backward == before.backward + (if -dt > p.simultaneousDelta then w else 0.0)
               && link.simultaneous
                  == before.simultaneous + (if dt <= p.simultaneousDelta && -dt <= p.simultaneousDelta then w else 0.0)
               && link.repetitions == before.repetitions + 1 && link.lastTime == now
  {
    var k := (x.pattern, y.pattern);
    var before := Forgotten(p, Get(links, k), now);
    Towards(before.rho, p.eta * Proximity(p, x, y));
  }

  lemma Towards(rho: real, w: real)
    ensures 1.0 - (rho + w * (1.0 - rho)) == (1.0 - w) * (1.0 - rho)
  {
    Complement(w, 1.0 - rho);
  }

  // ---------- one slice ----------

  /** Occurrences `i` and `j` of the sorted slice are near enough and carry the two patterns of the key. */
  ghost predicate Qualifies(p: Parameters, items: seq<Occurrence>, k: Key, i: nat, j: nat)
    requires Defined(p)
  {
    && i < j < |items| && items[i].pattern != items[j].pattern && k == KeyOf(items[i].pattern, items[j].pattern)
    && Proximity(p, items[i], items[j]) >= p.minProximity
  }

  ghost predicate Sooner(i: nat, j: nat, i': nat, j': nat) {
    i < i' || (i == i' && j < j')
  }

  /** The first pair of the sorted slice that qualifies for the key. */
  ghost predicate IsFirst(p: Parameters, items: seq<Occurrence>, k: Key, i: nat, j: nat)
    requires Defined(p)
  {
    && Qualifies(p, items, k, i, j)
    && forall i', j' :: Qualifies(p, items, k, i', j') ==> !Sooner(i', j', i, j)
  }

  /** The link after the pair was observed. */
  function ObservedLink(p: Parameters, link: Association, a: Occurrence, b: Occurrence, now: real): Association
    requires Defined(p)
  {
    Reinforced(p, Forgotten(p, link, now), Proximity(p, a, b), Displacement(a, b), now)
  }

  ghost predicate Unchanged(start: Links, links: Links, k: Key) {
    (k in links.table <==> k in start.table) && (k in start.table ==> links.table[k] == start.table[k])
  }

  ghost predicate ChangedBy(p: Parameters, start: Links, links: Links, items: seq<Occurrence>, now: real, k: Key,
                            i: nat, j: nat)
    requires Defined(p) && i < |items| && j < |items|
  {
    k in links.table && links.table[k] == ObservedLink(p, Get(start, k), items[i], items[j], now)
  }

  /** Where a key stands when all pairs sooner than (i0, j0) are done. */
  ghost predicate KeyDone(p: Parameters, start: Links, links: Links, items: seq<Occurrence>, now: real, k: Key,
                          i0: nat, j0: nat)
    requires Defined(p)
  {
    if k in links.seen then
      exists i, j ::
        IsFirst(p, items, k, i, j) && Sooner(i, j, i0, j0) && ChangedBy(p, start, links, items, now, k, i, j)
    else
      Unchanged(start, links, k) && forall i, j :: Qualifies(p, items, k, i, j) ==> !Sooner(i, j, i0, j0)
  }

  ghost predicate AllDone(p: Parameters, start: Links, links: Links, items: seq<Occurrence>, now: real, i0: nat,
                          j0: nat)
    requires Defined(p)
  {
    forall k: Key :: KeyDone(p, start, links, items, now, k, i0, j0)
  }

  /** A key that was seen in this slice is not forgotten again, so the pair changes nothing any more. */
  lemma SeenAgain(p: Parameters, start: Links, links: Links, items: seq<Occurrence>, now: real, i0: nat, j0: nat)
    requires Defined(p) && i0 < |items| && j0 < |items| && AllDone(p, start, links, items, now, i0, j0)
    requires KeyOf(items[i0].pattern, items[j0].pattern) in links.seen
    ensures Paired(p, links, items[i0], items[j0], now) == links
  {
    var k := KeyOf(items[i0].pattern, items[j0].pattern);
    assert KeyDone(p, start, links, items, now, k, i0, j0);
    assert k in links.table && links.table[k].lastTime == now;
    assert links.table[k := links.table[k]] == links.table;
  }

  lemma Skipped(p: Parameters, links: Links, a: Occurrence, b: Occurrence, now: real)
    requires Defined(p) && (a.pattern == b.pattern || Proximity(p, a, b) < p.minProximity)
    ensures Paired(p, links, a, b, now) == links
  {}

  /** The pair that is next after all that are sooner than (i0, j0). */
  lemma NextPair(i: nat, j: nat, i0: nat, j0: nat)
    ensures Sooner(i, j, i0, j0 + 1) <==> Sooner(i, j, i0, j0) || (i == i0 && j == j0)
  {}

  lemma KeyUntouched(p: Parameters, start: Links, links: Links, items: seq<Occurrence>, now: real, k: Key, i0: nat,
                     j0: nat)
    requires Defined(p) && KeyDone(p, start, links, items, now, k, i0, j0)
    requires k !in links.seen ==> !Qualifies(p, items, k, i0, j0)
    ensures KeyDone(p, start, links, items, now, k, i0, j0 + 1)
  {
    if k in links.seen {
      var i, j :| IsFirst(p, items, k, i, j) && Sooner(i, j, i0, j0)
                  && ChangedBy(p, start, links, items, now, k, i, j);
      assert Sooner(i, j, i0, j0 + 1);
    } else {
      forall i, j | Qualifies(p, items, k, i, j)
        ensures !Sooner(i, j, i0, j0 + 1)
      {
        NextPair(i, j, i0, j0);
      }
    }
  }

  lemma KeyObserved(p: Parameters, start: Links, links: Links, items: seq<Occurrence>, now: real, k: Key, i0: nat,
                    j0: nat)
    requires Defined(p) && KeyDone(p, start, links, items, now, k, i0, j0)
    requires k !in links.seen && Qualifies(p, items, k, i0, j0)
    ensures KeyDone(p, start, Paired(p, links, items[i0], items[j0], now), items, now, k, i0, j0 + 1)
  {
    assert IsFirst(p, items, k, i0, j0);
    assert Sooner(i0, j0, i0, j0 + 1);
    assert Get(links, k) == Get(start, k);
    assert ChangedBy(p, start, Paired(p, links, items[i0], items[j0], now), items, now, k, i0, j0);
  }

  lemma OtherKey(p: Parameters, start: Links, links: Links, items: seq<Occurrence>, now: real, k: Key, i0: nat, j0: nat)
    requires Defined(p) && i0 < |items| && j0 < |items| && k != KeyOf(items[i0].pattern, items[j0].pattern)
    requires KeyDone(p, start, links, items, now, k, i0, j0)
    ensures KeyDone(p, start, Paired(p, links, items[i0], items[j0], now), items, now, k, i0, j0 + 1)
  {
    var after := Paired(p, links, items[i0], items[j0], now);
    OtherLink(p, links, items[i0], items[j0], now, k);
    KeyUntouched(p, start, links, items, now, k, i0, j0);
    if k in links.seen {
      var i, j :| IsFirst(p, items, k, i, j) && Sooner(i, j, i0, j0 + 1)
                  && ChangedBy(p, start, links, items, now, k, i, j);
      assert ChangedBy(p, start, after, items, now, k, i, j);
    }
  }

  lemma PairDone(p: Parameters, start: Links, links: Links, items: seq<Occurrence>, now: real, i0: nat, j0: nat)
    requires Defined(p) && i0 < j0 < |items| && AllDone(p, start, links, items, now, i0, j0)
    ensures AllDone(p, start, Paired(p, links, items[i0], items[j0], now), items, now, i0, j0 + 1)
  {
    var a, b := items[i0], items[j0];
    var key, after, next := KeyOf(a.pattern, b.pattern), Paired(p, links, a, b, now), j0 + 1;
    forall k: Key
      ensures KeyDone(p, start, after, items, now, k, i0, next)
    {
      assert KeyDone(p, start, links, items, now, k, i0, j0);
      if k != key {
        OtherKey(p, start, links, items, now, k, i0, j0);
      } else if k in links.seen {
        SeenAgain(p, start, links, items, now, i0, j0);
        KeyUntouched(p, start, links, items, now, k, i0, j0);
      } else if Qualifies(p, items, k, i0, j0) {
        KeyObserved(p, start, links, items, now, k, i0, j0);
      } else {
        Skipped(p, links, a, b, now);
        KeyUntouched(p, start, links, items, now, k, i0, j0);
      }
    }
  }

  lemma {:induction false} RowDone(p: Parameters, start: Links, links: Links, items: seq<Occurrence>, i0: nat, j0: nat,
                                   now: real)
    requires Defined(p) && i0 < |items| && i0 < j0 <= |items| && AllDone(p, start, links, items, now, i0, j0)
    ensures AllDone(p, start, PairedRow(p, links, items, i0, j0, now), items, now, i0, |items|)
    decreases |items| - j0
  {
    if j0 < |items| {
      PairDone(p, start, links, items, now, i0, j0);
      RowDone(p, start, Paired(p, links, items[i0], items[j0], now), items, i0, j0 + 1, now);
    }
  }

  /** No pair lies between the end of one row and the beginning of the next. */
  lemma NextRow(p: Parameters, start: Links, links: Links, items: seq<Occurrence>, i0: nat, now: real)
    requires Defined(p) && AllDone(p, start, links, items, now, i0, |items|)
    ensures AllDone(p, start, links, items, now, i0 + 1, i0 + 2)
  {
    var i1, j1 := i0 + 1, i0 + 2;
    forall k: Key
      ensures KeyDone(p, start, links, items, now, k, i1, j1)
    {
      assert KeyDone(p, start, links, items, now, k, i0, |items|);
      if k in links.seen {
        var i, j :| IsFirst(p, items, k, i, j) && Sooner(i, j, i0, |items|)
                    && ChangedBy(p, start, links, items, now, k, i, j);
        assert Sooner(i, j, i0 + 1, i0 + 2);
      } else {
        forall i, j | Qualifies(p, items, k, i, j)
          ensures !Sooner(i, j, i0 + 1, i0 + 2)
        {
          assert !Sooner(i, j, i0, |items|);
        }
      }
    }
  }

  lemma {:induction false} RowsDone(p: Parameters, start: Links, links: Links, items: seq<Occurrence>, i0: nat,
                                    now: real)
    requires Defined(p) && i0 <= |items| && AllDone(p, start, links, items, now, i0, i0 + 1)
    ensures AllDone(p, start, PairedFrom(p, links, items, i0, now), items, now, |items|, |items| + 1)
    decreases |items| - i0
  {
    if i0 < |items| {
      var next := PairedRow(p, links, items, i0, i0 + 1, now);
      RowDone(p, start, links, items, i0, i0 + 1, now);
      NextRow(p, start, next, items, i0, now);
      RowsDone(p, start, next, items, i0 + 1, now);
    }
  }

  /**
    A slice changes exactly the links of the patterns that have a pair near enough, each of them once: by the first
    such pair in the order of the occurrences.
  */
  lemma SliceLaw(p: Parameters, links: Links, rs: RealitySlice, k: Key)
    requires Defined(p) && links.seen == {}
    ensures var items, after := Sorted(rs.occurrences), Ingested(p, links, rs);
            if exists i, j :: Qualifies(p, items, k, i, j) then
              exists i, j :: IsFirst(p, items, k, i, j) && ChangedBy(p, links, after, items, rs.end, k, i, j)
            else Unchanged(links, after, k)
  {
    var items := Sorted(rs.occurrences);
    var after := PairedFrom(p, links, items, 0, rs.end);
    forall key: Key
      ensures KeyDone(p, links, links, items, rs.end, key, 0, 1)
    {
      forall i, j | Qualifies(p, items, key, i, j)
        ensures !Sooner(i, j, 0, 1)
      {}
    }
    RowsDone(p, links, links, items, 0, rs.end);
    assert KeyDone(p, links, after, items, rs.end, k, |items|, |items| + 1);
    if k in after.seen {
      var i, j :| IsFirst(p, items, k, i, j) && ChangedBy(p, links, after, items, rs.end, k, i, j);
      assert ChangedBy(p, links, Ingested(p, links, rs), items, rs.end, k, i, j);
    } else {
      forall i, j
        ensures !Qualifies(p, items, k, i, j)
      {
        if Qualifies(p, items, k, i, j) {
          assert Sooner(i, j, |items|, |items| + 1);
        }
      }
    }
  }

  // ---------- coverage ----------

  /** The slices in which a pattern occurs. */
  ghost function SlicesWith(slices: seq<RealitySlice>, pattern: int): set<nat> {
    set i: nat | i < |slices| && pattern in Patterns(slices[i].occurrences)
  }

  lemma OneMoreSlice(slices: seq<RealitySlice>, rs: RealitySlice, pattern: int)
    ensures |SlicesWith(slices + [rs], pattern)|
         == |SlicesWith(slices, pattern)| + if pattern in Patterns(rs.occurrences) then 1 else 0
  {
    var before, after := SlicesWith(slices, pattern), SlicesWith(slices + [rs], pattern);
    forall i: nat
      ensures i in after <==> i in before || (i == |slices| && pattern in Patterns(rs.occurrences))
    {}
    if pattern in Patterns(rs.occurrences) {
      assert after == before + {|slices|};
    } else {
      assert after == before;
    }
  }

  lemma BumpedCount(counts: map<int, nat>, patterns: set<int>, pattern: int)
    ensures CountOf(Bumped(counts, patterns), pattern)
         == CountOf(counts, pattern) + if pattern in patterns then 1 else 0
  {}

  lemma {:induction false} OccurringCounts(slices: seq<RealitySlice>, pattern: int)
    ensures CountOf(Occurring(slices), pattern) == |SlicesWith(slices, pattern)|
  {
    if slices == [] {
      assert SlicesWith(slices, pattern) == {};
    } else {
      var front, last := slices[..|slices| - 1], slices[|slices| - 1];
      OccurringCounts(front, pattern);
      OneMoreSlice(front, last, pattern);
      BumpedCount(Occurring(front), Patterns(last.occurrences), pattern);
      assert slices == front + [last];
    }
  }

  /** The direction of greatest weight; in a tie simultaneous comes before forward, and forward before backward. */
  lemma DominantByWeight(link: Association)
    requires InRange(link)
    ensures link.forward > link.simultaneous && link.forward >= link.backward ==> Dominant(link) == Forwards
    ensures link.backward > link.simultaneous && link.backward > link.forward ==> Dominant(link) == Backwards
    ensures link.simultaneous >= link.forward && link.simultaneous >= link.backward ==>
      Dominant(link) == Simultaneously
  {
    var total := link.forward + link.simultaneous + link.backward;
    if total > 0.0 {
      ShareOrder(link.forward, link.simultaneous, total);
      ShareOrder(link.forward, link.backward, total);
      ShareOrder(link.simultaneous, link.backward, total);
    }
  }

  lemma ShareOrder(x: real, y: real, total: real)
    requires total > 0.0
    ensures Share(x, total) >= Share(y, total) <==> x >= y
    ensures Share(y, total) >= Share(x, total) <==> y >= x
  {
    var a, b := x / total, y / total;
    assert a * total == x && b * total == y;
    if a > b {
      ProductPositive(a - b, total);
      assert (a - b) * total == a * total - b * total;
    } else if b > a {
      ProductPositive(b - a, total);
      assert (b - a) * total == b * total - a * total;
    }
  }

  /**
    The coverage is a share of the slices with the pattern that comes first: the smaller one when forward dominates, the
    greater one when backward does, the more frequent one when neither.
  */
  lemma CoverageOf(link: Association, slices: seq<RealitySlice>, k: Key)
    requires InRange(link)
    ensures var n, first, second := Denominator(link, Occurring(slices), k), |SlicesWith(slices, k.0)|,
                                    |SlicesWith(slices, k.1)|;
            && (link.forward > link.simultaneous && link.forward >= link.backward ==> n == first)
            && (link.backward > link.simultaneous && link.backward > link.forward ==> n == second)
            && (link.simultaneous >= link.forward && link.simultaneous >= link.backward ==> n == Max(first, second))
  {
    DominantByWeight(link);
    OccurringCounts(slices, k.0);
    OccurringCounts(slices, k.1);
  }
}
