/**
  The stride permutation that spreads a burst of damaged physical symbols over many logical blocks.

  Logical symbol i belongs to lane i modulo the lane count; the physical order writes out one lane after
  the other.
*/
module Interleaving {
  import opened Common

  /** The number of lanes actually used: at least one, at most one per symbol. */
  function LaneCount(n: nat, lanes: nat): (l: nat)
    ensures l > 0
    ensures n > 0 ==> l <= n
  {
    Min(if lanes == 0 then 1 else lanes, if n == 0 then 1 else n)
  }

  function LaneSize(n: nat, step: nat, lane: nat): nat
    requires step > 0
  {
    n / step + (if lane < n % step then 1 else 0)
  }

  /** Physical position of the first symbol of a lane. */
  function LaneStart(n: nat, step: nat, lane: nat): nat
    requires step > 0
  {
    lane * (n / step) + Min(lane, n % step)
  }

  /** Physical position of logical symbol `i`. */
  function Physical(n: nat, step: nat, i: nat): nat
    requires step > 0
  {
    LaneStart(n, step, i % step) + i / step
  }

  /** `order` lists the logical symbols in physical order. */
  ghost predicate IsOrder(order: seq<nat>, n: nat, step: nat)
    requires step > 0
  {
    && |order| == n
    && (forall p :: 0 <= p < n ==> order[p] < n && Physical(n, step, order[p]) == p)
    && (forall i :: 0 <= i < n ==> Physical(n, step, i) < n && order[Physical(n, step, i)] == i)
  }

  /** The first `lane` lanes have been written out. */
  ghost predicate PartialOrder(order: seq<nat>, n: nat, step: nat, lane: nat)
    requires step > 0
  {
    && |order| == LaneStart(n, step, lane)
    && (forall p :: 0 <= p < |order| ==> order[p] < n && Physical(n, step, order[p]) == p)
    && (forall i :: 0 <= i < n && i % step < lane ==>
      Physical(n, step, i) < |order| && order[Physical(n, step, i)] == i)
  }

  function Stride(lane: nat, step: nat, count: nat): (s: seq<nat>)
    ensures |s| == count
  {
    seq(count, k requires 0 <= k => lane + k * step)
  }

  /** The first `lane` lanes, one after the other. */
  function Written(n: nat, step: nat, lane: nat): seq<nat>
    requires step > 0
  {
    if lane == 0 then [] else Written(n, step, lane - 1) + Stride(lane - 1, step, LaneSize(n, step, lane - 1))
  }

  method InterleavedOrder(n: nat, lanes0: nat) returns (order: seq<nat>)
    ensures IsOrder(order, n, LaneCount(n, lanes0))
  {
    var lanes := if lanes0 == 0 then 1 else lanes0;
    lanes := Min(lanes, if n == 0 then 1 else n);
    order := [];
    for lane := 0 to lanes
      invariant order == Written(n, lanes, lane)
    {
      order := WriteLane(order, n, lanes, lane);
    }
    AllWritten(n, LaneCount(n, lanes0));
  }

  method WriteLane(before: seq<nat>, n: nat, lanes: nat, lane: nat) returns (order: seq<nat>)
    requires lane < lanes
    ensures order == before + Stride(lane, lanes, LaneSize(n, lanes, lane))
  {
    order := before;
    var i := lane;
    ghost var j := 0;
    LaneMember(n, lanes, lane, 0);
    while i < n
      invariant i == lane + j * lanes
      invariant i < n <==> j < LaneSize(n, lanes, lane)
      invariant j <= LaneSize(n, lanes, lane)
      invariant order == before + Stride(lane, lanes, j)
    {
      LaneMember(n, lanes, lane, j + 1);
      assert lane + (j + 1) * lanes == i + lanes;
      StrideGrows(lane, lanes, j);
      order := order + [i];
      i := i + lanes;
      j := j + 1;
    }
  }

  lemma StrideGrows(lane: nat, step: nat, count: nat)
    ensures Stride(lane, step, count + 1) == Stride(lane, step, count) + [lane + count * step]
  {}

  lemma LaneWritten(before: seq<nat>, order: seq<nat>, n: nat, step: nat, lane: nat)
    requires lane < step && PartialOrder(before, n, step, lane)
    requires order == before + Stride(lane, step, LaneSize(n, step, lane))
    ensures PartialOrder(order, n, step, lane + 1)
  {
    NextLane(n, step, lane);
    forall p | 0 <= p < |order|
      ensures order[p] < n && Physical(n, step, order[p]) == p
    {
      PositionWritten(before, order, n, step, lane, p);
    }
    forall i | 0 <= i < n && i % step < lane + 1
      ensures Physical(n, step, i) < |order| && order[Physical(n, step, i)] == i
    {
      SymbolWritten(before, order, n, step, lane, i);
    }
  }

  lemma PositionWritten(before: seq<nat>, order: seq<nat>, n: nat, step: nat, lane: nat, p: nat)
    requires lane < step && PartialOrder(before, n, step, lane)
    requires order == before + Stride(lane, step, LaneSize(n, step, lane)) && p < |order|
    ensures order[p] < n && Physical(n, step, order[p]) == p
  {
    if p < |before| {
      assert order[p] == before[p];
    } else {
      StrideMember(n, step, lane, p - |before|);
      assert order[p] == Stride(lane, step, LaneSize(n, step, lane))[p - |before|];
    }
  }

  lemma SymbolWritten(before: seq<nat>, order: seq<nat>, n: nat, step: nat, lane: nat, i: nat)
    requires lane < step && PartialOrder(before, n, step, lane)
    requires order == before + Stride(lane, step, LaneSize(n, step, lane))
    requires i < n && i % step <= lane
    ensures Physical(n, step, i) < |order| && order[Physical(n, step, i)] == i
  {
    if i % step == lane {
      InLane(n, step, lane, i);
      StrideMember(n, step, lane, i / step);
      assert order[|before| + i / step] == Stride(lane, step, LaneSize(n, step, lane))[i / step];
    } else {
      assert order[Physical(n, step, i)] == before[Physical(n, step, i)];
    }
  }

  lemma StrideMember(n: nat, step: nat, lane: nat, k: nat)
    requires lane < step && k < LaneSize(n, step, lane)
    ensures Stride(lane, step, LaneSize(n, step, lane))[k] == lane + k * step < n
    ensures Physical(n, step, lane + k * step) == LaneStart(n, step, lane) + k
  {
    LaneMember(n, step, lane, k);
  }

  lemma InLane(n: nat, step: nat, lane: nat, i: nat)
    requires lane < step && i < n && i % step == lane
    ensures i / step < LaneSize(n, step, lane) && i == lane + i / step * step
  {
    assert i == lane + i / step * step;
    LaneMember(n, step, lane, i / step);
  }

  method InverseInterleavedOrder(n: nat, lanes: nat) returns (inverse: array<nat>, order: seq<nat>)
    ensures fresh(inverse) && inverse.Length == n && IsOrder(order, n, LaneCount(n, lanes))
    ensures forall p :: 0 <= p < n ==> inverse[order[p]] == p
    ensures forall i :: 0 <= i < n ==> inverse[i] < n && order[inverse[i]] == i
  {
    order := InterleavedOrder(n, lanes);
    inverse := new nat[n];
    ghost var step := LaneCount(n, lanes);
    for physical := 0 to |order|
      invariant forall p :: 0 <= p < physical ==> inverse[order[p]] == p
    {
      OrderInjective(order, n, step);
      inverse[order[physical]] := physical;
    }
    forall i | 0 <= i < n
      ensures inverse[i] < n && order[inverse[i]] == i
    {
      var p := Physical(n, step, i);
      assert order[p] == i;
    }
  }

  // ---------- arithmetic of lanes ----------

  lemma LaneMember(n: nat, step: nat, lane: nat, j: nat)
    requires lane < step
    ensures lane + j * step < n <==> j < LaneSize(n, step, lane)
    ensures (lane + j * step) % step == lane && (lane + j * step) / step == j
  {
    var q, r := n / step, n % step;
    assert n == q * step + r;
    DivideLane(step, lane, j);
    if j < q {
      MulMonotone(j + 1, q, step);
      assert (j + 1) * step == j * step + step;
    } else if j > q {
      MulMonotone(q + 1, j, step);
      assert (q + 1) * step == q * step + step;
    }
  }

  lemma MulNonZero(d: int, step: int)
    requires d != 0 && step > 0
    ensures d * step >= step || d * step <= -step
  {}

  lemma DivideLane(step: nat, lane: nat, j: nat)
    requires lane < step
    ensures (lane + j * step) % step == lane && (lane + j * step) / step == j
  {
    var v := lane + j * step;
    var q, r := v / step, v % step;
    assert v == q * step + r;
    assert (q - j) * step == lane - r;
    if q != j {
      MulNonZero(q - j, step);
    }
  }

  lemma NextLane(n: nat, step: nat, lane: nat)
    requires lane < step
    ensures LaneStart(n, step, lane + 1) == LaneStart(n, step, lane) + LaneSize(n, step, lane)
  {
    assert (lane + 1) * (n / step) == lane * (n / step) + n / step;
  }

  lemma {:induction false} WrittenIsPartial(n: nat, step: nat, lane: nat)
    requires lane <= step && step > 0
    ensures PartialOrder(Written(n, step, lane), n, step, lane)
  {
    if lane != 0 {
      WrittenIsPartial(n, step, lane - 1);
      LaneWritten(Written(n, step, lane - 1), Written(n, step, lane), n, step, lane - 1);
    }
  }

  lemma AllWritten(n: nat, step: nat)
    requires step > 0
    ensures IsOrder(Written(n, step, step), n, step)
  {
    WrittenIsPartial(n, step, step);
    assert n == step * (n / step) + n % step;
  }

  lemma {:induction false} LaneStartMonotone(n: nat, step: nat, lane: nat, later: nat)
    requires step > 0 && lane <= later
    ensures LaneStart(n, step, lane) <= LaneStart(n, step, later)
  {
    MulMonotone(lane, later, n / step);
  }

  lemma OrderInjective(order: seq<nat>, n: nat, step: nat)
    requires step > 0 && IsOrder(order, n, step)
    ensures forall p, r :: 0 <= p < r < n ==> order[p] != order[r]
  {}

  /** Physical order is by lane, and within a lane by the logical number. */
  lemma LaneByLane(order: seq<nat>, n: nat, step: nat, p: nat, r: nat)
    requires step > 0 && IsOrder(order, n, step) && p < r < n
    ensures order[p] % step < order[r] % step || (order[p] % step == order[r] % step && order[p] < order[r])
  {
    var i, j := order[p], order[r];
    PhysicalRange(n, step, i);
    PhysicalRange(n, step, j);
    if j % step < i % step {
      LaneStartMonotone(n, step, j % step + 1, i % step);
    } else if i % step == j % step {
      SameLane(i, j, step);
    }
  }

  lemma SameLane(i: nat, j: nat, step: nat)
    requires step > 0 && i % step == j % step && i / step < j / step
    ensures i < j
  {
    assert i == i / step * step + i % step && j == j / step * step + j % step;
    MulMonotone(i / step + 1, j / step, step);
    assert (i / step + 1) * step == i / step * step + step;
  }

  /** The lanes asked for, but at least one and no more than there are symbols. */
  lemma LanesUsed(n: nat, lanes: nat)
    ensures 0 < lanes <= n ==> LaneCount(n, lanes) == lanes
    ensures lanes == 0 || n == 0 ==> LaneCount(n, lanes) == 1
    ensures lanes > n > 0 ==> LaneCount(n, lanes) == n
  {}

  // ---------- bursts ----------

  /** A symbol lies inside the physical range of its lane. */
  lemma PhysicalRange(n: nat, step: nat, i: nat)
    requires step > 0 && i < n
    ensures LaneStart(n, step, i % step) <= Physical(n, step, i) < LaneStart(n, step, i % step + 1)
  {
    LaneMember(n, step, i % step, i / step);
    assert i == i % step + i / step * step;
    NextLane(n, step, i % step);
  }

  /** Distinct symbols closer than one stride are in different lanes. */
  lemma CloseSymbols(i: nat, j: nat, step: nat)
    requires step > 0 && i < j < i + step
    ensures i % step != j % step
  {
    if i % step == j % step {
      var a, b := i / step, j / step;
      assert i == a * step + i % step && j == b * step + j % step;
      assert (b - a) * step == j - i;
      MulNonZero(b - a, step);
    }
  }

  /**
    Burst tolerance: among three different physical positions that fall into one logical block no longer
    than the stride, the outer two are more than n / L positions apart.
  */
  lemma ThreeHitsSpread(order: seq<nat>, n: nat, step: nat, p: nat, q: nat, r: nat, begin: nat, size: nat)
    requires step > 0 && IsOrder(order, n, step) && size <= step
    requires p < q < r < n
    requires begin <= order[p] < begin + size && begin <= order[q] < begin + size
    requires begin <= order[r] < begin + size
    ensures r - p > n / step
  {
    var i, j, k := order[p], order[q], order[r];
    PhysicalRange(n, step, i);
    PhysicalRange(n, step, j);
    PhysicalRange(n, step, k);
    LaterLane(n, step, i, j);
    LaterLane(n, step, j, k);
    NextLane(n, step, j % step);
    LaneStartMonotone(n, step, i % step + 1, j % step);
    LaneStartMonotone(n, step, j % step + 1, k % step);
  }

  /** Of two nearby symbols, the one that comes later in physical order is in a later lane. */
  lemma LaterLane(n: nat, step: nat, i: nat, j: nat)
    requires step > 0 && i < n && j < n && i != j && i < j + step && j < i + step
    requires Physical(n, step, i) < Physical(n, step, j)
    ensures i % step < j % step
  {
    if i < j {
      CloseSymbols(i, j, step);
    } else {
      CloseSymbols(j, i, step);
    }
    if j % step < i % step {
      PhysicalRange(n, step, i);
      PhysicalRange(n, step, j);
      LaneStartMonotone(n, step, j % step + 1, i % step);
    }
  }

  /** Logical symbols of the block that the burst of `length` positions from `start` touches. */
  ghost function Hits(order: seq<nat>, start: nat, length: nat, begin: nat, size: nat): set<nat> {
    set p | start <= p < start + length && p < |order| && begin <= order[p] < begin + size :: order[p]
  }

  /** Any burst of at most n / L + 1 positions hits at most two symbols of a block of at most L symbols. */
  lemma BurstHitsAtMostTwo(order: seq<nat>, n: nat, lanes: nat, start: nat, length: nat, begin: nat, size: nat)
    requires IsOrder(order, n, LaneCount(n, lanes)) && size <= LaneCount(n, lanes)
    requires length <= n / LaneCount(n, lanes) + 1
    ensures exists x, y :: Hits(order, start, length, begin, size) <= {x, y}
  {
    var step := LaneCount(n, lanes);
    var hits := Hits(order, start, length, begin, size);
    if hits == {} {
      assert hits <= {0, 0};
    } else {
      var x :| x in hits;
      if hits <= {x, x} {
      } else {
        var y :| y in hits && y != x;
        forall z | z in hits
          ensures z in {x, y}
        {
          if z != x && z != y {
            NoThirdHit(order, n, step, start, length, begin, size, x, y, z);
          }
        }
        assert hits <= {x, y};
      }
    }
  }

  lemma NoThirdHit(order: seq<nat>, n: nat, step: nat, start: nat, length: nat, begin: nat, size: nat,
                   x: nat, y: nat, z: nat)
    requires step > 0 && IsOrder(order, n, step) && size <= step && length <= n / step + 1
    requires x != y && y != z && x != z
    requires x in Hits(order, start, length, begin, size) && y in Hits(order, start, length, begin, size)
    ensures z !in Hits(order, start, length, begin, size)
  {
    if z in Hits(order, start, length, begin, size) {
      HitPlace(order, n, step, start, length, begin, size, x);
      HitPlace(order, n, step, start, length, begin, size, y);
      HitPlace(order, n, step, start, length, begin, size, z);
      ThreePlacesSpread(order, n, step, begin, size, Physical(n, step, x), Physical(n, step, y), Physical(n, step, z));
    }
  }

  /** Where the burst touches a symbol. */
  lemma HitPlace(order: seq<nat>, n: nat, step: nat, start: nat, length: nat, begin: nat, size: nat, x: nat)
    requires step > 0 && IsOrder(order, n, step) && x in Hits(order, start, length, begin, size)
    ensures var p := Physical(n, step, x);
            start <= p < start + length && p < n && order[p] == x && begin <= x < begin + size
  {}

  /** Three different places of one block, in any order. */
  lemma ThreePlacesSpread(order: seq<nat>, n: nat, step: nat, begin: nat, size: nat, a: nat, b: nat, c: nat)
    requires step > 0 && IsOrder(order, n, step) && size <= step
    requires a < n && b < n && c < n && a != b && b != c && a != c
    requires begin <= order[a] < begin + size && begin <= order[b] < begin + size && begin <= order[c] < begin + size
    ensures Greatest(a, b, c) - Least(a, b, c) > n / step
  {
    var p, r := Least(a, b, c), Greatest(a, b, c);
    ThreeHitsSpread(order, n, step, p, a + b + c - p - r, r, begin, size);
  }

  function Least(a: nat, b: nat, c: nat): nat {
    Min(a, Min(b, c))
  }

  function Greatest(a: nat, b: nat, c: nat): nat {
    Max(a, Max(b, c))
  }
}
