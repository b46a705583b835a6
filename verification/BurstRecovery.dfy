/**
  Interleaving and two-symbol recovery together: a burst of damaged physical symbols stays within the
  capacity of every logical block.
*/
module BurstRecovery {
  import opened Words
  import opened Common
  import opened Integrity
  import opened Interleaving
  import opened ParityEquations
  import opened TrailRecovery

  /** The symbols in the order in which they are stored. */
  function Interleaved(trail: Trail, order: seq<nat>): (physical: Trail)
    requires |order| == |trail| && forall p :: 0 <= p < |order| ==> order[p] < |trail|
    ensures |physical| == |trail|
  {
    seq(|trail|, p requires 0 <= p < |trail| => trail[order[p]])
  }

  function Deinterleaved(physical: Trail, inverse: seq<nat>): (trail: Trail)
    requires |inverse| == |physical| && forall i :: 0 <= i < |inverse| ==> inverse[i] < |physical|
    ensures |trail| == |physical|
  {
    seq(|physical|, i requires 0 <= i < |physical| => physical[inverse[i]])
  }

  ghost predicate IsInverse(inverse: seq<nat>, order: seq<nat>, n: nat, lanes: nat) {
    && IsOrder(order, n, LaneCount(n, lanes)) && |inverse| == n
    && forall i :: 0 <= i < n ==> inverse[i] < n && order[inverse[i]] == i
  }

  /** Reading back an undamaged store gives the trail. */
  lemma InterleavingRoundTrip(trail: Trail, order: seq<nat>, inverse: seq<nat>, lanes: nat)
    requires IsInverse(inverse, order, |trail|, lanes)
    ensures Deinterleaved(Interleaved(trail, order), inverse) == trail
  {}

  /** Only the `length` positions from `start` may have changed. */
  ghost predicate DamagedByBurst(before: Trail, after: Trail, start: nat, length: nat) {
    |before| == |after| && forall p :: 0 <= p < |before| && !(start <= p < start + length) ==> after[p] == before[p]
  }

  /** The symbols that a burst damages are the ones it hits. */
  lemma DamageWithinHits(trail: Trail, after: Trail, order: seq<nat>, inverse: seq<nat>, lanes: nat,
                         start: nat, length: nat, begin: nat, size: nat, i: nat)
    requires IsInverse(inverse, order, |trail|, lanes)
    requires DamagedByBurst(Interleaved(trail, order), after, start, length)
    requires i < |trail| && begin <= i < begin + size
    requires i !in Hits(order, start, length, begin, size)
    ensures Deinterleaved(after, inverse)[i] == trail[i]
  {
    var p := inverse[i];
    assert order[p] == i;
    assert Interleaved(trail, order)[p] == trail[i];
  }

  lemma BurstLeavesTwo(trail: Trail, after: Trail, order: seq<nat>, inverse: seq<nat>, lanes: nat,
                       start: nat, length: nat, i: nat, size: nat) returns (x: nat, y: nat)
    requires IsInverse(inverse, order, |trail|, lanes)
    requires DamagedByBurst(Interleaved(trail, order), after, start, length)
    requires 0 < size <= LaneCount(|trail|, lanes) && length <= |trail| / LaneCount(|trail|, lanes) + 1
    requires i < BlockCount(|trail|, size)
    ensures AgreeOutside(Block(trail, i, size), Block(Deinterleaved(after, inverse), i, size), x, y)
  {
    var begin := i * size;
    var damaged := Deinterleaved(after, inverse);
    BlockRange(|trail|, i, size);
    BurstHitsAtMostTwo(order, |trail|, lanes, start, length, begin, size);
    var u, v :| Hits(order, start, length, begin, size) <= {u, v};
    x := if u >= begin then u - begin else size;
    y := if v >= begin then v - begin else size;
    forall k | 0 <= k < |Block(trail, i, size)| && k != x && k != y
      ensures Block(trail, i, size)[k] == Block(damaged, i, size)[k]
    {
      assert begin + k != u && begin + k != v;
      DamageWithinHits(trail, after, order, inverse, lanes, start, length, begin, size, begin + k);
    }
  }

  /**
    Any burst of at most n / L + 1 physical symbols, with blocks of 2 to min(L, 255) symbols: whatever the
    damage is, two-symbol recovery of any block with two or more symbols returns nothing or the trail with
    that block intact, and it returns it when no other repair has the stored fingerprint.
  */
  lemma BurstIsRecovered(trail: Trail, rules: seq<AdaptiveRule>, m: IntegrityManifest, after: Trail,
                         order: seq<nat>, inverse: seq<nat>, lanes: nat, start: nat, length: nat,
                         parity: TrailDualParityBlock, i: nat, r: Option<Trail>)
    requires IsInverse(inverse, order, |trail|, lanes)
    requires DamagedByBurst(Interleaved(trail, order), after, start, length)
    requires 2 <= m.trailBlockSize <= 255 && Describes(m, rules, trail)
    requires m.trailBlockSize <= LaneCount(|trail|, lanes)
    requires length <= |trail| / LaneCount(|trail|, lanes) + 1
    requires i < BlockCount(|trail|, m.trailBlockSize)
    requires IsDualParity(parity, trail, i, m.trailBlockSize) && parity.count >= 2
    requires PairOutcome(m, parity, Deinterleaved(after, inverse), i, r)
    ensures r == None || (|r.value| == |trail| && Block(r.value, i, m.trailBlockSize) == Block(trail, i, m.trailBlockSize))
    ensures r.Some? <==> AcceptedPairs(m, parity, Deinterleaved(after, inverse), i)
                         == iset{Restored(trail, Deinterleaved(after, inverse), i, m.trailBlockSize)}
  {
    var damaged := Deinterleaved(after, inverse);
    var x, y := BurstLeavesTwo(trail, after, order, inverse, lanes, start, length, i, m.trailBlockSize);
    TwoSymbolRecovery(trail, damaged, rules, m, parity, i, x, y, r);
    BlockRange(|trail|, i, m.trailBlockSize);
    RestoredBlock(trail, damaged, i, m.trailBlockSize);
  }
}
