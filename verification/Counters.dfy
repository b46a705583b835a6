/**
  Arrays of 8-bit counters: when a counter is full, all counters of the array are halved, rounding up, before
  it is incremented.
*/
module Counters {
  import opened Words
  import opened Common

  type Counters8 = seq<Byte>

  /** Half of a counter, rounded up; the sum is computed in a wider type. */
  function Half(x: Byte): Byte {
    var wide: nat := x;
    (wide + 1) / 2
  }

  function Halved(c: Counters8): (h: Counters8)
    ensures |h| == |c|
  {
    seq(|c|, i requires 0 <= i < |c| => Half(c[i]))
  }

  /** The counters after one hit of bucket `i`. */
  function Hit(c: Counters8, i: nat): (h: Counters8)
    requires i < |c|
    ensures |h| == |c|
  {
    if c[i] == 255 then Halved(c)[i := 129] else c[i := c[i] + 1]
  }

  /** Counters and the number of times they were halved. */
  datatype Sketch = Sketch(counters: Counters8, renorms: nat)

  function Zeros(n: nat): (z: Counters8)
    ensures |z| == n
  {
    seq(n, i => 0)
  }

  /** The sketch after one more hit of bucket `i`; there is no other bucket than the `n` counters. */
  function After(s: Sketch, i: nat): (t: Sketch)
    ensures |t.counters| == |s.counters|
  {
    if i < |s.counters| then
      Sketch(Hit(s.counters, i), s.renorms + if s.counters[i] == 255 then 1 else 0)
    else s
  }

  /** `n` fresh counters after a run of hits. */
  function Run(n: nat, hits: seq<nat>): (s: Sketch)
    ensures |s.counters| == n
  {
    if hits == [] then Sketch(Zeros(n), 0) else After(Run(n, hits[..|hits| - 1]), hits[|hits| - 1])
  }

  lemma RunPush(n: nat, hits: seq<nat>, b: nat)
    ensures Run(n, hits + [b]) == After(Run(n, hits), b)
  {
    assert (hits + [b])[..|hits|] == hits;
  }

  /** How often bucket `b` was hit. */
  function Count(hits: seq<nat>, b: nat): nat {
    if hits == [] then 0
    else Count(hits[..|hits| - 1], b) + if hits[|hits| - 1] == b then 1 else 0
  }

  /** The hits of bucket `b`, each weighted by two to the number of halvings so far. */
  function Weight(n: nat, hits: seq<nat>, b: nat): nat
  {
    if hits == [] then 0
    else Weight(n, hits[..|hits| - 1], b) + if hits[|hits| - 1] == b then Pow2(Run(n, hits).renorms) else 0
  }

  // ---------- exact until full ----------

  ghost predicate NoneFull(n: nat, hits: seq<nat>) {
    forall b :: 0 <= b < n ==> Count(hits, b) <= 255
  }

  lemma CountPush(hits: seq<nat>, b: nat, i: nat)
    ensures Count(hits + [i], b) == Count(hits, b) + if i == b then 1 else 0
  {
    assert (hits + [i])[..|hits|] == hits;
  }

  lemma HitExact(n: nat, front: seq<nat>, last: nat)
    requires Run(n, front).renorms == 0 && NoneFull(n, front)
    requires forall b :: 0 <= b < n ==> Run(n, front).counters[b] == Count(front, b)
    ensures Run(n, front + [last]).renorms == 0 <==> NoneFull(n, front + [last])
    ensures NoneFull(n, front + [last]) ==>
      forall b :: 0 <= b < n ==> Run(n, front + [last]).counters[b] == Count(front + [last], b)
  {
    RunPush(n, front, last);
    forall b | 0 <= b < n
      ensures Count(front + [last], b) == Count(front, b) + if last == b then 1 else 0
    {
      CountPush(front, b, last);
    }
    if last < n && Run(n, front).counters[last] == 255 {
      assert Count(front + [last], last) == 256;
    }
  }

  lemma RenormsGrow(n: nat, hits: seq<nat>, last: nat)
    ensures Run(n, hits + [last]).renorms >= Run(n, hits).renorms
    ensures NoneFull(n, hits + [last]) ==> NoneFull(n, hits)
  {
    RunPush(n, hits, last);
    if NoneFull(n, hits + [last]) {
      forall b | 0 <= b < n
        ensures Count(hits, b) <= 255
      {
        CountPush(hits, b, last);
        assert Count(hits + [last], b) <= 255;
      }
    }
  }

  /** Nothing is halved before some bucket is hit for the 256th time, and until then the counters are exact. */
  lemma {:induction false} ExactUntilFull(n: nat, hits: seq<nat>)
    ensures Run(n, hits).renorms == 0 <==> NoneFull(n, hits)
    ensures NoneFull(n, hits) ==> forall b :: 0 <= b < n ==> Run(n, hits).counters[b] == Count(hits, b)
  {
    if hits != [] {
      var front, last := hits[..|hits| - 1], hits[|hits| - 1];
      assert hits == front + [last];
      ExactUntilFull(n, front);
      RenormsGrow(n, front, last);
      if NoneFull(n, front) {
        HitExact(n, front, last);
      }
    }
  }

  // ---------- error bounds ----------

  /** A weight of `w` is what a counter `c` stands for after `r` halvings, up to the rounding. */
  ghost predicate Represents(w: nat, c: nat, r: nat) {
    w <= Pow2(r) * c <= w + Pow2(r) - 1
  }

  lemma HalvingRounds(w: nat, c: nat, r: nat)
    requires Represents(w, c, r)
    ensures Represents(w, (c + 1) / 2, r + 1)
  {
    var p, h := Pow2(r), (c + 1) / 2;
    assert Pow2(r + 1) == 2 * p;
    assert 2 * p * h == p * (2 * h);
    MulMonotone(c, 2 * h, p);
    MulMonotone(2 * h, c + 1, p);
    assert p * (c + 1) == p * c + p;
  }

  lemma HitCounts(w: nat, c: nat, r: nat)
    requires Represents(w, c, r)
    ensures Represents(w + Pow2(r), c + 1, r)
  {
    assert Pow2(r) * (c + 1) == Pow2(r) * c + Pow2(r);
  }

  /** Every counter, times two to the halvings, is the weighted count rounded up. */
  lemma {:induction false} CounterBounds(n: nat, hits: seq<nat>, b: nat)
    requires b < n
    ensures Represents(Weight(n, hits, b), Run(n, hits).counters[b], Run(n, hits).renorms)
  {
    if hits != [] {
      var front, last := hits[..|hits| - 1], hits[|hits| - 1];
      CounterBounds(n, front, b);
      var before := Run(n, front);
      var w: nat, c: nat, r := Weight(n, front, b), before.counters[b], before.renorms;
      if last < n && before.counters[last] == 255 {
        HalvingRounds(w, c, r);
        if last == b {
          HitCounts(w, Half(before.counters[b]), r + 1);
        }
      } else if last == b {
        HitCounts(w, c, r);
      }
    } else {
      assert Pow2(0) * 0 == 0;
    }
  }

  lemma {:induction false} WeightBounds(n: nat, hits: seq<nat>, b: nat)
    ensures Count(hits, b) <= Weight(n, hits, b)
    ensures Weight(n, hits, b) == 0 <==> Count(hits, b) == 0
  {
    if hits != [] {
      WeightBounds(n, hits[..|hits| - 1], b);
    }
  }

  /** The true count is never underestimated, and a counter is zero exactly if its bucket was never hit. */
  lemma NeverUnderestimates(n: nat, hits: seq<nat>, b: nat)
    requires b < n
    ensures Count(hits, b) <= Pow2(Run(n, hits).renorms) * Run(n, hits).counters[b]
    ensures Run(n, hits).counters[b] == 0 <==> Count(hits, b) == 0
  {
    CounterBounds(n, hits, b);
    WeightBounds(n, hits, b);
    var c, r := Run(n, hits).counters[b], Run(n, hits).renorms;
    if c > 0 {
      MulMonotone(1, c, Pow2(r));
    }
  }

  /** Halvings are rare: each one takes at least 127 further hits. */
  lemma {:induction false} HalvingsAreRare(n: nat, hits: seq<nat>, b: nat)
    requires b < n
    ensures |hits| >= 127 * Run(n, hits).renorms + Run(n, hits).counters[b]
  {
    if hits != [] {
      var front, last := hits[..|hits| - 1], hits[|hits| - 1];
      HalvingsAreRare(n, front, b);
      if last < n {
        HalvingsAreRare(n, front, last);
      }
    }
  }

  // ---------- in place ----------

  /** One hit of the whole array; the caller counts the halvings. */
  method Increment(counters: array<Byte>, index: nat) returns (renormalized: bool)
    requires index < counters.Length
    modifies counters
    ensures counters[..] == Hit(old(counters[..]), index)
    ensures renormalized <==> old(counters[index]) == 255
  {
    renormalized := counters[index] == 255;
    if renormalized {
      HalveRange(counters, 0, counters.Length);
    }
    counters[index] := counters[index] + 1;
  }

  method HalveRange(counters: array<Byte>, from: nat, to: nat)
    requires from <= to <= counters.Length
    modifies counters
    ensures forall i :: from <= i < to ==> counters[i] == Half(old(counters[i]))
    ensures forall i :: 0 <= i < from || to <= i < counters.Length ==> counters[i] == old(counters[i])
  {
    for i := from to to
      invariant forall k :: from <= k < i ==> counters[k] == Half(old(counters[k]))
      invariant forall k :: 0 <= k < from || i <= k < counters.Length ==> counters[k] == old(counters[k])
    {
      counters[i] := Half(counters[i]);
    }
  }

  /** One hit in the counters of one region, which alone are halved. */
  method IncrementRange(counters: array<Byte>, from: nat, n: nat, index: nat) returns (renormalized: bool)
    requires from + n <= counters.Length && index < n
    modifies counters
    ensures counters[from..from + n] == Hit(old(counters[from..from + n]), index)
    ensures forall i :: 0 <= i < from || from + n <= i < counters.Length ==> counters[i] == old(counters[i])
    ensures renormalized <==> old(counters[from + index]) == 255
  {
    renormalized := counters[from + index] == 255;
    if renormalized {
      HalveRange(counters, from, from + n);
    }
    counters[from + index] := counters[from + index] + 1;
  }
}
