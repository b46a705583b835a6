/**
  Hashing of ids and transitions to buckets, and vectors that hold one slot of buckets for every region.
*/
module Buckets {
  import opened Words
  import opened Common
  import opened Similarity
  import opened Observations

  /** Hashing of an id, and of two neighbouring ids, with a seed; nothing depends on which functions these are. */
  datatype Hashing = Hashing(id: (Word, Word) -> Word, transition: (Word, Word, Word) -> Word)

  datatype BoundedConfig = BoundedConfig(
    frequencyBuckets: nat, transitionBuckets: nat, regions: Word, seed: Word, hashing: Hashing)

  predicate GoodDimensions(c: BoundedConfig) {
    c.frequencyBuckets > 0 && c.transitionBuckets > 0 && c.regions > 0
  }

  // ---------- hashing ----------

  function FrequencyBucket(c: BoundedConfig): SymbolId -> nat
    requires GoodDimensions(c)
  {
    (id: SymbolId) => c.hashing.id(id % WORD, c.seed) % c.frequencyBuckets
  }

  function TransitionBucket(c: BoundedConfig): ((SymbolId, SymbolId)) -> nat
    requires GoodDimensions(c)
  {
    (t: (SymbolId, SymbolId)) => c.hashing.transition(t.0 % WORD, t.1 % WORD, c.seed) % c.transitionBuckets
  }

  /** The key goes through the hash and the seed unchanged: a hash that returns it gives buckets by residue. */
  lemma PlainBuckets(c: BoundedConfig, a: Word, b: Word)
    requires GoodDimensions(c)
    ensures (forall x, s :: c.hashing.id(x, s) == x) ==> FrequencyBucket(c)(a) == a % c.frequencyBuckets
    ensures (forall x, s :: c.hashing.id(x, s) == s) ==> FrequencyBucket(c)(a) == c.seed % c.frequencyBuckets
    ensures (forall x, y, s :: c.hashing.transition(x, y, s) == x) ==>
      TransitionBucket(c)((a, b)) == a % c.transitionBuckets
    ensures (forall x, y, s :: c.hashing.transition(x, y, s) == y) ==>
      TransitionBucket(c)((a, b)) == b % c.transitionBuckets
    ensures (forall x, y, s :: c.hashing.transition(x, y, s) == s) ==>
      TransitionBucket(c)((a, b)) == c.seed % c.transitionBuckets
  {}

  /** The buckets hit by a sequence of keys. */
  function Hashed<K>(bucket: K -> nat, keys: seq<K>): (hits: seq<nat>)
    ensures |hits| == |keys|
  {
    Mapped<K, nat>(bucket, keys)
  }

  lemma HashedPush<K>(bucket: K -> nat, keys: seq<K>, k: K)
    ensures Hashed(bucket, keys + [k]) == Hashed(bucket, keys) + [bucket(k)]
  {
    assert (keys + [k])[..|keys|] == keys;
  }

  lemma {:induction false} HashedBelow<K(!new)>(n: nat, bucket: K -> nat, keys: seq<K>, i: nat)
    requires i < |keys| && forall k :: bucket(k) < n
    ensures Hashed(bucket, keys)[i] < n
  {
    var front := keys[..|keys| - 1];
    HashedPush(bucket, front, keys[|keys| - 1]);
    assert front + [keys[|keys| - 1]] == keys;
    if i < |front| {
      HashedBelow(n, bucket, front, i);
    }
  }

  // ---------- slots ----------

  /** Where the slot of region `r` begins: r * n. */
  function Base(r: nat, n: nat): nat {
    if r == 0 then 0 else Base(r - 1, n) + n
  }

  lemma {:induction false} BaseIsProduct(r: nat, n: nat)
    ensures Base(r, n) == r * n
  {
    if r > 0 {
      BaseIsProduct(r - 1, n);
      assert (r - 1) * n == r * n - n;
    }
  }

  /** The `n` counters of region `r`. */
  function Slot<T>(v: seq<T>, r: nat, n: nat): seq<T> {
    if Base(r, n) + n <= |v| then v[Base(r, n)..Base(r, n) + n] else []
  }

  lemma {:induction false} SlotInside(r: nat, regions: nat, n: nat)
    requires r < regions
    ensures Base(r, n) + n <= Base(regions, n)
    decreases regions
  {
    if r < regions - 1 {
      SlotInside(r, regions - 1, n);
    }
  }

  lemma SlotsApart(q: nat, r: nat, n: nat)
    requires q != r
    ensures Base(q, n) + n <= Base(r, n) || Base(r, n) + n <= Base(q, n)
  {
    if q < r {
      SlotInside(q, r, n);
    } else {
      SlotInside(r, q, n);
    }
  }

  /** A change inside slot `r` changes that slot alone. */
  lemma SlotsAfter<T>(v: seq<T>, w: seq<T>, r: nat, q: nat, n: nat)
    requires |w| == |v| && Base(r, n) + n <= |v| && q != r
    requires forall i :: 0 <= i < Base(r, n) || Base(r, n) + n <= i < |v| ==> w[i] == v[i]
    ensures Slot(w, q, n) == Slot(v, q, n)
  {
    SlotsApart(q, r, n);
  }

  /** One hit of counter `i`. */
  function Bump(v: seq<nat>, i: nat): (w: seq<nat>)
    requires i < |v|
    ensures |w| == |v|
  {
    v[i := v[i] + 1]
  }

  lemma SlotBumped(v: seq<nat>, r: nat, n: nat, b: nat)
    requires Base(r, n) + n <= |v| && b < n
    ensures Slot(Bump(v, Base(r, n) + b), r, n) == Bump(Slot(v, r, n), b)
  {
    SlotUpdated(v, r, n, b, v[Base(r, n) + b] + 1);
  }

  lemma OtherSlotBumped(v: seq<nat>, r: nat, n: nat, b: nat, q: nat)
    requires Base(r, n) + n <= |v| && b < n && q != r
    ensures Slot(Bump(v, Base(r, n) + b), q, n) == Slot(v, q, n)
  {
    SlotsAfter(v, Bump(v, Base(r, n) + b), r, q, n);
  }

  lemma SlotUpdated<T>(v: seq<T>, r: nat, n: nat, b: nat, x: T)
    requires Base(r, n) + n <= |v| && b < n
    ensures Slot(v[Base(r, n) + b := x], r, n) == Slot(v, r, n)[b := x]
    ensures v[Base(r, n) + b] == Slot(v, r, n)[b]
  {
    var from := Base(r, n);
    assert v[from + b := x][from..from + n] == v[from..from + n][b := x];
  }

  /** Slot `r` of `w` is `slot`; the other slots are those of `v`. */
  ghost predicate SlotReplaced<T(!new)>(v: seq<T>, w: seq<T>, regions: nat, r: nat, n: nat, slot: seq<T>) {
    && |w| == |v| && Slot(w, r, n) == slot
    && forall q :: 0 <= q < regions && q != r ==> Slot(w, q, n) == Slot(v, q, n)
  }

  lemma ReplacesSlot<T(!new)>(v: seq<T>, w: seq<T>, regions: nat, r: nat, n: nat)
    requires |w| == |v| == Base(regions, n) && r < regions && Base(r, n) + n <= |v|
    requires forall i :: 0 <= i < Base(r, n) || Base(r, n) + n <= i < |v| ==> w[i] == v[i]
    ensures SlotReplaced(v, w, regions, r, n, w[Base(r, n)..Base(r, n) + n])
  {
    forall q | 0 <= q < regions && q != r
      ensures Slot(w, q, n) == Slot(v, q, n)
    {
      SlotsAfter(v, w, r, q, n);
    }
  }
}
