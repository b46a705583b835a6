/**
  The hierarchical memory: adjacent symbols are paired layer by layer, and each distinct pair gets one
  stable relation id.
*/
module HierarchicalMemory {
  import opened Words
  import opened Common
  import opened Expansion

  datatype RelationNode = RelationNode(id: SymbolId, left: SymbolId, right: SymbolId, layer: nat, refCount: Word)

  datatype EncodeResult = EncodeResult(trail: seq<SymbolId>, inputBytes: nat, relationsUsed: nat)

  type Relations = seq<RelationNode>

  function Pairs(rels: Relations): (pairs: seq<Pair>)
    ensures |pairs| == |rels|
  {
    seq(|rels|, i requires 0 <= i < |rels| => (rels[i].left, rels[i].right))
  }

  /** Ids are contiguous from BASE, children come earlier, no pair occurs twice. */
  ghost predicate WellFormed(rels: Relations) {
    && (forall i :: 0 <= i < |rels| ==> rels[i].id == BASE + i)
    && WellFounded(Pairs(rels)) && Distinct(Pairs(rels))
  }

  // ---------- what the operations compute ----------

  /** The id of a pair, if the table has it. */
  function Find(rels: Relations, left: SymbolId, right: SymbolId): Option<SymbolId> {
    if rels == [] then None
    else
      var last := |rels| - 1;
      if rels[last].left == left && rels[last].right == right then Some(BASE + last)
      else Find(rels[..last], left, right)
  }

  /** One more use of relation `i`; the counter is 64 bits wide. */
  function Bumped(rels: Relations, i: nat): (r: Relations)
    requires i < |rels|
    ensures |r| == |rels|
  {
    rels[i := rels[i].(refCount := (rels[i].refCount + 1) % WORD)]
  }

  lemma {:induction false} FindSound(rels: Relations, left: SymbolId, right: SymbolId)
    ensures match Find(rels, left, right)
            case Some(id) => BASE <= id < BASE + |rels| && Pairs(rels)[id - BASE] == (left, right)
            case None => forall i :: 0 <= i < |rels| ==> Pairs(rels)[i] != (left, right)
  {
    if rels != [] {
      var front := rels[..|rels| - 1];
      FindSound(front, left, right);
      assert forall i :: 0 <= i < |front| ==> Pairs(rels)[i] == Pairs(front)[i];
    }
  }

  function GetOrCreate(rels: Relations, left: SymbolId, right: SymbolId, layer: nat): (Relations, SymbolId) {
    FindSound(rels, left, right);
    match Find(rels, left, right)
    case Some(id) => (Bumped(rels, id - BASE), id)
    case None => (rels + [RelationNode(BASE + |rels|, left, right, layer, 1)], BASE + |rels|)
  }

  datatype Paired = Paired(rels: Relations, trail: seq<SymbolId>, used: nat)

  /** One layer: adjacent symbols are replaced by their relation, an odd last symbol stays. */
  function PairUp(rels: Relations, trail: seq<SymbolId>, layer: nat): (p: Paired)
    ensures |p.trail| == (|trail| + 1) / 2
    decreases |trail|
  {
    if |trail| < 2 then Paired(rels, trail, 0)
    else
      var (rels1, id) := GetOrCreate(rels, trail[0], trail[1], layer);
      var rest := PairUp(rels1, trail[2..], layer);
      Paired(rest.rels, [id] + rest.trail, rest.used + 1)
  }

  /** All layers from `layer` on. */
  function Layers(rels: Relations, trail: seq<SymbolId>, layer: nat, maxLayers: nat): Paired
    decreases |trail|
  {
    if layer <= maxLayers && |trail| >= 2 then
      var p := PairUp(rels, trail, layer);
      var rest := Layers(p.rels, p.trail, layer + 1, maxLayers);
      Paired(rest.rels, rest.trail, p.used + rest.used)
    else
      Paired(rels, trail, 0)
  }

  function Encoded(rels: Relations, data: seq<Byte>, maxLayers: nat): Paired {
    Layers(rels, BytesAsSymbols(data), 1, maxLayers)
  }

  // ---------- one pair ----------

  lemma GetOrCreateKeeps(rels: Relations, left: SymbolId, right: SymbolId, layer: nat)
    requires WellFormed(rels) && left < BASE + |rels| && right < BASE + |rels|
    ensures var (after, id) := GetOrCreate(rels, left, right, layer);
            && WellFormed(after) && Pairs(rels) <= Pairs(after)
            && BASE <= id < BASE + |after| && Pairs(after)[id - BASE] == (left, right)
  {
    FindSound(rels, left, right);
    var (after, id) := GetOrCreate(rels, left, right, layer);
    match Find(rels, left, right)
    case Some(found) =>
      assert Pairs(after) == Pairs(rels);
    case None =>
      assert Pairs(after) == Pairs(rels) + [(left, right)];
  }

  lemma GetOrCreateExpands(rels: Relations, left: SymbolId, right: SymbolId, layer: nat)
    requires WellFormed(rels) && left < BASE + |rels| && right < BASE + |rels|
    requires var (after, id) := GetOrCreate(rels, left, right, layer);
             WellFounded(Pairs(after)) && id < BASE + |after|
    ensures var (after, id) := GetOrCreate(rels, left, right, layer);
            Expand(Pairs(after), id) == Expand(Pairs(rels), left) + Expand(Pairs(rels), right)
  {
    GetOrCreateKeeps(rels, left, right, layer);
    var (after, id) := GetOrCreate(rels, left, right, layer);
    ExpandStable(Pairs(rels), Pairs(after), left);
    ExpandStable(Pairs(rels), Pairs(after), right);
  }

  // ---------- lossless ----------

  lemma {:induction false} PairUpKeeps(rels: Relations, trail: seq<SymbolId>, layer: nat)
    requires WellFormed(rels) && Known(Pairs(rels), trail)
    ensures var p := PairUp(rels, trail, layer);
            WellFormed(p.rels) && Pairs(rels) <= Pairs(p.rels) && Known(Pairs(p.rels), p.trail)
    decreases |trail|
  {
    if |trail| >= 2 {
      var (rels1, id) := GetOrCreate(rels, trail[0], trail[1], layer);
      GetOrCreateKeeps(rels, trail[0], trail[1], layer);
      PairUpKeeps(rels1, trail[2..], layer);
    }
  }

  lemma {:induction false} PairUpExpands(rels: Relations, trail: seq<SymbolId>, layer: nat)
    requires WellFormed(rels) && Known(Pairs(rels), trail)
    ensures var p := PairUp(rels, trail, layer);
            && WellFormed(p.rels) && Known(Pairs(p.rels), p.trail)
            && ExpandAll(Pairs(p.rels), p.trail) == ExpandAll(Pairs(rels), trail)
    decreases |trail|
  {
    PairUpKeeps(rels, trail, layer);
    if |trail| >= 2 {
      var (rels1, id) := GetOrCreate(rels, trail[0], trail[1], layer);
      GetOrCreateKeeps(rels, trail[0], trail[1], layer);
      GetOrCreateExpands(rels, trail[0], trail[1], layer);
      var rest := trail[2..];
      var p := PairUp(rels1, rest, layer);
      PairUpKeeps(rels1, rest, layer);
      PairUpExpands(rels1, rest, layer);
      ExpandAllStable(Pairs(rels), Pairs(rels1), rest);
      ExpandStable(Pairs(rels1), Pairs(p.rels), id);
      TwoSymbols(Pairs(rels), trail);
      assert PairUp(rels, trail, layer).trail[1..] == p.trail;
    }
  }

  lemma TwoSymbols(pairs: seq<Pair>, trail: seq<SymbolId>)
    requires WellFounded(pairs) && Known(pairs, trail) && |trail| >= 2
    ensures ExpandAll(pairs, trail) == Expand(pairs, trail[0]) + Expand(pairs, trail[1]) + ExpandAll(pairs, trail[2..])
  {
    assert trail[1..][1..] == trail[2..];
  }

  lemma {:induction false} LayersExpand(rels: Relations, trail: seq<SymbolId>, layer: nat, maxLayers: nat)
    requires WellFormed(rels) && Known(Pairs(rels), trail)
    ensures var p := Layers(rels, trail, layer, maxLayers);
            && WellFormed(p.rels) && Pairs(rels) <= Pairs(p.rels) && Known(Pairs(p.rels), p.trail)
            && ExpandAll(Pairs(p.rels), p.trail) == ExpandAll(Pairs(rels), trail)
    decreases |trail|
  {
    if layer <= maxLayers && |trail| >= 2 {
      var p := PairUp(rels, trail, layer);
      PairUpKeeps(rels, trail, layer);
      PairUpExpands(rels, trail, layer);
      LayersExpand(p.rels, p.trail, layer + 1, maxLayers);
    }
  }

  /** Encoding is lossless and append-only. */
  lemma EncodeRoundTrip(rels: Relations, data: seq<Byte>, maxLayers: nat)
    requires WellFormed(rels)
    ensures var e := Encoded(rels, data, maxLayers);
            && WellFormed(e.rels) && Pairs(rels) <= Pairs(e.rels)
            && Decoded(Pairs(e.rels), e.trail) == Ok(data)
  {
    ExpandBytes(Pairs(rels), data);
    LayersExpand(rels, BytesAsSymbols(data), 1, maxLayers);
  }

  // ---------- trail length ----------

  function CeilDiv(n: nat, c: nat): nat
    requires c > 0
  {
    (n + c - 1) / c
  }

  /** Halving and then dividing rounds up like dividing at once. */
  lemma CeilHalves(n: nat, c: nat)
    requires c > 0
    ensures CeilDiv((n + 1) / 2, c) == CeilDiv(n, 2 * c)
  {
    var v := n + 2 * c - 1;
    var q, r := v / (2 * c), v % (2 * c);
    assert v == q * (2 * c) + r;
    assert q * (2 * c) == 2 * (q * c);
    DivideUnique((n + 1) / 2 + c - 1, c, q);
  }

  lemma {:induction false} LayersLength(rels: Relations, trail: seq<SymbolId>, layer: nat, maxLayers: nat)
    requires layer <= maxLayers + 1
    ensures |Layers(rels, trail, layer, maxLayers).trail| == CeilDiv(|trail|, Pow2(maxLayers + 1 - layer))
    decreases |trail|
  {
    var k := maxLayers + 1 - layer;
    if layer <= maxLayers && |trail| >= 2 {
      var p := PairUp(rels, trail, layer);
      LayersLength(p.rels, p.trail, layer + 1, maxLayers);
      CeilHalves(|trail|, Pow2(k - 1));
    } else if layer <= maxLayers {
      DivideUnique(|trail| + Pow2(k) - 1, Pow2(k), |trail|);
    }
  }

  /** A trail of `maxLayers` layers has one symbol for every 2^maxLayers bytes begun. */
  lemma TrailLength(rels: Relations, data: seq<Byte>, maxLayers: nat)
    ensures |Encoded(rels, data, maxLayers).trail| == CeilDiv(|data|, Pow2(maxLayers))
  {
    LayersLength(rels, BytesAsSymbols(data), 1, maxLayers);
  }

  // ---------- canonical naming ----------

  ghost predicate IsPow2(n: nat) {
    exists k: nat :: Pow2(k) == n
  }

  ghost function Size(pairs: seq<Pair>, s: SymbolId): (n: nat)
    requires WellFounded(pairs) && s < BASE + |pairs|
    ensures n > 0
  {
    |Expand(pairs, s)|
  }

  /** The left child covers a power of two bytes, the right one at most as many. */
  ghost predicate CanonicalPair(pairs: seq<Pair>, left: SymbolId, right: SymbolId)
    requires WellFounded(pairs) && left < BASE + |pairs| && right < BASE + |pairs|
  {
    IsPow2(Size(pairs, left)) && Size(pairs, right) <= Size(pairs, left)
  }

  ghost predicate Canonical(pairs: seq<Pair>) {
    && WellFounded(pairs) && Distinct(pairs)
    && forall i :: 0 <= i < |pairs| ==> CanonicalAt(pairs, i)
  }

  ghost predicate CanonicalAt(pairs: seq<Pair>, i: nat)
    requires WellFounded(pairs) && i < |pairs|
  {
    CanonicalPair(pairs, pairs[i].0, pairs[i].1)
  }

  /** All symbols of the trail cover exactly `w` bytes, the last one at most `w`. */
  ghost predicate Blocked(pairs: seq<Pair>, trail: seq<SymbolId>, w: nat)
    requires WellFounded(pairs) && Known(pairs, trail)
  {
    forall i :: 0 <= i < |trail| ==>
      Size(pairs, trail[i]) <= w && (i < |trail| - 1 ==> Size(pairs, trail[i]) == w)
  }

  lemma {:induction false} Pow2Strict(j: nat, k: nat)
    requires j < k
    ensures 2 * Pow2(j) <= Pow2(k)
    decreases k
  {
    if j < k - 1 {
      Pow2Strict(j, k - 1);
    }
  }

  /** A number has only one split into a power of two and a positive rest not above it. */
  lemma SplitUnique(a: nat, b: nat, c: nat, d: nat)
    requires IsPow2(a) && IsPow2(c) && 0 < b <= a && 0 < d <= c && a + b == c + d
    ensures a == c
  {
    var j: nat :| Pow2(j) == a;
    var k: nat :| Pow2(k) == c;
    if j < k {
      Pow2Strict(j, k);
    } else if k < j {
      Pow2Strict(k, j);
    }
  }

  /** In a canonical table, symbols with the same expansion are the same symbol. */
  lemma {:induction false} NamesAreCanonical(pairs: seq<Pair>, s: SymbolId, t: SymbolId)
    requires Canonical(pairs) && s < BASE + |pairs| && t < BASE + |pairs|
    requires Expand(pairs, s) == Expand(pairs, t)
    ensures s == t
    decreases s
  {
    if s < BASE {
      SingleByte(pairs, s, t);
    } else if t < BASE {
      SingleByte(pairs, t, s);
    } else {
      var (l, r) := pairs[s - BASE];
      var (l', r') := pairs[t - BASE];
      assert CanonicalAt(pairs, s - BASE) && CanonicalAt(pairs, t - BASE);
      SplitUnique(Size(pairs, l), Size(pairs, r), Size(pairs, l'), Size(pairs, r'));
      SameHalves(Expand(pairs, l), Expand(pairs, r), Expand(pairs, l'), Expand(pairs, r'));
      NamesAreCanonical(pairs, l, l');
      NamesAreCanonical(pairs, r, r');
      assert pairs[s - BASE] == pairs[t - BASE];
    }
  }

  lemma SingleByte(pairs: seq<Pair>, s: SymbolId, t: SymbolId)
    requires WellFounded(pairs) && s < BASE && t < BASE + |pairs| && Expand(pairs, s) == Expand(pairs, t)
    ensures s == t
  {
    if t >= BASE {
      RelationIsLong(pairs, t);
    } else {
      assert Expand(pairs, s)[0] == s && Expand(pairs, t)[0] == t;
    }
  }

  lemma RelationIsLong(pairs: seq<Pair>, t: SymbolId)
    requires WellFounded(pairs) && BASE <= t < BASE + |pairs|
    ensures Size(pairs, t) >= 2
  {}

  lemma SameHalves(a: seq<Byte>, b: seq<Byte>, c: seq<Byte>, d: seq<Byte>)
    requires |a| == |c| && a + b == c + d
    ensures a == c && b == d
  {
    assert a == (a + b)[..|a|] && c == (c + d)[..|c|];
    assert b == (a + b)[|a|..] && d == (c + d)[|c|..];
  }

  lemma CanonicalStable(pairs: seq<Pair>, longer: seq<Pair>, left: SymbolId, right: SymbolId)
    requires WellFounded(pairs) && WellFounded(longer) && pairs <= longer
    requires left < BASE + |pairs| && right < BASE + |pairs| && CanonicalPair(pairs, left, right)
    ensures CanonicalPair(longer, left, right)
  {
    ExpandStable(pairs, longer, left);
    ExpandStable(pairs, longer, right);
  }

  lemma GetOrCreateCanonical(rels: Relations, left: SymbolId, right: SymbolId, layer: nat)
    requires WellFormed(rels) && Canonical(Pairs(rels))
    requires left < BASE + |rels| && right < BASE + |rels| && CanonicalPair(Pairs(rels), left, right)
    ensures Canonical(Pairs(GetOrCreate(rels, left, right, layer).0))
  {
    GetOrCreateKeeps(rels, left, right, layer);
    FindSound(rels, left, right);
    var after := GetOrCreate(rels, left, right, layer).0;
    var pairs, longer := Pairs(rels), Pairs(after);
    forall i | 0 <= i < |longer|
      ensures CanonicalAt(longer, i)
    {
      if i < |pairs| {
        assert longer[i] == pairs[i] && CanonicalAt(pairs, i);
        CanonicalStable(pairs, longer, pairs[i].0, pairs[i].1);
      } else {
        CanonicalStable(pairs, longer, left, right);
      }
    }
  }

  lemma BlockedStable(pairs: seq<Pair>, longer: seq<Pair>, trail: seq<SymbolId>, w: nat)
    requires WellFounded(pairs) && WellFounded(longer) && pairs <= longer && Known(pairs, trail)
    requires Blocked(pairs, trail, w)
    ensures Known(longer, trail) && Blocked(longer, trail, w)
  {
    forall i | 0 <= i < |trail|
      ensures Size(longer, trail[i]) == Size(pairs, trail[i])
    {
      ExpandStable(pairs, longer, trail[i]);
    }
  }

  lemma BlockedTail(pairs: seq<Pair>, trail: seq<SymbolId>, w: nat)
    requires WellFounded(pairs) && Known(pairs, trail) && Blocked(pairs, trail, w) && |trail| >= 2
    ensures Known(pairs, trail[2..]) && Blocked(pairs, trail[2..], w)
  {
    forall i | 0 <= i < |trail[2..]|
      ensures trail[2..][i] == trail[i + 2]
    {}
  }

  /** A layer of width-w symbols pairs up to a layer of width-2w symbols, canonically. */
  lemma {:induction false} PairUpCanonical(rels: Relations, trail: seq<SymbolId>, layer: nat, w: nat)
    requires WellFormed(rels) && Canonical(Pairs(rels)) && Known(Pairs(rels), trail)
    requires IsPow2(w) && Blocked(Pairs(rels), trail, w)
    ensures var p := PairUp(rels, trail, layer);
            && WellFormed(p.rels) && Canonical(Pairs(p.rels)) && Known(Pairs(p.rels), p.trail)
            && Blocked(Pairs(p.rels), p.trail, 2 * w)
    decreases |trail|
  {
    PairUpKeeps(rels, trail, layer);
    if |trail| >= 2 {
      var (rels1, id) := GetOrCreate(rels, trail[0], trail[1], layer);
      assert CanonicalPair(Pairs(rels), trail[0], trail[1]);
      GetOrCreateKeeps(rels, trail[0], trail[1], layer);
      GetOrCreateCanonical(rels, trail[0], trail[1], layer);
      GetOrCreateExpands(rels, trail[0], trail[1], layer);
      BlockedTail(Pairs(rels), trail, w);
      BlockedStable(Pairs(rels), Pairs(rels1), trail[2..], w);
      PairUpCanonical(rels1, trail[2..], layer, w);
      var p := PairUp(rels1, trail[2..], layer);
      PairUpKeeps(rels1, trail[2..], layer);
      ExpandStable(Pairs(rels1), Pairs(p.rels), id);
      BlockedPush(Pairs(p.rels), id, p.trail, 2 * w, |trail|);
    }
  }

  lemma BlockedPush(pairs: seq<Pair>, id: SymbolId, rest: seq<SymbolId>, w: nat, n: nat)
    requires WellFounded(pairs) && Known(pairs, rest) && Blocked(pairs, rest, w) && id < BASE + |pairs|
    requires Size(pairs, id) <= w && (rest != [] ==> Size(pairs, id) == w)
    ensures Known(pairs, [id] + rest) && Blocked(pairs, [id] + rest, w)
  {}

  lemma DoublePow2(w: nat)
    requires IsPow2(w)
    ensures IsPow2(2 * w)
  {
    var k: nat :| Pow2(k) == w;
    assert Pow2(k + 1) == 2 * w;
  }

  lemma {:induction false} LayersCanonical(rels: Relations, trail: seq<SymbolId>, layer: nat, maxLayers: nat, w: nat)
    requires WellFormed(rels) && Canonical(Pairs(rels)) && Known(Pairs(rels), trail)
    requires IsPow2(w) && Blocked(Pairs(rels), trail, w)
    ensures WellFormed(Layers(rels, trail, layer, maxLayers).rels)
    ensures Canonical(Pairs(Layers(rels, trail, layer, maxLayers).rels))
    decreases |trail|
  {
    if layer <= maxLayers && |trail| >= 2 {
      var p := PairUp(rels, trail, layer);
      PairUpCanonical(rels, trail, layer, w);
      DoublePow2(w);
      LayersCanonical(p.rels, p.trail, layer + 1, maxLayers, 2 * w);
    }
  }

  /** Encoding keeps the table canonical, whatever the data and the number of layers. */
  lemma EncodeCanonical(rels: Relations, data: seq<Byte>, maxLayers: nat)
    requires WellFormed(rels) && Canonical(Pairs(rels))
    ensures WellFormed(Encoded(rels, data, maxLayers).rels)
    ensures Canonical(Pairs(Encoded(rels, data, maxLayers).rels))
  {
    ExpandBytes(Pairs(rels), data);
    assert Pow2(0) == 1;
    LayersCanonical(rels, BytesAsSymbols(data), 1, maxLayers, 1);
  }

  // ---------- what a layer says ----------

  /** The left child covers exactly the bytes of a full symbol of the layer below, the right one at most as many. */
  ghost predicate LayerTells(rels: Relations, i: nat)
    requires WellFormed(rels) && i < |rels|
  {
    var node := rels[i];
    && node.layer > 0 && Size(Pairs(rels), Pairs(rels)[i].0) == Pow2(node.layer - 1)
    && Size(Pairs(rels), Pairs(rels)[i].1) <= Pow2(node.layer - 1)
  }

  ghost predicate Layered(rels: Relations) {
    WellFormed(rels) && forall i :: 0 <= i < |rels| ==> LayerTells(rels, i)
  }

  lemma LayerTellsStable(rels: Relations, after: Relations, i: nat)
    requires WellFormed(rels) && WellFormed(after) && Pairs(rels) <= Pairs(after) && i < |rels|
    requires after[i].layer == rels[i].layer && LayerTells(rels, i)
    ensures LayerTells(after, i)
  {
    assert Pairs(after)[i] == Pairs(rels)[i];
    ExpandStable(Pairs(rels), Pairs(after), Pairs(rels)[i].0);
    ExpandStable(Pairs(rels), Pairs(after), Pairs(rels)[i].1);
  }

  lemma GetOrCreateLayered(rels: Relations, left: SymbolId, right: SymbolId, layer: nat)
    requires Layered(rels) && layer > 0 && left < BASE + |rels| && right < BASE + |rels|
    requires Size(Pairs(rels), left) == Pow2(layer - 1) && Size(Pairs(rels), right) <= Pow2(layer - 1)
    ensures Layered(GetOrCreate(rels, left, right, layer).0)
  {
    GetOrCreateKeeps(rels, left, right, layer);
    FindSound(rels, left, right);
    var after := GetOrCreate(rels, left, right, layer).0;
    forall i | 0 <= i < |after|
      ensures LayerTells(after, i)
    {
      if i < |rels| {
        LayerTellsStable(rels, after, i);
      } else {
        assert Pairs(after)[i] == (left, right);
        ExpandStable(Pairs(rels), Pairs(after), left);
        ExpandStable(Pairs(rels), Pairs(after), right);
      }
    }
  }

  lemma {:induction false} PairUpLayered(rels: Relations, trail: seq<SymbolId>, layer: nat)
    requires Layered(rels) && layer > 0 && Known(Pairs(rels), trail)
    requires Blocked(Pairs(rels), trail, Pow2(layer - 1))
    ensures Layered(PairUp(rels, trail, layer).rels)
    decreases |trail|
  {
    if |trail| >= 2 {
      var rels1 := GetOrCreate(rels, trail[0], trail[1], layer).0;
      GetOrCreateKeeps(rels, trail[0], trail[1], layer);
      GetOrCreateLayered(rels, trail[0], trail[1], layer);
      BlockedTail(Pairs(rels), trail, Pow2(layer - 1));
      BlockedStable(Pairs(rels), Pairs(rels1), trail[2..], Pow2(layer - 1));
      PairUpLayered(rels1, trail[2..], layer);
    }
  }

  lemma LayeredIsCanonical(rels: Relations)
    requires Layered(rels)
    ensures Canonical(Pairs(rels))
  {
    forall i | 0 <= i < |rels|
      ensures CanonicalAt(Pairs(rels), i)
    {
      assert LayerTells(rels, i);
    }
  }

  lemma {:induction false} LayersLayered(rels: Relations, trail: seq<SymbolId>, layer: nat, maxLayers: nat)
    requires Layered(rels) && layer > 0 && Known(Pairs(rels), trail)
    requires Blocked(Pairs(rels), trail, Pow2(layer - 1))
    ensures Layered(Layers(rels, trail, layer, maxLayers).rels)
    decreases |trail|
  {
    if layer <= maxLayers && |trail| >= 2 {
      var p := PairUp(rels, trail, layer);
      LayeredIsCanonical(rels);
      PairUpLayered(rels, trail, layer);
      PairUpCanonical(rels, trail, layer, Pow2(layer - 1));
      LayersLayered(p.rels, p.trail, layer + 1, maxLayers);
    }
  }

  /** Encoding keeps the layers telling the truth, whatever the data and the number of layers. */
  lemma EncodeLayered(rels: Relations, data: seq<Byte>, maxLayers: nat)
    requires Layered(rels)
    ensures Layered(Encoded(rels, data, maxLayers).rels)
  {
    ExpandBytes(Pairs(rels), data);
    assert Pow2(0) == 1;
    LayersLayered(rels, BytesAsSymbols(data), 1, maxLayers);
  }

  // ---------- encoding again ----------

  /** A later table that already has the pairs finds them all. */
  lemma FindKnown(later: Relations, id: SymbolId, left: SymbolId, right: SymbolId)
    requires WellFormed(later) && BASE <= id < BASE + |later| && Pairs(later)[id - BASE] == (left, right)
    ensures Find(later, left, right) == Some(id)
  {
    FindSound(later, left, right);
  }

  lemma FoundAgain(later: Relations, id: SymbolId, left: SymbolId, right: SymbolId, layer: nat)
    requires WellFormed(later) && BASE <= id < BASE + |later| && Pairs(later)[id - BASE] == (left, right)
    ensures GetOrCreate(later, left, right, layer) == (Bumped(later, id - BASE), id)
    ensures WellFormed(Bumped(later, id - BASE)) && Pairs(Bumped(later, id - BASE)) == Pairs(later)
  {
    FindKnown(later, id, left, right);
    assert Pairs(Bumped(later, id - BASE)) == Pairs(later);
  }

  lemma {:induction false} PairUpAgain(rels: Relations, later: Relations, trail: seq<SymbolId>, layer: nat)
    requires WellFormed(rels) && Known(Pairs(rels), trail) && WellFormed(later)
    requires Pairs(PairUp(rels, trail, layer).rels) <= Pairs(later)
    ensures PairUp(later, trail, layer).trail == PairUp(rels, trail, layer).trail
    ensures Pairs(PairUp(later, trail, layer).rels) == Pairs(later)
    ensures WellFormed(PairUp(later, trail, layer).rels)
    decreases |trail|
  {
    if |trail| >= 2 {
      var (rels1, id) := GetOrCreate(rels, trail[0], trail[1], layer);
      GetOrCreateKeeps(rels, trail[0], trail[1], layer);
      PairUpKeeps(rels1, trail[2..], layer);
      assert Pairs(rels1)[id - BASE] == Pairs(later)[id - BASE];
      FoundAgain(later, id, trail[0], trail[1], layer);
      PairUpAgain(rels1, Bumped(later, id - BASE), trail[2..], layer);
    }
  }

  lemma {:induction false} LayersAgain(rels: Relations, later: Relations, trail: seq<SymbolId>,
                                       layer: nat, maxLayers: nat)
    requires WellFormed(rels) && Known(Pairs(rels), trail) && WellFormed(later)
    requires Pairs(Layers(rels, trail, layer, maxLayers).rels) <= Pairs(later)
    ensures Layers(later, trail, layer, maxLayers).trail == Layers(rels, trail, layer, maxLayers).trail
    ensures Pairs(Layers(later, trail, layer, maxLayers).rels) == Pairs(later)
    decreases |trail|
  {
    if layer <= maxLayers && |trail| >= 2 {
      var p := PairUp(rels, trail, layer);
      FirstLayer(rels, trail, layer, maxLayers);
      PairUpAgain(rels, later, trail, layer);
      LayersUnfold(rels, trail, layer, maxLayers);
      LayersUnfold(later, trail, layer, maxLayers);
      LayersAgain(p.rels, PairUp(later, trail, layer).rels, p.trail, layer + 1, maxLayers);
    }
  }

  lemma FirstLayer(rels: Relations, trail: seq<SymbolId>, layer: nat, maxLayers: nat)
    requires WellFormed(rels) && Known(Pairs(rels), trail) && layer <= maxLayers && |trail| >= 2
    ensures var p := PairUp(rels, trail, layer);
            && WellFormed(p.rels) && Known(Pairs(p.rels), p.trail)
            && Pairs(p.rels) <= Pairs(Layers(rels, trail, layer, maxLayers).rels)
  {
    var p := PairUp(rels, trail, layer);
    PairUpKeeps(rels, trail, layer);
    LayersExpand(p.rels, p.trail, layer + 1, maxLayers);
    LayersUnfold(rels, trail, layer, maxLayers);
  }

  lemma LayersUnfold(rels: Relations, trail: seq<SymbolId>, layer: nat, maxLayers: nat)
    requires layer <= maxLayers && |trail| >= 2
    ensures var p := PairUp(rels, trail, layer);
            && Layers(rels, trail, layer, maxLayers).trail == Layers(p.rels, p.trail, layer + 1, maxLayers).trail
            && Layers(rels, trail, layer, maxLayers).rels == Layers(p.rels, p.trail, layer + 1, maxLayers).rels
  {}

  /** Data seen before creates no relation and gets the same trail, however much was learned in between. */
  lemma EncodeAgain(rels: Relations, later: Relations, data: seq<Byte>, maxLayers: nat)
    requires WellFormed(rels) && WellFormed(later)
    requires Pairs(Encoded(rels, data, maxLayers).rels) <= Pairs(later)
    ensures Encoded(later, data, maxLayers).trail == Encoded(rels, data, maxLayers).trail
    ensures Pairs(Encoded(later, data, maxLayers).rels) == Pairs(later)
  {
    ExpandBytes(Pairs(rels), data);
    LayersAgain(rels, later, BytesAsSymbols(data), 1, maxLayers);
  }

  // ---------- use counts ----------

  function RefSum(rels: Relations): nat {
    if rels == [] then 0 else RefSum(rels[..|rels| - 1]) + rels[|rels| - 1].refCount
  }

  lemma {:induction false} RefSumUpdate(rels: Relations, i: nat, n: RelationNode)
    requires i < |rels|
    ensures RefSum(rels[i := n]) == RefSum(rels) - rels[i].refCount + n.refCount
  {
    var last := |rels| - 1;
    if i == last {
      assert rels[i := n][..last] == rels[..last];
    } else {
      assert rels[i := n][..last] == rels[..last][i := n];
      RefSumUpdate(rels[..last], i, n);
    }
  }

  /** The counters went up by `used`, in 64-bit arithmetic. */
  ghost predicate UsesAdded(before: nat, after: nat, used: nat) {
    after % WORD == (before + used) % WORD
  }

  lemma GetOrCreateRefs(rels: Relations, left: SymbolId, right: SymbolId, layer: nat)
    ensures UsesAdded(RefSum(rels), RefSum(GetOrCreate(rels, left, right, layer).0), 1)
  {
    FindSound(rels, left, right);
    match Find(rels, left, right)
    case Some(id) =>
      var i := id - BASE;
      RefSumAtLeast(rels, i);
      RefSumUpdate(rels, i, rels[i].(refCount := (rels[i].refCount + 1) % WORD));
      OneMoreUse(rels[i].refCount, RefSum(rels));
    case None =>
      var after := GetOrCreate(rels, left, right, layer).0;
      assert after[..|after| - 1] == rels;
  }

  lemma OneMoreUse(count: Word, sum: nat)
    requires count <= sum
    ensures UsesAdded(sum, sum - count + (count + 1) % WORD, 1)
  {
    assert count + 1 == WORD ==> sum - count + (count + 1) % WORD + WORD == sum + 1;
  }

  lemma {:induction false} RefSumAtLeast(rels: Relations, i: nat)
    requires i < |rels|
    ensures rels[i].refCount <= RefSum(rels)
  {
    if i < |rels| - 1 {
      RefSumAtLeast(rels[..|rels| - 1], i);
    }
  }

  lemma {:induction false} PairUpRefs(rels: Relations, trail: seq<SymbolId>, layer: nat)
    ensures var p := PairUp(rels, trail, layer); UsesAdded(RefSum(rels), RefSum(p.rels), p.used)
    decreases |trail|
  {
    if |trail| >= 2 {
      var (rels1, id) := GetOrCreate(rels, trail[0], trail[1], layer);
      GetOrCreateRefs(rels, trail[0], trail[1], layer);
      PairUpRefs(rels1, trail[2..], layer);
      var rest := PairUp(rels1, trail[2..], layer);
      UsesChain(RefSum(rels), RefSum(rels1), RefSum(rest.rels), 1, rest.used);
    }
  }

  lemma UsesChain(a: nat, b: nat, c: nat, u: nat, v: nat)
    requires UsesAdded(a, b, u) && UsesAdded(b, c, v)
    ensures UsesAdded(a, c, u + v)
  {}

  lemma {:induction false} LayersRefs(rels: Relations, trail: seq<SymbolId>, layer: nat, maxLayers: nat)
    ensures var p := Layers(rels, trail, layer, maxLayers); UsesAdded(RefSum(rels), RefSum(p.rels), p.used)
    decreases |trail|
  {
    if layer <= maxLayers && |trail| >= 2 {
      var p := PairUp(rels, trail, layer);
      var rest := Layers(p.rels, p.trail, layer + 1, maxLayers);
      PairUpRefs(rels, trail, layer);
      LayersRefs(p.rels, p.trail, layer + 1, maxLayers);
      assert Layers(rels, trail, layer, maxLayers) == Paired(rest.rels, rest.trail, p.used + rest.used);
      UsesChain(RefSum(rels), RefSum(p.rels), RefSum(rest.rels), p.used, rest.used);
    }
  }

  // ---------- every history of encodes ----------

  datatype Job = Job(data: seq<Byte>, maxLayers: nat)

  /** The table after a history of encodes, starting empty. */
  function History(jobs: seq<Job>): Relations {
    if jobs == [] then []
    else var last := jobs[|jobs| - 1]; Encoded(History(jobs[..|jobs| - 1]), last.data, last.maxLayers).rels
  }

  function TotalUsed(jobs: seq<Job>): nat {
    if jobs == [] then 0
    else var last := jobs[|jobs| - 1];
      TotalUsed(jobs[..|jobs| - 1]) + Encoded(History(jobs[..|jobs| - 1]), last.data, last.maxLayers).used
  }

  /**
    After any history of encodes: symbols with equal expansions are equal, and the use counts add up to the
    relations used, modulo the width of the counters.
  */
  lemma {:induction false} HistoryInvariant(jobs: seq<Job>)
    ensures WellFormed(History(jobs)) && Canonical(Pairs(History(jobs)))
    ensures UsesAdded(0, RefSum(History(jobs)), TotalUsed(jobs))
  {
    if jobs != [] {
      var front, last := jobs[..|jobs| - 1], jobs[|jobs| - 1];
      HistoryInvariant(front);
      EncodeCanonical(History(front), last.data, last.maxLayers);
      LayersRefs(History(front), BytesAsSymbols(last.data), 1, last.maxLayers);
      var e := Encoded(History(front), last.data, last.maxLayers);
      UsesChain(0, RefSum(History(front)), RefSum(e.rels), TotalUsed(front), e.used);
    }
  }

  /** After any history of encodes, the layer stored in a relation says how many bytes its left child covers. */
  lemma {:induction false} HistoryLayered(jobs: seq<Job>)
    ensures Layered(History(jobs))
  {
    if jobs != [] {
      var front, last := jobs[..|jobs| - 1], jobs[|jobs| - 1];
      HistoryLayered(front);
      EncodeLayered(History(front), last.data, last.maxLayers);
    }
  }

  /** In every reachable memory a byte string has at most one name. */
  lemma OneNamePerString(jobs: seq<Job>, s: SymbolId, t: SymbolId)
    requires s < BASE + |History(jobs)| && t < BASE + |History(jobs)|
    requires WellFounded(Pairs(History(jobs))) && Expand(Pairs(History(jobs)), s) == Expand(Pairs(History(jobs)), t)
    ensures s == t
  {
    HistoryInvariant(jobs);
    NamesAreCanonical(Pairs(History(jobs)), s, t);
  }

  // ---------- layers are positive ----------

  ghost predicate PositiveLayers(rels: Relations) {
    forall i :: 0 <= i < |rels| ==> rels[i].layer > 0
  }

  lemma {:induction false} PairUpPositive(rels: Relations, trail: seq<SymbolId>, layer: nat)
    requires PositiveLayers(rels) && layer > 0
    ensures PositiveLayers(PairUp(rels, trail, layer).rels)
    decreases |trail|
  {
    if |trail| >= 2 {
      var (rels1, id) := GetOrCreate(rels, trail[0], trail[1], layer);
      FindSound(rels, trail[0], trail[1]);
      PairUpPositive(rels1, trail[2..], layer);
    }
  }

  lemma {:induction false} LayersPositive(rels: Relations, trail: seq<SymbolId>, layer: nat, maxLayers: nat)
    requires PositiveLayers(rels) && layer > 0
    ensures PositiveLayers(Layers(rels, trail, layer, maxLayers).rels)
    decreases |trail|
  {
    if layer <= maxLayers && |trail| >= 2 {
      var p := PairUp(rels, trail, layer);
      PairUpPositive(rels, trail, layer);
      LayersPositive(p.rels, p.trail, layer + 1, maxLayers);
    }
  }

  // ---------- the class ----------

  /** The index is exactly the inverse of the relation list. */
  ghost predicate Indexed(rels: Relations, index: map<Pair, SymbolId>) {
    && (forall k :: k in index ==> NamesPair(rels, index[k], k))
    && (forall i :: 0 <= i < |rels| ==> Listed(rels, index, i))
  }

  ghost predicate NamesPair(rels: Relations, id: SymbolId, k: Pair) {
    BASE <= id < BASE + |rels| && rels[id - BASE].left == k.0 && rels[id - BASE].right == k.1
  }

  ghost predicate Listed(rels: Relations, index: map<Pair, SymbolId>, i: nat)
    requires i < |rels|
  {
    (rels[i].left, rels[i].right) in index
  }

  lemma IndexFinds(rels: Relations, index: map<Pair, SymbolId>, left: SymbolId, right: SymbolId)
    requires WellFormed(rels) && Indexed(rels, index)
    ensures Find(rels, left, right) == if (left, right) in index then Some(index[(left, right)]) else None
  {
    var k := (left, right);
    FindSound(rels, left, right);
    if Find(rels, left, right).Some? {
      assert Listed(rels, index, Find(rels, left, right).value - BASE);
    }
    if k in index {
      assert NamesPair(rels, index[k], k);
      assert Pairs(rels)[index[k] - BASE] == k;
    }
  }

  lemma IndexGrows(rels: Relations, index: map<Pair, SymbolId>, n: RelationNode)
    requires Indexed(rels, index) && n.id == BASE + |rels| && (n.left, n.right) !in index
    ensures Indexed(rels + [n], index[(n.left, n.right) := n.id])
  {
    var after, grown := rels + [n], index[(n.left, n.right) := n.id];
    forall k | k in grown
      ensures NamesPair(after, grown[k], k)
    {
      if k in index {
        assert NamesPair(rels, index[k], k);
      }
    }
    forall i | 0 <= i < |after|
      ensures Listed(after, grown, i)
    {
      if i < |rels| {
        assert Listed(rels, index, i);
      }
    }
  }

  lemma IndexBumped(rels: Relations, index: map<Pair, SymbolId>, i: nat)
    requires WellFormed(rels) && Indexed(rels, index) && i < |rels|
    ensures WellFormed(Bumped(rels, i)) && Indexed(Bumped(rels, i), index)
  {
    var after := Bumped(rels, i);
    assert Pairs(after) == Pairs(rels);
    forall k | k in index
      ensures NamesPair(after, index[k], k)
    {
      assert NamesPair(rels, index[k], k);
    }
    forall j | 0 <= j < |after|
      ensures Listed(after, index, j)
    {
      assert Listed(rels, index, j);
    }
  }

  /** Relations that may be installed: what a saved memory contains. */
  ghost predicate Restorable(rels: Relations) {
    WellFormed(rels) && PositiveLayers(rels)
  }

  /** The whole layer, once a first part of it and the rest are known. */
  function After(next: seq<SymbolId>, used: nat, rest: Paired): Paired {
    Paired(rest.rels, next + rest.trail, used + rest.used)
  }

  class Memory {
    var relations: Relations
    var index: map<Pair, SymbolId>

    ghost predicate Valid()
      reads this
    {
      WellFormed(relations) && Indexed(relations, index)
    }

    constructor ()
      ensures Valid() && relations == []
    {
      relations := [];
      index := map[];
    }

    method GetOrCreateRelation(left: SymbolId, right: SymbolId, layer: nat) returns (id: SymbolId)
      requires Valid() && left < BASE + |relations| && right < BASE + |relations|
      modifies this
      ensures Valid()
      ensures (relations, id) == GetOrCreate(old(relations), left, right, layer)
    {
      IndexFinds(relations, index, left, right);
      GetOrCreateKeeps(relations, left, right, layer);
      FindSound(relations, left, right);
      var key := (left, right);
      if key in index {
        id := index[key];
        IndexBumped(relations, index, id - BASE);
        relations := Bumped(relations, id - BASE);
      } else {
        id := BASE + |relations|;
        IndexGrows(relations, index, RelationNode(id, left, right, layer, 1));
        relations := relations + [RelationNode(id, left, right, layer, 1)];
        index := index[key := id];
      }
    }

    /** One layer of the encoding loop. */
    method PairLayer(trail: seq<SymbolId>, layer: nat) returns (next: seq<SymbolId>, used: nat)
      requires Valid() && Known(Pairs(relations), trail)
      modifies this
      ensures Valid() && Known(Pairs(relations), next)
      ensures Paired(relations, next, used) == PairUp(old(relations), trail, layer)
    {
      next, used := [], 0;
      var i := 0;
      ghost var whole := PairUp(relations, trail, layer);
      PairUpKeeps(relations, trail, layer);
      assert trail[0..] == trail;
      while i + 1 < |trail|
        invariant i <= |trail|
        invariant Valid() && Known(Pairs(relations), trail[i..])
        invariant whole == After(next, used, PairUp(relations, trail[i..], layer))
      {
        PairStep(relations, trail, i, layer, next, used);
        var id := GetOrCreateRelation(trail[i], trail[i + 1], layer);
        next := next + [id];
        used := used + 1;
        i := i + 2;
      }
      if i < |trail| {
        assert trail[i..] == [trail[i]];
        next := next + [trail[i]];
      }
      assert whole.trail == next;
    }

    method Encode(data: seq<Byte>, maxLayers: nat) returns (result: EncodeResult)
      requires Valid()
      modifies this
      ensures Valid()
      ensures result.inputBytes == |data|
      ensures Paired(relations, result.trail, result.relationsUsed) == Encoded(old(relations), data, maxLayers)
    {
      var trail := BytesAsSymbols(data);
      var used: nat, layer := 0, 1;
      ghost var whole := Encoded(relations, data, maxLayers);
      ExpandBytes(Pairs(relations), data);
      while layer <= maxLayers && |trail| >= 2
        invariant Valid() && Known(Pairs(relations), trail)
        invariant var rest := Layers(relations, trail, layer, maxLayers);
                  whole == Paired(rest.rels, rest.trail, used + rest.used)
        decreases |trail|
      {
        var next, u := PairLayer(trail, layer);
        trail := next;
        used := used + u;
        layer := layer + 1;
      }
      result := EncodeResult(trail, |data|, used);
    }

    /** Appends the bytes of a symbol; fails on a symbol the memory does not know. */
    method ExpandInto(symbol: SymbolId, out0: seq<Byte>) returns (ok: bool, out: seq<Byte>)
      requires Valid()
      ensures ok <==> symbol < BASE + |relations|
      ensures ok ==> out == out0 + Expand(Pairs(relations), symbol)
      decreases symbol
    {
      if symbol < BASE {
        return true, out0 + [symbol];
      }
      if symbol - BASE >= |relations| {
        return false, out0;
      }
      var node := relations[symbol - BASE];
      NodeExpands(relations, symbol);
      ok, out := ExpandInto(node.left, out0);
      ok, out := ExpandInto(node.right, out);
    }

    method Decode(trail: seq<SymbolId>) returns (r: Result<seq<Byte>>)
      requires Valid()
      ensures r == Decoded(Pairs(relations), trail)
    {
      var out := [];
      for i := 0 to |trail|
        invariant Known(Pairs(relations), trail[..i])
        invariant out == ExpandAll(Pairs(relations), trail[..i])
      {
        var ok;
        ok, out := ExpandInto(trail[i], out);
        if !ok {
          return Err("invalid relation symbol");
        }
        assert trail[..i + 1] == trail[..i] + [trail[i]];
        ExpandAllConcat(Pairs(relations), trail[..i], [trail[i]]);
        ExpandSingle(Pairs(relations), trail[i]);
      }
      assert trail[..|trail|] == trail;
      r := Ok(out);
    }

    /** Installs persisted relations after checking their layout; an invalid list changes nothing. */
    method RestoreRelations(rels: Relations) returns (ok: bool)
      modifies this
      ensures ok <==> Restorable(rels)
      ensures ok ==> Valid() && relations == rels
      ensures !ok ==> relations == old(relations) && index == old(index)
    {
      var rebuilt: map<Pair, SymbolId> := map[];
      for i := 0 to |rels|
        invariant WellFormed(rels[..i]) && PositiveLayers(rels[..i])
        invariant Indexed(rels[..i], rebuilt)
        invariant relations == old(relations) && index == old(index)
      {
        var node := rels[i];
        if node.id != BASE + i || node.left >= node.id || node.right >= node.id || node.layer == 0 {
          BadNode(rels, i);
          return false;
        }
        if (node.left, node.right) in rebuilt {
          DuplicateNode(rels, rebuilt, i);
          return false;
        }
        GoodNode(rels, rebuilt, i);
        rebuilt := rebuilt[(node.left, node.right) := node.id];
      }
      assert rels[..|rels|] == rels;
      relations := rels;
      index := rebuilt;
      ok := true;
    }
  }

  lemma NodeExpands(rels: Relations, s: SymbolId)
    requires WellFormed(rels) && BASE <= s < BASE + |rels|
    ensures var node := rels[s - BASE];
            && node.left < s && node.right < s
            && Expand(Pairs(rels), s) == Expand(Pairs(rels), node.left) + Expand(Pairs(rels), node.right)
  {
    var pairs := Pairs(rels);
    assert pairs[s - BASE] == (rels[s - BASE].left, rels[s - BASE].right);
  }

  lemma PairStep(rels: Relations, trail: seq<SymbolId>, i: nat, layer: nat, next: seq<SymbolId>, used: nat)
    requires WellFormed(rels) && i + 1 < |trail| && Known(Pairs(rels), trail[i..])
    ensures trail[i] < BASE + |rels| && trail[i + 1] < BASE + |rels|
    ensures var (rels1, id) := GetOrCreate(rels, trail[i], trail[i + 1], layer);
            && WellFormed(rels1) && Known(Pairs(rels1), trail[i + 2..])
            && After(next, used, PairUp(rels, trail[i..], layer))
               == After(next + [id], used + 1, PairUp(rels1, trail[i + 2..], layer))
  {
    var t := trail[i..];
    assert t[0] == trail[i] && t[1] == trail[i + 1] && t[2..] == trail[i + 2..];
    GetOrCreateKeeps(rels, t[0], t[1], layer);
    var rels1 := GetOrCreate(rels, t[0], t[1], layer).0;
    assert |rels| <= |rels1|;
    var u := trail[i + 2..];
    forall k | 0 <= k < |u|
      ensures u[k] < BASE + |rels1|
    {
      assert u[k] == t[k + 2];
    }
    var id, rest := GetOrCreate(rels, t[0], t[1], layer).1, PairUp(rels1, u, layer);
    assert next + ([id] + rest.trail) == next + [id] + rest.trail;
  }

  lemma ExpandSingle(pairs: seq<Pair>, s: SymbolId)
    requires WellFounded(pairs) && s < BASE + |pairs|
    ensures ExpandAll(pairs, [s]) == Expand(pairs, s)
  {
    assert [s][1..] == [];
  }

  lemma BadNode(rels: Relations, i: nat)
    requires i < |rels|
    requires rels[i].id != BASE + i || rels[i].left >= rels[i].id || rels[i].right >= rels[i].id || rels[i].layer == 0
    ensures !Restorable(rels)
  {
    var pairs := Pairs(rels);
    assert pairs[i] == (rels[i].left, rels[i].right);
  }

  lemma DuplicateNode(rels: Relations, rebuilt: map<Pair, SymbolId>, i: nat)
    requires i < |rels| && Indexed(rels[..i], rebuilt) && (rels[i].left, rels[i].right) in rebuilt
    ensures !Restorable(rels)
  {
    var k := (rels[i].left, rels[i].right);
    assert NamesPair(rels[..i], rebuilt[k], k);
    var pairs := Pairs(rels);
    assert pairs[rebuilt[k] - BASE] == k && pairs[i] == k;
  }

  lemma GoodNode(rels: Relations, rebuilt: map<Pair, SymbolId>, i: nat)
    requires i < |rels| && WellFormed(rels[..i]) && PositiveLayers(rels[..i]) && Indexed(rels[..i], rebuilt)
    requires rels[i].id == BASE + i && rels[i].left < rels[i].id && rels[i].right < rels[i].id && rels[i].layer > 0
    requires (rels[i].left, rels[i].right) !in rebuilt
    ensures WellFormed(rels[..i + 1]) && PositiveLayers(rels[..i + 1])
    ensures Indexed(rels[..i + 1], rebuilt[(rels[i].left, rels[i].right) := rels[i].id])
  {
    var front, n := rels[..i], rels[i];
    assert rels[..i + 1] == front + [n];
    IndexGrows(front, rebuilt, n);
    assert Pairs(front + [n]) == Pairs(front) + [(n.left, n.right)];
    forall j | 0 <= j < i
      ensures Pairs(front)[j] != (n.left, n.right)
    {
      assert Listed(front, rebuilt, j);
    }
  }
}
