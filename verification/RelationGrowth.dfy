/**
  How many relations a stream creates: at most one for each byte of its windows, and, where every window has exactly
  2^layers bytes, at least one for each different window.
*/
module RelationGrowth {
  import opened Words
  import opened Common
  import opened Expansion
  import opened HierarchicalMemory
  import opened StructuralStream

  // ---------- at most one for each byte ----------

  /** Each new relation saves at least one symbol. */
  lemma {:induction false} PairUpCost(rels: Relations, trail: seq<SymbolId>, layer: nat)
    ensures var p := PairUp(rels, trail, layer);
            |rels| <= |p.rels| && |p.rels| + |p.trail| <= |rels| + |trail|
    decreases |trail|
  {
    if |trail| >= 2 {
      FindSound(rels, trail[0], trail[1]);
      PairUpCost(GetOrCreate(rels, trail[0], trail[1], layer).0, trail[2..], layer);
    }
  }

  lemma {:induction false} LayersCost(rels: Relations, trail: seq<SymbolId>, layer: nat, maxLayers: nat)
    ensures var p := Layers(rels, trail, layer, maxLayers);
            |rels| <= |p.rels| && |p.rels| + |p.trail| <= |rels| + |trail|
    decreases |trail|
  {
    if layer <= maxLayers && |trail| >= 2 {
      var p := PairUp(rels, trail, layer);
      PairUpCost(rels, trail, layer);
      LayersCost(p.rels, p.trail, layer + 1, maxLayers);
    }
  }

  /** New relations and symbols of the trail together are at most the bytes encoded. */
  lemma EncodeCost(rels: Relations, data: seq<Byte>, maxLayers: nat)
    ensures var e := Encoded(rels, data, maxLayers);
            |rels| <= |e.rels| && |e.rels| + |e.trail| <= |rels| + |data|
  {
    LayersCost(rels, BytesAsSymbols(data), 1, maxLayers);
  }

  lemma {:induction false} ExtractCost(layers: nat, rels: Relations, pieces: seq<Piece>)
    ensures |rels| <= |ExtractAll(layers, rels, pieces).rels| <= |rels| + |Bytes(pieces)|
  {
    if pieces != [] {
      var front := pieces[..|pieces| - 1];
      ExtractCost(layers, rels, front);
      EncodeCost(ExtractAll(layers, rels, front).rels, pieces[|pieces| - 1].bytes, layers);
    }
  }

  // ---------- at least one for each different window ----------

  ghost predicate AllDifferent<T(!new)>(s: seq<T>) {
    forall i, j :: 0 <= i < j < |s| ==> s[i] != s[j]
  }

  /** Different numbers below `m` are at most `m`. */
  lemma {:induction false} Pigeonhole(s: seq<nat>, m: nat)
    requires AllDifferent(s) && forall i :: 0 <= i < |s| ==> s[i] < m
    ensures |s| <= m
  {
    assert s != [] ==> s[0] < m;
    if m > 0 {
      if i :| 0 <= i < |s| && s[i] == m - 1 {
        var rest := s[..i] + s[i + 1..];
        Pigeonhole(rest, m - 1);
      } else {
        Pigeonhole(s, m - 1);
      }
    }
  }

  ghost predicate WindowsDiffer(pieces: seq<Piece>) {
    forall i, j :: 0 <= i < j < |pieces| ==> pieces[i].bytes != pieces[j].bytes
  }

  /** The trail of an event that covers 2^layers bytes is a single symbol. */
  lemma {:induction false} OneSymbol(layers: nat, rels: Relations, pieces: seq<Piece>, i: nat)
    requires WellFormed(rels) && i < |pieces| && |pieces[i].bytes| == Pow2(layers)
    ensures |ExtractAll(layers, rels, pieces).events| == |pieces|
    ensures |ExtractAll(layers, rels, pieces).events[i].trail| == 1
  {
    var n := |pieces| - 1;
    ExtractCount(layers, rels, pieces[..n]);
    if i < n {
      OneSymbol(layers, rels, pieces[..n], i);
    } else {
      TrailLength(ExtractAll(layers, rels, pieces[..n]).rels, pieces[n].bytes, layers);
      DivideUnique(2 * Pow2(layers) - 1, Pow2(layers), 1);
    }
  }

  /** A relation that stands for exactly `bytes`. */
  ghost predicate StandsFor(rels: Relations, s: SymbolId, bytes: seq<Byte>) {
    WellFormed(rels) && BASE <= s < BASE + |rels| && Expand(Pairs(rels), s) == bytes
  }

  ghost function EventSymbol(layers: nat, rels: Relations, pieces: seq<Piece>, i: nat): SymbolId
    requires WellFormed(rels) && i < |pieces| && |pieces[i].bytes| == Pow2(layers)
  {
    OneSymbol(layers, rels, pieces, i);
    ExtractAll(layers, rels, pieces).events[i].trail[0]
  }

  lemma EventSymbolStands(layers: nat, rels: Relations, pieces: seq<Piece>, i: nat)
    requires WellFormed(rels) && i < |pieces| && |pieces[i].bytes| == Pow2(layers) && layers > 0
    ensures StandsFor(ExtractAll(layers, rels, pieces).rels, EventSymbol(layers, rels, pieces, i), pieces[i].bytes)
  {
    var done := ExtractAll(layers, rels, pieces);
    OneSymbol(layers, rels, pieces, i);
    EveryEventDecodes(layers, rels, pieces, i);
    var trail := done.events[i].trail;
    assert trail == [trail[0]];
    ExpandSingle(Pairs(done.rels), trail[0]);
    Pow2Strict(0, layers);
  }

  /** Different windows of 2^layers bytes need different relations. */
  lemma DifferentWindowsCost(layers: nat, rels: Relations, pieces: seq<Piece>)
    requires WellFormed(rels) && layers > 0 && WindowsDiffer(pieces)
    requires forall i :: 0 <= i < |pieces| ==> |pieces[i].bytes| == Pow2(layers)
    ensures |pieces| <= |ExtractAll(layers, rels, pieces).rels|
  {
    var done := ExtractAll(layers, rels, pieces);
    forall i | 0 <= i < |pieces|
      ensures StandsFor(done.rels, EventSymbol(layers, rels, pieces, i), pieces[i].bytes)
    {
      EventSymbolStands(layers, rels, pieces, i);
    }
    var names := seq(|pieces|, i requires 0 <= i < |pieces| => EventSymbol(layers, rels, pieces, i));
    NamesDiffer(done.rels, names, pieces);
  }

  lemma NamesDiffer(rels: Relations, names: seq<SymbolId>, pieces: seq<Piece>)
    requires |names| == |pieces| && WindowsDiffer(pieces)
    requires forall i :: 0 <= i < |pieces| ==> StandsFor(rels, names[i], pieces[i].bytes)
    ensures |pieces| <= |rels|
  {
    if pieces != [] {
      assert StandsFor(rels, names[0], pieces[0].bytes);
      var places := seq(|names|, i requires 0 <= i < |names| => if names[i] < BASE then 0 else names[i] - BASE);
      forall i | 0 <= i < |names|
        ensures places[i] < |rels| && places[i] + BASE == names[i]
      {
        assert StandsFor(rels, names[i], pieces[i].bytes);
      }
      forall i, j | 0 <= i < j < |places|
        ensures places[i] != places[j]
      {
        assert StandsFor(rels, names[i], pieces[i].bytes) && StandsFor(rels, names[j], pieces[j].bytes);
        assert pieces[i].bytes != pieces[j].bytes;
      }
      Pigeonhole(places, |rels|);
    }
  }

  // ---------- an input with as many different windows as wanted ----------

  const FOURS: Config := Config(4, 4, 2)

  /** The numbers below `n`, four bytes each. */
  function Numbers(n: nat): (data: seq<Byte>)
    ensures |data| == 4 * n
  {
    if n == 0 then [] else Numbers(n - 1) + ToBytes(n - 1, 4)
  }

  lemma {:induction false} NumberAt(n: nat, j: nat)
    requires j < n
    ensures Numbers(n)[4 * j..4 * j + 4] == ToBytes(j, 4)
  {
    if j < n - 1 {
      NumberAt(n - 1, j);
      PrefixSlice(Numbers(n - 1), ToBytes(n - 1, 4), 4 * j, 4 * j + 4);
    } else {
      SuffixSlice(Numbers(n - 1), ToBytes(n - 1, 4));
    }
  }

  lemma PrefixSlice(s: seq<Byte>, t: seq<Byte>, from: nat, to: nat)
    requires from <= to <= |s|
    ensures (s + t)[from..to] == s[from..to]
  {}

  lemma SuffixSlice(s: seq<Byte>, t: seq<Byte>)
    ensures (s + t)[|s|..|s| + |t|] == t
  {}

  lemma {:induction false} FoursOffset(j: nat)
    ensures Offset(FOURS, j) == 4 * j
  {
    if j > 0 {
      FoursOffset(j - 1);
    }
  }

  lemma NumbersWindows(source: string, data: seq<Byte>, n: nat)
    requires |data| == 4 * n
    ensures FullWindows(FOURS, |data|) == n
    ensures Batch(FOURS, Start(0, 0), source, data) == Windows(FOURS, Start(0, 0), source, data, n)
  {
    FoursOffset(n);
    if n > 0 {
      FoursOffset(n - 1);
    }
    FullWindowsUnique(FOURS, |data|, n);
  }

  lemma NumberPiece(source: string, n: nat, j: nat)
    requires j < n && FullWindows(FOURS, 4 * n) == n
    ensures Windows(FOURS, Start(0, 0), source, Numbers(n), n)[j].bytes == ToBytes(j, 4)
  {
    WindowsAt(FOURS, Start(0, 0), source, Numbers(n), n, j);
    WindowSlice(FOURS, Numbers(n), j) by {
      FoursOffset(j);
    }
    FoursOffset(j);
    NumberAt(n, j);
  }

  lemma DifferentNumbers(i: nat, j: nat, n: nat)
    requires i < j < n <= Pow256(4)
    ensures ToBytes(i, 4) != ToBytes(j, 4)
  {
    FromToBytes(i, 4);
    FromToBytes(j, 4);
  }

  /** Without overlap a source creates at most as many relations as it has bytes. */
  lemma SourceCost(c: Config, rels: Relations, start: Start, source: string, data: seq<Byte>)
    requires GoodConfig(c) && c.hop == c.window
    ensures |ExtractAll(c.layers, rels, Batch(c, start, source, data)).rels| <= |rels| + |data|
  {
    var k := FullWindows(c, |data|);
    WindowsCover(c, start, source, data, k);
    LeftoverBytes(c, start, source, data, Full(c, start, source, data));
    assert data[..Offset(c, k)] + data[Offset(c, k)..] == data;
    ExtractCost(c.layers, rels, Batch(c, start, source, data));
  }

  /** The numbers below `n` create at least `n` relations, and no more than they have bytes. */
  lemma NumbersCost(source: string, n: nat)
    requires n <= Pow256(4)
    ensures n <= |ExtractAll(FOURS.layers, [], Batch(FOURS, Start(0, 0), source, Numbers(n))).rels| <= 4 * n
  {
    var pieces := Batch(FOURS, Start(0, 0), source, Numbers(n));
    NumbersWindows(source, Numbers(n), n);
    forall i | 0 <= i < |pieces|
      ensures pieces[i].bytes == ToBytes(i, 4)
    {
      NumberPiece(source, n, i);
    }
    forall i, j | 0 <= i < j < |pieces|
      ensures pieces[i].bytes != pieces[j].bytes
    {
      DifferentNumbers(i, j, n);
    }
    assert Pow2(2) == 2 * Pow2(1);
    DifferentWindowsCost(FOURS.layers, [], pieces);
    SourceCost(FOURS, [], Start(0, 0), source, Numbers(n));
  }
}
