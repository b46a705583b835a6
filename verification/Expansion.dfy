/**
  Recursive expansion of symbols: what both append-only symbol tables mean.

  A table is a sequence of pairs; entry n defines the symbol BASE + n from two earlier symbols.
*/
module Expansion {
  import opened Words
  import opened Common

  type Pair = (SymbolId, SymbolId)

  /** Every entry refers to earlier symbols only. */
  ghost predicate WellFounded(pairs: seq<Pair>) {
    forall i :: 0 <= i < |pairs| ==> pairs[i].0 < BASE + i && pairs[i].1 < BASE + i
  }

  ghost predicate Distinct(pairs: seq<Pair>) {
    forall i, j :: 0 <= i < j < |pairs| ==> pairs[i] != pairs[j]
  }

  /** The bytes a symbol stands for. */
  ghost function Expand(pairs: seq<Pair>, s: SymbolId): (bytes: seq<Byte>)
    requires WellFounded(pairs) && s < BASE + |pairs|
    ensures bytes != []
    decreases s
  {
    if s < BASE then [s]
    else Expand(pairs, pairs[s - BASE].0) + Expand(pairs, pairs[s - BASE].1)
  }

  ghost predicate Known(pairs: seq<Pair>, trail: seq<SymbolId>) {
    forall i :: 0 <= i < |trail| ==> trail[i] < BASE + |pairs|
  }

  /** The bytes a trail stands for. */
  ghost function ExpandAll(pairs: seq<Pair>, trail: seq<SymbolId>): seq<Byte>
    requires WellFounded(pairs) && Known(pairs, trail)
  {
    if trail == [] then [] else Expand(pairs, trail[0]) + ExpandAll(pairs, trail[1..])
  }

  /** Decoding fails exactly on unknown symbols. */
  ghost function Decoded(pairs: seq<Pair>, trail: seq<SymbolId>): Result<seq<Byte>>
    requires WellFounded(pairs)
  {
    if Known(pairs, trail) then Ok(ExpandAll(pairs, trail)) else Err("invalid relation symbol")
  }

  function BytesAsSymbols(data: seq<Byte>): (trail: seq<SymbolId>)
    ensures |trail| == |data|
  {
    seq(|data|, i requires 0 <= i < |data| => data[i])
  }

  lemma {:induction false} ExpandBytes(pairs: seq<Pair>, data: seq<Byte>)
    requires WellFounded(pairs)
    ensures Known(pairs, BytesAsSymbols(data))
    ensures ExpandAll(pairs, BytesAsSymbols(data)) == data
  {
    if data != [] {
      ExpandBytes(pairs, data[1..]);
      assert BytesAsSymbols(data)[1..] == BytesAsSymbols(data[1..]);
    }
  }

  lemma {:induction false} ExpandAllConcat(pairs: seq<Pair>, s: seq<SymbolId>, t: seq<SymbolId>)
    requires WellFounded(pairs) && Known(pairs, s) && Known(pairs, t)
    ensures Known(pairs, s + t)
    ensures ExpandAll(pairs, s + t) == ExpandAll(pairs, s) + ExpandAll(pairs, t)
  {
    if s == [] {
      assert s + t == t;
    } else {
      ExpandAllConcat(pairs, s[1..], t);
      assert (s + t)[1..] == s[1..] + t;
    }
  }

  /** Appending entries does not change what earlier symbols mean. */
  lemma {:induction false} ExpandStable(pairs: seq<Pair>, longer: seq<Pair>, s: SymbolId)
    requires WellFounded(pairs) && WellFounded(longer) && pairs <= longer && s < BASE + |pairs|
    ensures Expand(longer, s) == Expand(pairs, s)
    decreases s
  {
    if s >= BASE {
      ExpandStable(pairs, longer, pairs[s - BASE].0);
      ExpandStable(pairs, longer, pairs[s - BASE].1);
    }
  }

  lemma {:induction false} ExpandAllStable(pairs: seq<Pair>, longer: seq<Pair>, trail: seq<SymbolId>)
    requires WellFounded(pairs) && WellFounded(longer) && pairs <= longer && Known(pairs, trail)
    ensures Known(longer, trail) && ExpandAll(longer, trail) == ExpandAll(pairs, trail)
  {
    if trail != [] {
      ExpandStable(pairs, longer, trail[0]);
      ExpandAllStable(pairs, longer, trail[1..]);
    }
  }
}
