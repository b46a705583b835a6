/**
  The use counter of every single relation: it goes up once for each time the relation is formed in some layer.
*/
module RelationUses {
  import opened Words
  import opened Common
  import opened Expansion
  import opened HierarchicalMemory

  /** The counter of a symbol; one that is no relation yet was never used. */
  function Uses(rels: Relations, id: SymbolId): nat {
    if BASE <= id < BASE + |rels| then rels[id - BASE].refCount else 0
  }

  /** Between the two tables the counter went up as often as `formed` has the symbol, modulo its width. */
  ghost predicate CountsUp(rels: Relations, after: Relations, formed: multiset<SymbolId>, id: SymbolId) {
    UsesAdded(Uses(rels, id), Uses(after, id), formed[id])
  }

  lemma CountsChain(a: Relations, b: Relations, c: Relations, first: multiset<SymbolId>, second: multiset<SymbolId>,
                    both: multiset<SymbolId>, id: SymbolId)
    requires CountsUp(a, b, first, id) && CountsUp(b, c, second, id) && both == first + second
    ensures CountsUp(a, c, both, id)
  {
    UsesChain(Uses(a, id), Uses(b, id), Uses(c, id), first[id], second[id]);
  }

  lemma CountsNothing(rels: Relations, id: SymbolId)
    ensures CountsUp(rels, rels, multiset{}, id)
  {}

  lemma GetOrCreateUses(rels: Relations, left: SymbolId, right: SymbolId, layer: nat, id: SymbolId)
    ensures var (after, used) := GetOrCreate(rels, left, right, layer); CountsUp(rels, after, multiset{used}, id)
  {
    FindSound(rels, left, right);
  }

  /** The symbols that a layer forms: all but an odd last one. */
  ghost function Formed(p: Paired, length: nat): multiset<SymbolId> {
    if length / 2 <= |p.trail| then multiset(p.trail[..length / 2]) else multiset{}
  }

  lemma FormedNext(rels: Relations, trail: seq<SymbolId>, layer: nat)
    requires |trail| >= 2
    ensures var (rels1, first) := GetOrCreate(rels, trail[0], trail[1], layer);
            var rest := PairUp(rels1, trail[2..], layer);
            && PairUp(rels, trail, layer).rels == rest.rels
            && Formed(PairUp(rels, trail, layer), |trail|) == multiset{first} + Formed(rest, |trail| - 2)
  {
    var (rels1, first) := GetOrCreate(rels, trail[0], trail[1], layer);
    var rest := PairUp(rels1, trail[2..], layer);
    assert ([first] + rest.trail)[..|trail| / 2] == [first] + rest.trail[..(|trail| - 2) / 2];
  }

  lemma FormedNone(rels: Relations, trail: seq<SymbolId>, layer: nat)
    requires |trail| < 2
    ensures PairUp(rels, trail, layer).rels == rels && Formed(PairUp(rels, trail, layer), |trail|) == multiset{}
  {}

  /** In one layer each relation is counted as often as it is formed, modulo the width of the counters. */
  lemma {:induction false} LayerUses(rels: Relations, trail: seq<SymbolId>, layer: nat, id: SymbolId)
    ensures CountsUp(rels, PairUp(rels, trail, layer).rels, Formed(PairUp(rels, trail, layer), |trail|), id)
    decreases |trail|
  {
    if |trail| < 2 {
      FormedNone(rels, trail, layer);
      CountsNothing(rels, id);
    } else {
      var (rels1, first) := GetOrCreate(rels, trail[0], trail[1], layer);
      var rest := PairUp(rels1, trail[2..], layer);
      GetOrCreateUses(rels, trail[0], trail[1], layer, id);
      LayerUses(rels1, trail[2..], layer, id);
      FormedNext(rels, trail, layer);
      CountsChain(rels, rels1, rest.rels, multiset{first}, Formed(rest, |trail| - 2),
                  Formed(PairUp(rels, trail, layer), |trail|), id);
    }
  }

  /** What all layers form. */
  ghost function FormedInAll(rels: Relations, trail: seq<SymbolId>, layer: nat, maxLayers: nat): multiset<SymbolId>
    decreases |trail|
  {
    if layer <= maxLayers && |trail| >= 2 then
      var p := PairUp(rels, trail, layer);
      Formed(p, |trail|) + FormedInAll(p.rels, p.trail, layer + 1, maxLayers)
    else multiset{}
  }

  lemma {:induction false} AllLayersUses(rels: Relations, trail: seq<SymbolId>, layer: nat, maxLayers: nat,
                                         id: SymbolId)
    ensures CountsUp(rels, Layers(rels, trail, layer, maxLayers).rels, FormedInAll(rels, trail, layer, maxLayers), id)
    decreases |trail|
  {
    if layer <= maxLayers && |trail| >= 2 {
      var p := PairUp(rels, trail, layer);
      LayerUses(rels, trail, layer, id);
      AllLayersUses(p.rels, p.trail, layer + 1, maxLayers, id);
      LayersUnfold(rels, trail, layer, maxLayers);
      CountsChain(rels, p.rels, Layers(p.rels, p.trail, layer + 1, maxLayers).rels, Formed(p, |trail|),
                  FormedInAll(p.rels, p.trail, layer + 1, maxLayers), FormedInAll(rels, trail, layer, maxLayers), id);
    } else {
      CountsNothing(rels, id);
    }
  }

  ghost function FormedBy(jobs: seq<Job>): multiset<SymbolId> {
    if jobs == [] then multiset{}
    else
      var front, last := jobs[..|jobs| - 1], jobs[|jobs| - 1];
      FormedBy(front) + FormedInAll(History(front), BytesAsSymbols(last.data), 1, last.maxLayers)
  }

  lemma {:induction false} HistoryCounts(jobs: seq<Job>, id: SymbolId)
    ensures CountsUp([], History(jobs), FormedBy(jobs), id)
  {
    if jobs == [] {
      CountsNothing([], id);
    } else {
      var front, last := jobs[..|jobs| - 1], jobs[|jobs| - 1];
      HistoryCounts(front, id);
      AllLayersUses(History(front), BytesAsSymbols(last.data), 1, last.maxLayers, id);
      CountsChain([], History(front), History(jobs), FormedBy(front),
                  FormedInAll(History(front), BytesAsSymbols(last.data), 1, last.maxLayers), FormedBy(jobs), id);
    }
  }

  /** After every history of encodes, each counter is the number of times its relation was formed, modulo 2^64. */
  lemma HistoryUses(jobs: seq<Job>, id: SymbolId)
    ensures Uses(History(jobs), id) == FormedBy(jobs)[id] % WORD
  {
    HistoryCounts(jobs, id);
    CountsFromNone(History(jobs), FormedBy(jobs), id);
  }

  lemma CountsFromNone(rels: Relations, formed: multiset<SymbolId>, id: SymbolId)
    requires CountsUp([], rels, formed, id)
    ensures Uses(rels, id) == formed[id] % WORD
  {
    WithinWidth(Uses(rels, id), formed[id]);
  }

  lemma WithinWidth(uses: nat, count: nat)
    requires uses < WORD && UsesAdded(0, uses, count)
    ensures uses == count % WORD
  {}
}
