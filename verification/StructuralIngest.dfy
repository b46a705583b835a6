/**
  The batch program: loads a hierarchy, ingests each source through a fresh stream, and saves the hierarchy.
*/
module StructuralIngest {
  import opened Words
  import opened Common
  import opened Expansion
  import opened HierarchicalMemory
  import opened StructuralStream
  import opened StructuralFileIngest
  import opened HierarchicalPersistence

  /** A readable input with its name. */
  datatype Source = Source(id: string, bytes: seq<Byte>)

  datatype Output = Output(events: seq<StructuralEvent>, state: seq<Byte>)

  const MAX_LAYERS: nat := 32
  const LAYER_BOUND: nat := 0x1_0000_0000

  predicate GoodOptions(o: IngestConfig) {
    GoodConfig(Settings(o)) && o.chunk > 0 && o.layers <= MAX_LAYERS
  }

  /** One source through a fresh stream. */
  function IngestOne(c: Config, rels: Relations, source: Source): Ingested
    requires GoodConfig(c)
  {
    ExtractAll(c.layers, rels, Batch(c, Start(0, 0), source.id, source.bytes))
  }

  /** First one run, then another that continues with its relations. */
  function Then(first: Ingested, second: Ingested): Ingested {
    Ingested(first.events + second.events, second.rels)
  }

  lemma ThenAssociates(a: Ingested, b: Ingested, c: Ingested)
    ensures Then(Then(a, b), c) == Then(a, Then(b, c))
  {}

  function IngestStep(c: Config): (Relations, Source) -> Ingested
    requires GoodConfig(c)
  {
    (rels: Relations, source: Source) => IngestOne(c, rels, source)
  }

  /** One source after the other, each step continuing with the relations of the one before. */
  function Fold(step: (Relations, Source) -> Ingested, rels: Relations, sources: seq<Source>): Ingested {
    if sources == [] then Ingested([], rels)
    else
      var before := Fold(step, rels, sources[..|sources| - 1]);
      Then(before, step(before.rels, sources[|sources| - 1]))
  }

  lemma FoldPush(step: (Relations, Source) -> Ingested, rels: Relations, s: seq<Source>, x: Source)
    ensures Fold(step, rels, s + [x]) == Then(Fold(step, rels, s), step(Fold(step, rels, s).rels, x))
  {
    assert (s + [x])[..|s|] == s;
  }

  lemma {:induction false} FoldConcat(step: (Relations, Source) -> Ingested, rels: Relations, s: seq<Source>,
                                      t: seq<Source>)
    ensures Fold(step, rels, s + t) == Then(Fold(step, rels, s), Fold(step, Fold(step, rels, s).rels, t))
  {
    var first := Fold(step, rels, s);
    if t == [] {
      assert s + t == s;
    } else {
      var front, x := t[..|t| - 1], t[|t| - 1];
      FoldConcat(step, rels, s, front);
      assert s + t == s + front + [x] && t == front + [x];
      FoldPush(step, rels, s + front, x);
      FoldPush(step, first.rels, front, x);
      var second := Fold(step, first.rels, front);
      ThenAssociates(first, second, step(second.rels, x));
    }
  }

  /** Every source goes through its own stream; the relations are shared. */
  function IngestAll(c: Config, rels: Relations, sources: seq<Source>): Ingested
    requires GoodConfig(c)
  {
    Fold(IngestStep(c), rels, sources)
  }

  /** One run over all sources is the same as two runs, the second one continuing with the relations of the first. */
  lemma IngestConcat(c: Config, rels: Relations, s: seq<Source>, t: seq<Source>)
    requires GoodConfig(c)
    ensures IngestAll(c, rels, s + t) == Then(IngestAll(c, rels, s), IngestAll(c, IngestAll(c, rels, s).rels, t))
  {
    FoldConcat(IngestStep(c), rels, s, t);
  }

  // ---------- what a run leaves can be loaded again ----------

  /** Relations that can be saved and loaded, apart from their number. */
  ghost predicate Durable(rels: Relations) {
    Restorable(rels) && LayersBelow(rels, LAYER_BOUND)
  }

  lemma EncodeDurable(rels: Relations, data: seq<Byte>, layers: nat)
    requires Durable(rels) && layers < LAYER_BOUND
    ensures Durable(Encoded(rels, data, layers).rels)
  {
    EncodeRoundTrip(rels, data, layers);
    LayersPositive(rels, BytesAsSymbols(data), 1, layers);
    LayersLayers(rels, BytesAsSymbols(data), 1, layers, LAYER_BOUND);
  }

  lemma {:induction false} ExtractDurable(layers: nat, rels: Relations, pieces: seq<Piece>)
    requires Durable(rels) && layers < LAYER_BOUND
    ensures Durable(ExtractAll(layers, rels, pieces).rels)
  {
    if pieces != [] {
      var front := pieces[..|pieces| - 1];
      ExtractDurable(layers, rels, front);
      EncodeDurable(ExtractAll(layers, rels, front).rels, pieces[|pieces| - 1].bytes, layers);
    }
  }

  lemma {:induction false} IngestDurable(c: Config, rels: Relations, sources: seq<Source>)
    requires GoodConfig(c) && c.layers < LAYER_BOUND && Durable(rels)
    ensures Durable(IngestAll(c, rels, sources).rels)
  {
    if sources != [] {
      var front, last := sources[..|sources| - 1], sources[|sources| - 1];
      IngestDurable(c, rels, front);
      ExtractDurable(c.layers, IngestAll(c, rels, front).rels, Batch(c, Start(0, 0), last.id, last.bytes));
    }
  }

  /** A saved hierarchy is loaded unchanged, unless it is over the limit of the reader. */
  lemma DurableLoads(rels: Relations)
    requires Durable(rels) && BASE + |rels| <= WORD
    ensures Loaded(Saved(rels)) == if |rels| <= MAX_RELATIONS then Ok(rels) else Err(TOO_MANY)
  {
    RestorableFits(rels);
    LoadedSaved(rels);
  }

  // ---------- the program ----------

  /** The relations a run starts with. */
  ghost function Initial(stateIn: Option<seq<Byte>>): Result<Relations> {
    if stateIn.None? then Ok([]) else Loaded(stateIn.value)
  }

  predicate Named(sources: seq<Source>) {
    forall i :: 0 <= i < |sources| ==> sources[i].id != ""
  }

  /** What a run prints and saves, if it succeeds. */
  ghost function Outcome(stateIn: Option<seq<Byte>>, sources: seq<Source>, o: IngestConfig): Option<Output> {
    if !GoodOptions(o) || Initial(stateIn).Err? || sources == [] || !Named(sources) then None
    else
      var done := IngestAll(Settings(o), Initial(stateIn).value, sources);
      Some(Output(done.events, Saved(done.rels)))
  }

  method Run(stateIn: Option<seq<Byte>>, sources: seq<Source>, o: IngestConfig) returns (r: Option<Output>)
    ensures r == Outcome(stateIn, sources, o)
  {
    if !GoodOptions(o) {
      return None;
    }
    var memory := new Memory();
    if stateIn.Some? {
      var loaded := LoadHierarchicalState(stateIn.value, memory);
      if loaded.Err? {
        return None;
      }
    }
    if sources == [] || !Named(sources) {
      return None;
    }
    var events := IngestSources(memory, sources, o);
    var state := SaveHierarchicalState(memory);
    r := Some(Output(events, state));
  }

  method IngestSources(memory: Memory, sources: seq<Source>, o: IngestConfig) returns (events: seq<StructuralEvent>)
    requires memory.Valid() && GoodOptions(o) && Named(sources)
    modifies memory
    ensures memory.Valid()
    ensures Ingested(events, memory.relations) == IngestAll(Settings(o), old(memory.relations), sources)
  {
    events := [];
    for i := 0 to |sources|
      invariant memory.Valid()
      invariant Ingested(events, memory.relations) == IngestAll(Settings(o), old(memory.relations), sources[..i])
    {
      assert sources[..i + 1][..i] == sources[..i];
      var input := Input(true, sources[i].bytes, false);
      var stats, out := IngestStructuralStream(input, memory, sources[i].id, o);
      events := events + out;
    }
    assert sources[..|sources|] == sources;
  }
}
