/**
  File ingestion: an input is read chunk by chunk into one stream, which is flushed at the end.
*/
module StructuralFileIngest {
  import opened Words
  import opened Common
  import opened HierarchicalMemory
  import opened StructuralStream

  datatype IngestConfig = IngestConfig(window: nat, hop: nat, chunk: nat, layers: nat)

  /** What can be read from an input: whether it is readable at all, its bytes, and whether reading fails after them. */
  datatype Input = Input(readable: bool, bytes: seq<Byte>, fails: bool)

  datatype IngestStats = IngestStats(inputBytes: nat, events: nat, peakBuffered: nat, relationCount: nat)

  function Settings(config: IngestConfig): Config {
    Config(config.window, config.hop, config.layers)
  }

  /** The first check that rejects the arguments. */
  function Rejection(input: Input, source: string, config: IngestConfig): (r: Option<string>)
    ensures r.None? <==> input.readable && source != "" && GoodConfig(Settings(config)) && config.chunk > 0
  {
    if !input.readable then Some("input stream is not readable")
    else if source == "" then Some("source_id must not be empty")
    else if !GoodWindows(config.window, config.hop) then Some("require 0 < hop_size <= window_size")
    else if config.chunk == 0 then Some("chunk_size must be > 0")
    else if config.layers == 0 then Some("max_layers must be > 0")
    else None
  }

  // ---------- how much is buffered ----------

  /** The largest buffer left after a push, when `n` bytes arrive in chunks. */
  function Peak(c: Config, chunk: nat, n: nat): (peak: nat)
    requires GoodConfig(c) && chunk > 0
    ensures peak < c.window
    decreases n
  {
    if n == 0 then 0
    else
      assert (n - 1) == (n - 1) / chunk * chunk + (n - 1) % chunk;
      Max(Peak(c, chunk, (n - 1) / chunk * chunk), Buffered(c, n))
  }

  /** `pos` is a whole number of chunks. */
  ghost predicate Aligned(chunk: nat, pos: nat) {
    pos == 0 || (pos >= chunk > 0 && Aligned(chunk, pos - chunk))
  }

  lemma {:induction false} AlignedIsMultiple(chunk: nat, pos: nat) returns (k: nat)
    requires Aligned(chunk, pos)
    ensures pos == k * chunk
  {
    if pos == 0 {
      k := 0;
    } else {
      k := AlignedIsMultiple(chunk, pos - chunk);
      assert (k + 1) * chunk == k * chunk + chunk;
      k := k + 1;
    }
  }

  /** The peak is the greatest buffer after any whole number of chunks or at the end, and one of these. */
  lemma {:induction false} PeakExactly(c: Config, chunk: nat, n: nat, k: nat)
    requires GoodConfig(c) && chunk > 0
    ensures k * chunk <= n ==> Buffered(c, k * chunk) <= Peak(c, chunk, n)
    ensures Buffered(c, n) <= Peak(c, chunk, n)
    ensures Peak(c, chunk, n) == Buffered(c, n)
         || exists j: nat :: j * chunk <= n && Peak(c, chunk, n) == Buffered(c, j * chunk)
    decreases n
  {
    if n == 0 {
      FullWindowsUnique(c, 0, 0);
    } else {
      var j := (n - 1) / chunk;
      assert n - 1 == j * chunk + (n - 1) % chunk;
      PeakExactly(c, chunk, j * chunk, k);
      if k * chunk <= n && k * chunk > j * chunk {
        LastChunk(k, j, chunk, n);
      }
    }
  }

  lemma LastChunk(k: nat, j: nat, chunk: nat, n: nat)
    requires chunk > 0 && j * chunk < k * chunk <= n <= j * chunk + chunk
    ensures k * chunk == n
  {
    if k <= j {
      MulMonotone(k, j, chunk);
    } else {
      MulMonotone(j + 1, k, chunk);
      assert (j + 1) * chunk == j * chunk + chunk;
    }
  }

  lemma PeakStep(c: Config, chunk: nat, pos: nat, count: nat)
    requires GoodConfig(c) && Aligned(chunk, pos) && 0 < count <= chunk
    ensures Peak(c, chunk, pos + count) == Max(Peak(c, chunk, pos), Buffered(c, pos + count))
  {
    var k := AlignedIsMultiple(chunk, pos);
    DivideUnique(pos + count - 1, chunk, k);
  }

  lemma BufferedAfter(c: Config, source: string, data: seq<Byte>)
    requires GoodConfig(c)
    ensures |FeedAll(c, Fresh(Start(0, 0)), source, data).at.buffer| == Buffered(c, |data|)
  {
    FeedReaches(c, Start(0, 0), source, data);
    var left := Buffered(c, |data|);
  }

  // ---------- the read loop ----------

  /** The pieces pushed out by the first bytes of an input. */
  ghost function Pushed(c: Config, source: string, data: seq<Byte>): Fed
    requires GoodConfig(c)
  {
    FeedAll(c, Fresh(Start(0, 0)), source, data)
  }

  lemma PushedMore(c: Config, source: string, data: seq<Byte>, pos: nat, count: nat, rels: Relations)
    requires GoodConfig(c) && pos + count <= |data|
    ensures var before, part := Pushed(c, source, data[..pos]), data[pos..pos + count];
            var now := FeedAll(c, Fed(before.at, []), source, part);
            var done := ExtractAll(c.layers, rels, before.out);
            var more := ExtractAll(c.layers, done.rels, now.out);
            && Pushed(c, source, data[..pos + count]).at == now.at
            && ExtractAll(c.layers, rels, Pushed(c, source, data[..pos + count]).out)
               == Ingested(done.events + more.events, more.rels)
  {
    var before, part := Pushed(c, source, data[..pos]), data[pos..pos + count];
    assert data[..pos + count] == data[..pos] + part;
    FeedConcat(c, Fresh(Start(0, 0)), source, data[..pos], part);
    FeedAfter(c, before.at, before.out, source, part);
    ExtractConcat(c.layers, rels, before.out, FeedAll(c, Fed(before.at, []), source, part).out);
  }

  lemma FlushedLast(c: Config, source: string, data: seq<Byte>, rels: Relations)
    requires GoodConfig(c)
    ensures var before := Pushed(c, source, data);
            var done := ExtractAll(c.layers, rels, before.out);
            var more := ExtractAll(c.layers, done.rels, Flushed(c, Fed(before.at, []), source).out);
            ExtractAll(c.layers, rels, Batch(c, Start(0, 0), source, data))
            == Ingested(done.events + more.events, more.rels)
  {
    var before := Pushed(c, source, data);
    FeedReaches(c, Start(0, 0), source, data);
    FlushReached(c, Start(0, 0), source, data);
    var last := Flushed(c, Fed(before.at, []), source).out;
    assert Flushed(c, before, source).out == before.out + last;
    ExtractConcat(c.layers, rels, before.out, last);
  }

  /**
    Everything but the peak is independent of the chunk size: the events and relations are those of the batch
    specification of the bytes read. A read error leaves the events of the pushes so far.
  */
  method IngestStructuralStream(input: Input, memory: Memory, source: string, config: IngestConfig)
      returns (r: Result<IngestStats>, events: seq<StructuralEvent>)
    requires memory.Valid()
    modifies memory
    ensures memory.Valid()
    ensures r.Ok? <==> Rejection(input, source, config).None? && !input.fails
    ensures Rejection(input, source, config).Some? ==>
      r == Err(Rejection(input, source, config).value) && events == [] && memory.relations == old(memory.relations)
    ensures Rejection(input, source, config).None? && input.fails ==>
      && r == Err("input stream read failed")
      && Ingested(events, memory.relations)
         == ExtractAll(config.layers, old(memory.relations), Pushed(Settings(config), source, input.bytes).out)
    ensures r.Ok? ==>
      && Ingested(events, memory.relations)
         == ExtractAll(config.layers, old(memory.relations),
                       Batch(Settings(config), Start(0, 0), source, input.bytes))
      && r.value == IngestStats(|input.bytes|, |events|,
                                Peak(Settings(config), config.chunk, |input.bytes|), |memory.relations|)
  {
    events := [];
    var rejection := Rejection(input, source, config);
    if rejection.Some? {
      return Err(rejection.value), [];
    }
    ghost var c := Settings(config);
    ghost var rels := memory.relations;
    var extractor := new Extractor(memory, config.layers);
    var stream := new Stream(extractor, config.window, config.hop);
    var stats;
    stats, events := ReadLoop(input.bytes, stream, source, config.chunk);
    if input.fails {
      return Err("input stream read failed"), events;
    }
    FlushedLast(c, source, input.bytes, rels);
    var tail := stream.Flush(source);
    events := events + tail;
    r := Ok(IngestStats(stats.inputBytes, stats.events + |tail|, Max(stats.peakBuffered, |stream.buffer|),
                        |memory.relations|));
  }

  /** The stream stands after the first `pos` bytes, and `events` are those pushed out so far. */
  ghost predicate HasRead(stream: Stream, source: string, bytes: seq<Byte>, pos: nat, rels: Relations,
                          events: seq<StructuralEvent>)
    requires pos <= |bytes|
    reads stream, stream.extractor.memory
  {
    && stream.Valid() && stream.At() == Pushed(stream.Settings(), source, bytes[..pos]).at
    && Ingested(events, stream.extractor.memory.relations)
       == ExtractAll(stream.extractor.maxLayers, rels, Pushed(stream.Settings(), source, bytes[..pos]).out)
  }

  /** Pushes one chunk and appends its events. */
  method PushChunk(bytes: seq<Byte>, pos: nat, count: nat, stream: Stream, source: string, ghost rels: Relations,
                   events0: seq<StructuralEvent>) returns (events: seq<StructuralEvent>)
    requires pos + count <= |bytes| && HasRead(stream, source, bytes, pos, rels, events0)
    modifies stream, stream.extractor.memory
    ensures HasRead(stream, source, bytes, pos + count, rels, events)
    ensures |stream.buffer| == Buffered(stream.Settings(), pos + count)
  {
    PushedMore(stream.Settings(), source, bytes, pos, count, rels);
    BufferedAfter(stream.Settings(), source, bytes[..pos + count]);
    var out := stream.Push(bytes[pos..pos + count], source);
    events := events0 + out;
  }

  /** Reads chunks until a read comes back short. */
  method ReadLoop(bytes: seq<Byte>, stream: Stream, source: string, chunk: nat)
      returns (stats: IngestStats, events: seq<StructuralEvent>)
    requires stream.Valid() && stream.At() == Position([], 0, 0, 0) && chunk > 0
    modifies stream, stream.extractor.memory
    ensures stream.Valid() && stream.At() == Pushed(stream.Settings(), source, bytes).at
    ensures Ingested(events, stream.extractor.memory.relations)
         == ExtractAll(stream.extractor.maxLayers, old(stream.extractor.memory.relations),
                       Pushed(stream.Settings(), source, bytes).out)
    ensures stats.inputBytes == |bytes| && stats.events == |events|
    ensures stats.peakBuffered == Peak(stream.Settings(), chunk, |bytes|)
  {
    ghost var rels := stream.extractor.memory.relations;
    events := [];
    var pos: nat, peak: nat, good := 0, 0, true;
    while good
      invariant pos <= |bytes| && (good ==> Aligned(chunk, pos)) && (!good ==> pos == |bytes|)
      invariant HasRead(stream, source, bytes, pos, rels, events)
      invariant peak == Peak(stream.Settings(), chunk, pos)
      decreases if good then 1 + |bytes| - pos else 0
    {
      var count := Min(chunk, |bytes| - pos);
      good := count == chunk;
      if count == 0 {
        break;
      }
      PeakStep(stream.Settings(), chunk, pos, count);
      events := PushChunk(bytes, pos, count, stream, source, rels, events);
      pos := pos + count;
      peak := Max(peak, |stream.buffer|);
    }
    assert bytes[..pos] == bytes;
    stats := IngestStats(pos, |events|, peak, 0);
  }
}
