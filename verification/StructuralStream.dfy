/**
  The streaming window machine: bytes arrive in pushes of any size, every full window becomes one event, and
  consecutive windows start `hop` bytes apart.
*/
module StructuralStream {
  import opened Words
  import opened Common
  import opened Expansion
  import opened HierarchicalMemory
  import Integrity

  datatype StructuralEvent = StructuralEvent(
    sourceId: string,
    sequence: nat,
    byteOffset: nat,
    byteLength: nat,
    trail: seq<SymbolId>,
    relationIds: seq<SymbolId>,
    signature: Word,
    resolution: nat)

  /** Window and hop in bytes, and the number of layers of the hierarchy. */
  datatype Config = Config(window: nat, hop: nat, layers: nat)

  predicate GoodWindows(window: nat, hop: nat) {
    0 < hop <= window
  }

  predicate GoodConfig(c: Config) {
    GoodWindows(c.window, c.hop) && c.layers > 0
  }

  // ---------- one event ----------

  function RelationIds(trail: seq<SymbolId>): seq<SymbolId> {
    if trail == [] then []
    else RelationIds(trail[..|trail| - 1]) + (if trail[|trail| - 1] >= BASE then [trail[|trail| - 1]] else [])
  }

  function IsRelation(): SymbolId -> bool {
    (s: SymbolId) => s >= BASE
  }

  function Itself(): SymbolId -> SymbolId {
    (s: SymbolId) => s
  }

  /** `ids` are exactly the relations of the trail, in its order. */
  ghost predicate ListsRelations(trail: seq<SymbolId>, ids: seq<SymbolId>) {
    exists at: seq<nat> :: KeptPlaces(trail, IsRelation(), at) && ReadAt(trail, at, Itself(), ids)
  }

  lemma {:induction false} RelationIdsKept(trail: seq<SymbolId>)
    ensures RelationIds(trail) == Kept(trail, IsRelation(), Itself())
  {
    if trail != [] {
      RelationIdsKept(trail[..|trail| - 1]);
    }
  }

  /** The relation ids are the symbols at the places of relations, in the order of the trail. */
  lemma RelationIdsListed(trail: seq<SymbolId>)
    ensures ListsRelations(trail, RelationIds(trail))
  {
    RelationIdsKept(trail);
    var at := KeptListed(trail, IsRelation(), Itself());
  }

  function Signature(trail: seq<SymbolId>): Word {
    Integrity.AbsorbAll(Integrity.OFFSET, Integrity.TrailBytes(trail))
  }

  /** The signature begins with the start value and absorbs one symbol after the other, without their number. */
  lemma SignatureSteps(trail: seq<SymbolId>, s: SymbolId)
    ensures Signature([]) == 1469598103934665603
    ensures Signature(trail + [s]) == Integrity.AbsorbAll(Signature(trail), ToBytes(s, 8))
  {
    Integrity.TrailBytesPush(trail, s, trail + [s]);
    Integrity.AbsorbConcat(Integrity.OFFSET, Integrity.TrailBytes(trail), ToBytes(s, 8));
  }

  /** One byte of one symbol changed, the signature changes. */
  lemma SignatureTells(trail: seq<SymbolId>, other: seq<SymbolId>, i: nat, b: Byte)
    requires i < |Integrity.TrailBytes(trail)| && b != Integrity.TrailBytes(trail)[i]
    requires Integrity.TrailBytes(other) == Integrity.TrailBytes(trail)[i := b]
    ensures Signature(other) != Signature(trail)
  {
    Integrity.OneByteChanges(Integrity.OFFSET, Integrity.TrailBytes(trail), i, b);
  }

  function Event(source: string, sequence: nat, offset: nat, length: nat, trail: seq<SymbolId>,
                 layers: nat): StructuralEvent
  {
    StructuralEvent(source, sequence, offset, length, trail, RelationIds(trail), Signature(trail), layers)
  }

  /** A piece of input that becomes one event. */
  datatype Piece = Piece(source: string, sequence: nat, offset: nat, bytes: seq<Byte>)

  /** The events of a run together with the relations it ends with. */
  datatype Ingested = Ingested(events: seq<StructuralEvent>, rels: Relations)

  function Extracted(layers: nat, done: Ingested, piece: Piece): Ingested {
    var e := Encoded(done.rels, piece.bytes, layers);
    Ingested(done.events + [Event(piece.source, piece.sequence, piece.offset, |piece.bytes|, e.trail, layers)], e.rels)
  }

  /** The events of all pieces in order; each one extends the relations the next one starts with. */
  function ExtractAll(layers: nat, rels: Relations, pieces: seq<Piece>): Ingested {
    if pieces == [] then Ingested([], rels)
    else Extracted(layers, ExtractAll(layers, rels, pieces[..|pieces| - 1]), pieces[|pieces| - 1])
  }

  lemma {:induction false} ExtractConcat(layers: nat, rels: Relations, s: seq<Piece>, t: seq<Piece>)
    ensures var first := ExtractAll(layers, rels, s);
            var second := ExtractAll(layers, first.rels, t);
            ExtractAll(layers, rels, s + t) == Ingested(first.events + second.events, second.rels)
  {
    if t == [] {
      assert s + t == s;
    } else {
      ExtractConcat(layers, rels, s, t[..|t| - 1]);
      assert (s + t)[..|s + t| - 1] == s + t[..|t| - 1];
    }
  }

  // ---------- the batch specification ----------

  /** Where window `k` starts: k * hop. */
  function Offset(c: Config, k: nat): nat {
    if k == 0 then 0 else Offset(c, k - 1) + c.hop
  }

  lemma {:induction false} WindowStarts(c: Config, k: nat)
    ensures Offset(c, k) == k * c.hop
  {
    if k > 0 {
      WindowStarts(c, k - 1);
      assert (k - 1) * c.hop == k * c.hop - c.hop;
    }
  }

  /** How many full windows fit into `n` bytes. */
  function FullWindows(c: Config, n: nat): nat
    requires GoodConfig(c)
  {
    if n < c.window then 0 else FullWindows(c, n - c.hop) + 1
  }

  /** The bytes still buffered after `n` bytes. */
  function Buffered(c: Config, n: nat): (left: nat)
    requires GoodConfig(c)
    ensures left < c.window && Offset(c, FullWindows(c, n)) + left == n
  {
    FullWindowsRange(c, n);
    n - Offset(c, FullWindows(c, n))
  }

  ghost predicate IsFullWindows(c: Config, n: nat, k: nat) {
    && Offset(c, k) <= n < Offset(c, k) + c.window
    && (k > 0 ==> Offset(c, k - 1) + c.window <= n)
  }

  lemma {:induction false} FullWindowsRange(c: Config, n: nat)
    requires GoodConfig(c)
    ensures IsFullWindows(c, n, FullWindows(c, n))
  {
    if n >= c.window {
      FullWindowsRange(c, n - c.hop);
    }
  }

  lemma {:induction false} OffsetMonotone(c: Config, j: nat, k: nat)
    requires j <= k
    ensures Offset(c, j) <= Offset(c, k)
    decreases k
  {
    if j < k {
      OffsetMonotone(c, j, k - 1);
    }
  }

  lemma FullWindowsUnique(c: Config, n: nat, k: nat)
    requires GoodConfig(c) && IsFullWindows(c, n, k)
    ensures k == FullWindows(c, n)
  {
    var m := FullWindows(c, n);
    FullWindowsRange(c, n);
    if k < m {
      OffsetMonotone(c, k, m - 1);
    } else if m < k {
      OffsetMonotone(c, m, k - 1);
    }
  }

  /** One more byte: it completes a window exactly when the buffer becomes full. */
  lemma OneMoreByte(c: Config, n: nat)
    requires GoodConfig(c)
    ensures Buffered(c, n) + 1 < c.window ==> FullWindows(c, n + 1) == FullWindows(c, n)
    ensures Buffered(c, n) + 1 == c.window ==> FullWindows(c, n + 1) == FullWindows(c, n) + 1
  {
    var k := FullWindows(c, n);
    FullWindowsRange(c, n);
    if Buffered(c, n) + 1 < c.window {
      FullWindowsUnique(c, n + 1, k);
    } else {
      FullWindowsUnique(c, n + 1, k + 1);
    }
  }

  /** Where a segment of input begins: the next sequence number and the byte offset. */
  datatype Start = Start(sequence: nat, offset: nat)

  /** Window j starts at j * hop. */
  function Window(c: Config, data: seq<Byte>, j: nat): (w: seq<Byte>)
    requires GoodConfig(c) && j < FullWindows(c, |data|)
    ensures |w| == c.window && Offset(c, j) + c.window <= |data|
  {
    FullWindowsRange(c, |data|);
    OffsetMonotone(c, j, FullWindows(c, |data|) - 1);
    data[Offset(c, j)..Offset(c, j) + c.window]
  }

  /** The first `k` full windows of `data`. */
  function Windows(c: Config, start: Start, source: string, data: seq<Byte>, k: nat): (pieces: seq<Piece>)
    requires GoodConfig(c) && k <= FullWindows(c, |data|)
    ensures |pieces| == k
  {
    if k == 0 then []
    else
      Windows(c, start, source, data, k - 1) + [WindowPiece(c, start, source, data, k - 1)]
  }

  function WindowPiece(c: Config, start: Start, source: string, data: seq<Byte>, j: nat): Piece
    requires GoodConfig(c) && j < FullWindows(c, |data|)
  {
    Piece(source, start.sequence + j, start.offset + Offset(c, j), Window(c, data, j))
  }

  lemma {:induction false} WindowsAt(c: Config, start: Start, source: string, data: seq<Byte>, k: nat, j: nat)
    requires GoodConfig(c) && j < k <= FullWindows(c, |data|)
    ensures Windows(c, start, source, data, k)[j] == WindowPiece(c, start, source, data, j)
  {
    if j < k - 1 {
      WindowsAt(c, start, source, data, k - 1, j);
    }
  }

  /** All full windows. */
  function Full(c: Config, start: Start, source: string, data: seq<Byte>): seq<Piece>
    requires GoodConfig(c)
  {
    Windows(c, start, source, data, FullWindows(c, |data|))
  }

  /** What is left after the full windows, if anything. */
  function Leftover(c: Config, start: Start, source: string, data: seq<Byte>): seq<Piece>
    requires GoodConfig(c)
  {
    var k := FullWindows(c, |data|);
    if Buffered(c, |data|) == 0 then []
    else [Piece(source, start.sequence + k, start.offset + Offset(c, k), data[Offset(c, k)..])]
  }

  /** All full windows, then what is left. */
  function Batch(c: Config, start: Start, source: string, data: seq<Byte>): seq<Piece>
    requires GoodConfig(c)
  {
    Full(c, start, source, data) + Leftover(c, start, source, data)
  }

  lemma {:induction false} WindowsOfPrefix(c: Config, start: Start, source: string, data: seq<Byte>,
                                           more: seq<Byte>, k: nat)
    requires GoodConfig(c) && k <= FullWindows(c, |data|) && k <= FullWindows(c, |data + more|)
    ensures Windows(c, start, source, data, k) == Windows(c, start, source, data + more, k)
  {
    if k > 0 {
      WindowsOfPrefix(c, start, source, data, more, k - 1);
      WindowOfPrefix(c, data, more, k - 1);
    }
  }

  lemma WindowOfPrefix(c: Config, data: seq<Byte>, more: seq<Byte>, j: nat)
    requires GoodConfig(c) && j < FullWindows(c, |data|) && j < FullWindows(c, |data + more|)
    ensures Window(c, data, j) == Window(c, data + more, j)
  {
    var from := Offset(c, j);
    var w := Window(c, data, j);
    assert w == data[from..from + c.window];
    assert data[from..from + c.window] == (data + more)[from..from + c.window];
  }

  // ---------- the machine, one byte at a time ----------

  /** What a stream keeps between calls. */
  datatype Position = Position(buffer: seq<Byte>, bufferOffset: nat, consumed: nat, sequence: nat)

  /** A position, with the pieces emitted on the way to it. */
  datatype Fed = Fed(at: Position, out: seq<Piece>)

  ghost predicate Between(c: Config, p: Position) {
    |p.buffer| < c.window && p.bufferOffset + |p.buffer| == p.consumed
  }

  /** Between calls the buffer is short and its end is what has been consumed. */
  function Feed(c: Config, f: Fed, source: string, b: Byte): (g: Fed)
    requires GoodConfig(c)
    ensures Between(c, f.at) ==> Between(c, g.at)
  {
    var p := f.at;
    var buffer := p.buffer + [b];
    if |buffer| == c.window then
      Fed(Position(buffer[c.hop..], p.bufferOffset + c.hop, p.consumed + 1, p.sequence + 1),
          f.out + [Piece(source, p.sequence, p.bufferOffset, buffer)])
    else
      Fed(Position(buffer, p.bufferOffset, p.consumed + 1, p.sequence), f.out)
  }

  function FeedAll(c: Config, f: Fed, source: string, data: seq<Byte>): (g: Fed)
    requires GoodConfig(c)
    ensures Between(c, f.at) ==> Between(c, g.at)
  {
    if data == [] then f else Feed(c, FeedAll(c, f, source, data[..|data| - 1]), source, data[|data| - 1])
  }

  function Flushed(c: Config, f: Fed, source: string): (g: Fed)
    ensures f.at.bufferOffset + |f.at.buffer| == f.at.consumed ==> g.at.bufferOffset == g.at.consumed
    ensures g.at.buffer == []
  {
    var p := f.at;
    if p.buffer == [] then f
    else Fed(Position([], p.bufferOffset + |p.buffer|, p.consumed, p.sequence + 1),
             f.out + [Piece(source, p.sequence, p.bufferOffset, p.buffer)])
  }

  lemma {:induction false} FeedConcat(c: Config, f: Fed, source: string, s: seq<Byte>, t: seq<Byte>)
    requires GoodConfig(c)
    ensures FeedAll(c, f, source, s + t) == FeedAll(c, FeedAll(c, f, source, s), source, t)
  {
    if t == [] {
      assert s + t == s;
    } else {
      FeedConcat(c, f, source, s, t[..|t| - 1]);
      assert (s + t)[..|s + t| - 1] == s + t[..|t| - 1];
    }
  }

  /** What a stream emits does not depend on what was emitted before. */
  lemma {:induction false} FeedAfter(c: Config, p: Position, before: seq<Piece>, source: string, data: seq<Byte>)
    requires GoodConfig(c)
    ensures FeedAll(c, Fed(p, before), source, data).at == FeedAll(c, Fed(p, []), source, data).at
    ensures FeedAll(c, Fed(p, before), source, data).out == before + FeedAll(c, Fed(p, []), source, data).out
  {
    if data != [] {
      FeedAfter(c, p, before, source, data[..|data| - 1]);
    }
  }

  /** Bytes that do not fill the window are only buffered. */
  lemma {:induction false} FeedShort(c: Config, f: Fed, source: string, data: seq<Byte>)
    requires GoodConfig(c) && |f.at.buffer| + |data| < c.window
    ensures FeedAll(c, f, source, data)
         == Fed(Position(f.at.buffer + data, f.at.bufferOffset, f.at.consumed + |data|, f.at.sequence), f.out)
  {
    if data == [] {
      assert f.at.buffer + data == f.at.buffer;
    } else {
      var front := data[..|data| - 1];
      FeedShort(c, f, source, front);
      assert f.at.buffer + front + [data[|data| - 1]] == f.at.buffer + data;
    }
  }

  /** Bytes that fill the window exactly emit one event. */
  lemma FeedFull(c: Config, f: Fed, source: string, data: seq<Byte>)
    requires GoodConfig(c) && data != [] && |f.at.buffer| + |data| == c.window
    ensures FeedAll(c, f, source, data)
         == Fed(Position((f.at.buffer + data)[c.hop..], f.at.bufferOffset + c.hop, f.at.consumed + |data|,
                         f.at.sequence + 1),
                f.out + [Piece(source, f.at.sequence, f.at.bufferOffset, f.at.buffer + data)])
  {
    var front := data[..|data| - 1];
    FeedShort(c, f, source, front);
    assert f.at.buffer + front + [data[|data| - 1]] == f.at.buffer + data;
  }

  // ---------- the machine equals the batch specification ----------

  /** A stream with nothing buffered. */
  ghost function Fresh(start: Start): Fed {
    Fed(Position([], start.offset, start.offset, start.sequence), [])
  }

  /** Where the machine stands after `data`, and what it has emitted. */
  ghost function Reached(c: Config, start: Start, source: string, data: seq<Byte>): Fed
    requires GoodConfig(c)
  {
    var k := FullWindows(c, |data|);
    var left := Buffered(c, |data|);
    Fed(Position(data[Offset(c, k)..], start.offset + Offset(c, k), start.offset + |data|, start.sequence + k),
        Full(c, start, source, data))
  }

  lemma SliceGrows(data: seq<Byte>, b: Byte, from: nat)
    requires from <= |data|
    ensures data[from..] + [b] == (data + [b])[from..]
  {}

  lemma SliceAdvances(data: seq<Byte>, from: nat, hop: nat, window: nat)
    requires hop <= window && from + window == |data|
    ensures |data[from..]| == window && data[from..] == data[from..from + window]
    ensures data[from..][hop..] == data[from + hop..]
  {}

  /** The byte is only buffered. */
  lemma ReachedBuffer(c: Config, start: Start, source: string, data: seq<Byte>, b: Byte)
    requires GoodConfig(c) && Buffered(c, |data|) + 1 < c.window
    ensures Feed(c, Reached(c, start, source, data), source, b) == Reached(c, start, source, data + [b])
  {
    var k := FullWindows(c, |data|);
    OneMoreByte(c, |data|);
    WindowsOfPrefix(c, start, source, data, [b], k);
    SliceGrows(data, b, Offset(c, k));
  }

  /** The window the byte completes is the next one of the batch. */
  lemma NextWindow(c: Config, start: Start, source: string, data: seq<Byte>, more: seq<Byte>, k: nat)
    requires GoodConfig(c) && data <= more
    requires k <= FullWindows(c, |data|) && k < FullWindows(c, |more|) && Offset(c, k) + c.window == |more|
    ensures Windows(c, start, source, more, k + 1) == Windows(c, start, source, data, k)
              + [Piece(source, start.sequence + k, start.offset + Offset(c, k), more[Offset(c, k)..])]
  {
    assert data + more[|data|..] == more;
    WindowsOfPrefix(c, start, source, data, more[|data|..], k);
    WindowsNext(c, start, source, more, k);
    LastWindow(c, more, k);
  }

  lemma LastWindow(c: Config, data: seq<Byte>, k: nat)
    requires GoodConfig(c) && k < FullWindows(c, |data|) && Offset(c, k) + c.window == |data|
    ensures Window(c, data, k) == data[Offset(c, k)..]
  {
    SliceAdvances(data, Offset(c, k), c.hop, c.window);
    WindowSlice(c, data, k);
  }

  lemma WindowsNext(c: Config, start: Start, source: string, data: seq<Byte>, k: nat)
    requires GoodConfig(c) && k < FullWindows(c, |data|)
    ensures Windows(c, start, source, data, k + 1)
         == Windows(c, start, source, data, k) + [WindowPiece(c, start, source, data, k)]
  {}

  lemma WindowSlice(c: Config, data: seq<Byte>, j: nat)
    requires GoodConfig(c) && j < FullWindows(c, |data|) && Offset(c, j) + c.window <= |data|
    ensures Window(c, data, j) == data[Offset(c, j)..Offset(c, j) + c.window]
  {}

  lemma FeedEmits(c: Config, f: Fed, source: string, b: Byte, window: seq<Byte>, rest: seq<Byte>)
    requires GoodConfig(c) && f.at.buffer + [b] == window && |window| == c.window && window[c.hop..] == rest
    ensures Feed(c, f, source, b)
         == Fed(Position(rest, f.at.bufferOffset + c.hop, f.at.consumed + 1, f.at.sequence + 1),
                f.out + [Piece(source, f.at.sequence, f.at.bufferOffset, window)])
  {}

  /** The byte completes the next window. */
  lemma ReachedEmit(c: Config, start: Start, source: string, data: seq<Byte>, b: Byte)
    requires GoodConfig(c) && Buffered(c, |data|) + 1 == c.window
    ensures Feed(c, Reached(c, start, source, data), source, b) == Reached(c, start, source, data + [b])
  {
    var k := FullWindows(c, |data|);
    var from := Offset(c, k);
    var more := data + [b];
    OneMoreByte(c, |data|);
    SliceGrows(data, b, from);
    SliceAdvances(more, from, c.hop, c.window);
    NextWindow(c, start, source, data, more, k);
    FeedEmits(c, Reached(c, start, source, data), source, b, more[from..], more[from + c.hop..]);
  }

  lemma ReachedStep(c: Config, start: Start, source: string, data: seq<Byte>)
    requires GoodConfig(c) && data != []
    ensures Feed(c, Reached(c, start, source, data[..|data| - 1]), source, data[|data| - 1])
         == Reached(c, start, source, data)
  {
    var front, b := data[..|data| - 1], data[|data| - 1];
    assert front + [b] == data;
    if Buffered(c, |front|) + 1 < c.window {
      ReachedBuffer(c, start, source, front, b);
    } else {
      ReachedEmit(c, start, source, front, b);
    }
  }

  lemma {:induction false} FeedReaches(c: Config, start: Start, source: string, data: seq<Byte>)
    requires GoodConfig(c)
    ensures FeedAll(c, Fresh(start), source, data) == Reached(c, start, source, data)
  {
    if data == [] {
      FullWindowsUnique(c, 0, 0);
    } else {
      FeedReaches(c, start, source, data[..|data| - 1]);
      ReachedStep(c, start, source, data);
    }
  }

  function Flatten(chunks: seq<seq<Byte>>): seq<Byte> {
    if chunks == [] then [] else Flatten(chunks[..|chunks| - 1]) + chunks[|chunks| - 1]
  }

  function FeedChunks(c: Config, f: Fed, source: string, chunks: seq<seq<Byte>>): Fed
    requires GoodConfig(c)
  {
    if chunks == [] then f
    else FeedAll(c, FeedChunks(c, f, source, chunks[..|chunks| - 1]), source, chunks[|chunks| - 1])
  }

  lemma {:induction false} ChunksFlatten(c: Config, f: Fed, source: string, chunks: seq<seq<Byte>>)
    requires GoodConfig(c)
    ensures FeedChunks(c, f, source, chunks) == FeedAll(c, f, source, Flatten(chunks))
  {
    if chunks != [] {
      var front := chunks[..|chunks| - 1];
      ChunksFlatten(c, f, source, front);
      FeedConcat(c, f, source, Flatten(front), chunks[|chunks| - 1]);
    }
  }

  /**
    However the input is cut into pushes, pushing and then flushing emits the events of the batch specification
    and leaves its relations; the stream is fresh again, after the bytes consumed.
  */
  lemma ChunkInvariance(c: Config, start: Start, source: string, chunks: seq<seq<Byte>>)
    requires GoodConfig(c)
    ensures Flushed(c, FeedChunks(c, Fresh(start), source, chunks), source) == Done(c, start, source, Flatten(chunks))
  {
    ChunksFlatten(c, Fresh(start), source, chunks);
    FeedReaches(c, start, source, Flatten(chunks));
    FlushReached(c, start, source, Flatten(chunks));
  }

  /** The stream after all of `data`, flushed. */
  ghost function Done(c: Config, start: Start, source: string, data: seq<Byte>): Fed
    requires GoodConfig(c)
  {
    var batch := Batch(c, start, source, data);
    Fed(Position([], start.offset + |data|, start.offset + |data|, start.sequence + |batch|), batch)
  }

  lemma FlushReached(c: Config, start: Start, source: string, data: seq<Byte>)
    requires GoodConfig(c)
    ensures Flushed(c, Reached(c, start, source, data), source) == Done(c, start, source, data)
  {
    var k := FullWindows(c, |data|);
    var left := Buffered(c, |data|);
    assert |data[Offset(c, k)..]| == left;
  }

  /**
    The same for the events and the relations: whatever the cutting, they are those of the batch specification.
  */
  lemma ChunkInvariantEvents(c: Config, rels: Relations, source: string, chunks: seq<seq<Byte>>,
                             other: seq<seq<Byte>>)
    requires GoodConfig(c) && Flatten(chunks) == Flatten(other)
    ensures ExtractAll(c.layers, rels, Flushed(c, FeedChunks(c, Fresh(Start(0, 0)), source, chunks), source).out)
         == ExtractAll(c.layers, rels, Flushed(c, FeedChunks(c, Fresh(Start(0, 0)), source, other), source).out)
  {
    ChunkInvariance(c, Start(0, 0), source, chunks);
    ChunkInvariance(c, Start(0, 0), source, other);
  }

  // ---------- events decode to the input ----------

  ghost function Trails(events: seq<StructuralEvent>): seq<SymbolId> {
    if events == [] then [] else Trails(events[..|events| - 1]) + events[|events| - 1].trail
  }

  /** The trails of the events, decoded one after the other, give `data`. */
  ghost predicate Decodes(i: Ingested, data: seq<Byte>) {
    WellFormed(i.rels) && Decoded(Pairs(i.rels), Trails(i.events)) == Ok(data)
  }

  lemma ExtractedDecodes(layers: nat, done: Ingested, piece: Piece, data: seq<Byte>)
    requires Decodes(done, data)
    ensures Decodes(Extracted(layers, done, piece), data + piece.bytes)
  {
    var e := Encoded(done.rels, piece.bytes, layers);
    EncodeRoundTrip(done.rels, piece.bytes, layers);
    ExpandAllStable(Pairs(done.rels), Pairs(e.rels), Trails(done.events));
    ExpandAllConcat(Pairs(e.rels), Trails(done.events), e.trail);
    var after := Extracted(layers, done, piece);
    assert after.events[..|after.events| - 1] == done.events;
  }

  function Bytes(pieces: seq<Piece>): seq<Byte> {
    if pieces == [] then [] else Bytes(pieces[..|pieces| - 1]) + pieces[|pieces| - 1].bytes
  }

  /** Whatever the pieces are, the trails of their events decode to their bytes. */
  lemma {:induction false} ExtractAllDecodes(layers: nat, rels: Relations, pieces: seq<Piece>)
    requires WellFormed(rels)
    ensures Decodes(ExtractAll(layers, rels, pieces), Bytes(pieces))
  {
    if pieces != [] {
      var front := pieces[..|pieces| - 1];
      ExtractAllDecodes(layers, rels, front);
      ExtractedDecodes(layers, ExtractAll(layers, rels, front), pieces[|pieces| - 1], Bytes(front));
    }
  }

  lemma BytesPush(pieces: seq<Piece>, piece: Piece)
    ensures Bytes(pieces + [piece]) == Bytes(pieces) + piece.bytes
  {
    assert (pieces + [piece])[..|pieces|] == pieces;
  }

  lemma SliceJoins(data: seq<Byte>, from: nat, n: nat)
    requires from + n <= |data|
    ensures data[..from] + data[from..from + n] == data[..from + n]
  {}

  lemma {:induction false} WindowsCover(c: Config, start: Start, source: string, data: seq<Byte>, k: nat)
    requires GoodConfig(c) && c.hop == c.window && k <= FullWindows(c, |data|)
    ensures Offset(c, k) <= |data| && Bytes(Windows(c, start, source, data, k)) == data[..Offset(c, k)]
  {
    FullWindowsRange(c, |data|);
    OffsetMonotone(c, k, FullWindows(c, |data|));
    if k > 0 {
      WindowsCover(c, start, source, data, k - 1);
      BytesPush(Windows(c, start, source, data, k - 1), WindowPiece(c, start, source, data, k - 1));
      SliceJoins(data, Offset(c, k - 1), c.window);
    }
  }

  lemma LeftoverBytes(c: Config, start: Start, source: string, data: seq<Byte>, pieces: seq<Piece>)
    requires GoodConfig(c)
    ensures Bytes(pieces + Leftover(c, start, source, data))
         == Bytes(pieces) + data[Offset(c, FullWindows(c, |data|))..]
  {
    var rest := Leftover(c, start, source, data);
    if rest == [] {
      assert pieces + rest == pieces;
    } else {
      BytesPush(pieces, rest[0]);
    }
  }

  /** Without overlap, the concatenated trails decode to the whole input. */
  lemma BatchDecodes(c: Config, rels: Relations, start: Start, source: string, data: seq<Byte>)
    requires GoodConfig(c) && c.hop == c.window && WellFormed(rels)
    ensures Decodes(ExtractAll(c.layers, rels, Batch(c, start, source, data)), data)
  {
    var k := FullWindows(c, |data|);
    WindowsCover(c, start, source, data, k);
    LeftoverBytes(c, start, source, data, Full(c, start, source, data));
    assert data[..Offset(c, k)] + data[Offset(c, k)..] == data;
    ExtractAllDecodes(c.layers, rels, Batch(c, start, source, data));
  }

  /** With overlap too, every event decodes to the bytes it covers, by the relations of the end of the run. */
  lemma {:induction false} EveryEventDecodes(layers: nat, rels: Relations, pieces: seq<Piece>, i: nat)
    requires WellFormed(rels) && i < |pieces|
    ensures var done := ExtractAll(layers, rels, pieces);
            && WellFormed(done.rels) && |done.events| == |pieces|
            && done.events[i].sourceId == pieces[i].source && done.events[i].sequence == pieces[i].sequence
            && done.events[i].byteOffset == pieces[i].offset && done.events[i].byteLength == |pieces[i].bytes|
            && Decoded(Pairs(done.rels), done.events[i].trail) == Ok(pieces[i].bytes)
  {
    var n := |pieces| - 1;
    var before := ExtractAll(layers, rels, pieces[..n]);
    ExtractCount(layers, rels, pieces[..n]);
    EncodeRoundTrip(before.rels, pieces[n].bytes, layers);
    if i < n {
      EveryEventDecodes(layers, rels, pieces[..n], i);
      ExpandAllStable(Pairs(before.rels), Pairs(ExtractAll(layers, rels, pieces).rels), before.events[i].trail);
    }
  }

  lemma {:induction false} ExtractCount(layers: nat, rels: Relations, pieces: seq<Piece>)
    requires WellFormed(rels)
    ensures var done := ExtractAll(layers, rels, pieces);
            && WellFormed(done.rels) && Pairs(rels) <= Pairs(done.rels) && |done.events| == |pieces|
  {
    if pieces != [] {
      var front := pieces[..|pieces| - 1];
      ExtractCount(layers, rels, front);
      EncodeRoundTrip(ExtractAll(layers, rels, front).rels, pieces[|pieces| - 1].bytes, layers);
    }
  }

  /** So does every event of a run. */
  lemma {:induction false} EventsListRelations(layers: nat, rels: Relations, pieces: seq<Piece>, i: nat)
    requires i < |ExtractAll(layers, rels, pieces).events|
    ensures var e := ExtractAll(layers, rels, pieces).events[i]; ListsRelations(e.trail, e.relationIds)
  {
    var front := pieces[..|pieces| - 1];
    var before := ExtractAll(layers, rels, front);
    if i < |before.events| {
      EventsListRelations(layers, rels, front, i);
    } else {
      RelationIdsListed(Encoded(before.rels, pieces[|pieces| - 1].bytes, layers).trail);
    }
  }

  // ---------- order of events ----------

  /** Sequence numbers count up from `first`; offsets strictly increase and lie in [low, high). */
  ghost predicate InOrder(events: seq<Piece>, first: nat, low: nat, high: nat) {
    && (forall i :: 0 <= i < |events| ==> events[i].sequence == first + i && low <= events[i].offset < high)
    && (forall i, j :: 0 <= i < j < |events| ==> events[i].offset < events[j].offset)
  }

  /** The events so far are in order, and the next one will come after all of them. */
  ghost predicate Ordered(f: Fed, first: nat, low: nat) {
    && low <= f.at.bufferOffset
    && f.at.sequence == first + |f.out|
    && InOrder(f.out, first, low, f.at.bufferOffset)
  }

  /** One call on a stream. */
  datatype Call = Push(data: seq<Byte>, source: string) | Flush(source: string)

  function Called(c: Config, f: Fed, call: Call): Fed
    requires GoodConfig(c)
  {
    match call
    case Push(data, source) => FeedAll(c, f, source, data)
    case Flush(source) => Flushed(c, f, source)
  }

  function Calls(c: Config, f: Fed, calls: seq<Call>): Fed
    requires GoodConfig(c)
  {
    if calls == [] then f else Called(c, Calls(c, f, calls[..|calls| - 1]), calls[|calls| - 1])
  }

  lemma {:induction false} FeedOrdered(c: Config, f: Fed, source: string, data: seq<Byte>, first: nat, low: nat)
    requires GoodConfig(c) && Ordered(f, first, low)
    ensures Ordered(FeedAll(c, f, source, data), first, low)
  {
    if data != [] {
      FeedOrdered(c, f, source, data[..|data| - 1], first, low);
    }
  }

  /** Every sequence of pushes and flushes, in any order, emits its events in order. */
  lemma {:induction false} CallsOrdered(c: Config, f: Fed, calls: seq<Call>, first: nat, low: nat)
    requires GoodConfig(c) && Ordered(f, first, low) && Between(c, f.at)
    ensures Ordered(Calls(c, f, calls), first, low) && Between(c, Calls(c, f, calls).at)
  {
    if calls != [] {
      var front, last := calls[..|calls| - 1], calls[|calls| - 1];
      CallsOrdered(c, f, front, first, low);
      if last.Push? {
        FeedOrdered(c, Calls(c, f, front), last.source, last.data, first, low);
      }
    }
  }

  // ---------- the classes ----------

  lemma ExtractOneMore(layers: nat, rels: Relations, pieces: seq<Piece>, piece: Piece)
    ensures ExtractAll(layers, rels, pieces + [piece])
         == Extracted(layers, ExtractAll(layers, rels, pieces), piece)
  {
    assert (pieces + [piece])[..|pieces|] == pieces;
  }

  /** One round of the push loop: take what the window still has room for. */
  lemma PushStep(c: Config, before: Fed, source: string, data: seq<Byte>, pos: nat, take: nat)
    requires GoodConfig(c) && Between(c, before.at) && pos < |data|
    requires take == Min(c.window - |FeedAll(c, before, source, data[..pos]).at.buffer|, |data| - pos)
    ensures take > 0
    ensures FeedAll(c, before, source, data[..pos + take])
         == Taken(c, FeedAll(c, before, source, data[..pos]), source, data[pos..pos + take])
  {
    var now := FeedAll(c, before, source, data[..pos]);
    var part := data[pos..pos + take];
    assert data[..pos + take] == data[..pos] + part;
    FeedConcat(c, before, source, data[..pos], part);
    if |now.at.buffer| + take == c.window {
      FeedFull(c, now, source, part);
    } else {
      FeedShort(c, now, source, part);
    }
  }

  /** A part goes into the buffer. */
  ghost function Filled(f: Fed, part: seq<Byte>): Fed {
    Fed(Position(f.at.buffer + part, f.at.bufferOffset, f.at.consumed + |part|, f.at.sequence), f.out)
  }

  /** A full buffer is emitted, and its first `hop` bytes are dropped. */
  ghost function Emitted(c: Config, f: Fed, source: string): Fed
    requires c.hop <= |f.at.buffer|
  {
    var p := f.at;
    Fed(Position(p.buffer[c.hop..], p.bufferOffset + c.hop, p.consumed, p.sequence + 1),
        f.out + [Piece(source, p.sequence, p.bufferOffset, p.buffer)])
  }

  /** A part taken into the buffer, which is emitted when that fills the window. */
  ghost function Taken(c: Config, f: Fed, source: string, part: seq<Byte>): Fed
    requires GoodConfig(c) && |f.at.buffer| + |part| <= c.window
  {
    if |f.at.buffer| + |part| == c.window then Emitted(c, Filled(f, part), source) else Filled(f, part)
  }

  class Extractor {
    const memory: Memory
    const maxLayers: nat

    constructor (memory: Memory, maxLayers: nat)
      requires maxLayers > 0
      ensures this.memory == memory && this.maxLayers == maxLayers
    {
      this.memory := memory;
      this.maxLayers := maxLayers;
    }

    /** An extractor needs at least one layer. */
    static method Create(memory: Memory, maxLayers: nat) returns (r: Result<Extractor>)
      ensures r.Ok? <==> maxLayers > 0
      ensures r.Ok? ==> fresh(r.value) && r.value.memory == memory && r.value.maxLayers == maxLayers
    {
      if maxLayers == 0 {
        return Err("max_layers must be > 0");
      }
      var e := new Extractor(memory, maxLayers);
      r := Ok(e);
    }

    method Extract(bytes: seq<Byte>, source: string, sequence: nat, offset: nat, ghost done: Ingested)
        returns (event: StructuralEvent)
      requires memory.Valid() && done.rels == memory.relations
      modifies memory
      ensures memory.Valid()
      ensures Ingested(done.events + [event], memory.relations)
           == Extracted(maxLayers, done, Piece(source, sequence, offset, bytes))
      ensures ListsRelations(event.trail, event.relationIds)
    {
      var encoded := memory.Encode(bytes, maxLayers);
      var trail := encoded.trail;
      var relationIds := [];
      for i := 0 to |trail|
        invariant relationIds == RelationIds(trail[..i])
      {
        assert trail[..i + 1][..i] == trail[..i];
        if trail[i] >= BASE {
          relationIds := relationIds + [trail[i]];
        }
      }
      assert trail[..|trail|] == trail;
      RelationIdsListed(trail);
      assert [] + Integrity.TrailBytes(trail) == Integrity.TrailBytes(trail);
      var signature := Integrity.HashSymbols(Integrity.OFFSET, [], trail, 0, |trail|);
      event := StructuralEvent(source, sequence, offset, |bytes|, trail, relationIds, signature, maxLayers);
    }
  }

  class Stream {
    const extractor: Extractor
    const window: nat
    const hop: nat
    var buffer: seq<Byte>
    var bufferOffset: nat
    var consumed: nat
    var sequence: nat

    ghost function At(): Position
      reads this
    {
      Position(buffer, bufferOffset, consumed, sequence)
    }

    ghost function Settings(): Config {
      Config(window, hop, extractor.maxLayers)
    }

    ghost predicate Valid()
      reads this, extractor.memory
    {
      GoodConfig(Settings()) && Between(Settings(), At()) && extractor.memory.Valid()
    }

    constructor (extractor: Extractor, window: nat, hop: nat)
      requires GoodWindows(window, hop) && extractor.maxLayers > 0 && extractor.memory.Valid()
      ensures Valid() && this.extractor == extractor && Settings() == Config(window, hop, extractor.maxLayers)
      ensures At() == Position([], 0, 0, 0)
    {
      this.extractor := extractor;
      this.window := window;
      this.hop := hop;
      buffer, bufferOffset, consumed, sequence := [], 0, 0, 0;
    }

    /** The windows must not skip bytes. */
    static method Create(extractor: Extractor, window: nat, hop: nat) returns (r: Result<Stream>)
      requires extractor.maxLayers > 0 && extractor.memory.Valid()
      ensures r.Ok? <==> GoodWindows(window, hop)
      ensures r.Ok? ==> var s := r.value;
              && fresh(s) && s.extractor == extractor && s.Valid()
              && s.Settings() == Config(window, hop, extractor.maxLayers) && s.At() == Position([], 0, 0, 0)
    {
      if window == 0 || hop == 0 || hop > window {
        return Err("require 0 < hop_size <= window_size");
      }
      var s := new Stream(extractor, window, hop);
      r := Ok(s);
    }

    method Push(data: seq<Byte>, source: string) returns (events: seq<StructuralEvent>)
      requires Valid()
      modifies this, extractor.memory
      ensures Valid()
      ensures At() == FeedAll(Settings(), Fed(old(At()), []), source, data).at
      ensures Ingested(events, extractor.memory.relations)
           == ExtractAll(extractor.maxLayers, old(extractor.memory.relations),
                         FeedAll(Settings(), Fed(old(At()), []), source, data).out)
    {
      ghost var c := Settings();
      ghost var before := Fed(At(), []);
      ghost var now := before;
      ghost var rels := extractor.memory.relations;
      events := [];
      var pos: nat := 0;
      while pos < |data|
        invariant pos <= |data|
        invariant Valid() && At() == now.at
        invariant now == FeedAll(c, before, source, data[..pos])
        invariant Ingested(events, extractor.memory.relations) == ExtractAll(c.layers, rels, now.out)
      {
        var take := Min(window - |buffer|, |data| - pos);
        var part := data[pos..pos + take];
        PushStep(c, before, source, data, pos, take);
        events := Take(part, source, now, rels, events);
        now := Taken(c, now, source, part);
        pos := pos + take;
      }
      assert data[..|data|] == data;
    }

    /** The bytes of one round go into the buffer; a full buffer becomes an event. */
    method Take(part: seq<Byte>, source: string, ghost now: Fed, ghost rels: Relations, events0: seq<StructuralEvent>)
        returns (events: seq<StructuralEvent>)
      requires Valid() && At() == now.at && part != [] && |buffer| + |part| <= window
      requires Ingested(events0, extractor.memory.relations) == ExtractAll(extractor.maxLayers, rels, now.out)
      modifies this, extractor.memory
      ensures Valid() && At() == Taken(Settings(), now, source, part).at
      ensures Ingested(events, extractor.memory.relations)
           == ExtractAll(extractor.maxLayers, rels, Taken(Settings(), now, source, part).out)
    {
      events := events0;
      buffer := buffer + part;
      consumed := consumed + |part|;
      if |buffer| == window {
        events := Emit(source, Filled(now, part), rels, events);
      }
    }

    /** The full buffer becomes an event, and its first `hop` bytes are dropped. */
    method Emit(source: string, ghost full: Fed, ghost rels: Relations, events0: seq<StructuralEvent>)
        returns (events: seq<StructuralEvent>)
      requires GoodConfig(Settings()) && extractor.memory.Valid() && |buffer| == window && At() == full.at
      requires Ingested(events0, extractor.memory.relations) == ExtractAll(extractor.maxLayers, rels, full.out)
      modifies this, extractor.memory
      ensures extractor.memory.Valid() && At() == Emitted(Settings(), full, source).at
      ensures Ingested(events, extractor.memory.relations)
           == ExtractAll(extractor.maxLayers, rels, Emitted(Settings(), full, source).out)
    {
      ghost var done := ExtractAll(extractor.maxLayers, rels, full.out);
      ExtractOneMore(extractor.maxLayers, rels, full.out, Piece(source, sequence, bufferOffset, buffer));
      var event := extractor.Extract(buffer, source, sequence, bufferOffset, done);
      events := events0 + [event];
      sequence := sequence + 1;
      buffer := buffer[hop..];
      bufferOffset := bufferOffset + hop;
    }

    method Flush(source: string) returns (events: seq<StructuralEvent>)
      requires Valid()
      modifies this, extractor.memory
      ensures Valid()
      ensures At() == Flushed(Settings(), Fed(old(At()), []), source).at
      ensures Ingested(events, extractor.memory.relations)
           == ExtractAll(extractor.maxLayers, old(extractor.memory.relations),
                         Flushed(Settings(), Fed(old(At()), []), source).out)
    {
      events := [];
      if buffer != [] {
        ghost var rels := extractor.memory.relations;
        ExtractOneMore(extractor.maxLayers, rels, [], Piece(source, sequence, bufferOffset, buffer));
        var event := extractor.Extract(buffer, source, sequence, bufferOffset, Ingested([], rels));
        events := [event];
        sequence := sequence + 1;
        bufferOffset := bufferOffset + |buffer|;
        buffer := [];
      }
    }
  }
}
