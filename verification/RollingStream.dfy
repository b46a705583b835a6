/**
  A stream whose events feed a rolling fingerprint. The stream never emits an offset that goes back, so the
  fingerprint never refuses one.
*/
module RollingStream {
  import opened Words
  import opened Common
  import opened HierarchicalMemory
  import opened StructuralStream
  import opened Observations
  import Rolling = RollingFingerprint

  // ---------- the offsets a stream emits ----------

  lemma {:induction false} ExtractKeepsOffsets(layers: nat, rels: Relations, pieces: seq<Piece>)
    ensures |ExtractAll(layers, rels, pieces).events| == |pieces|
    ensures forall i :: 0 <= i < |pieces| ==> ExtractAll(layers, rels, pieces).events[i].byteOffset == pieces[i].offset
  {
    if pieces != [] {
      ExtractKeepsOffsets(layers, rels, pieces[..|pieces| - 1]);
    }
  }

  /** Offsets from `low` up to below `high`, never going back. */
  ghost predicate Forward(events: seq<StructuralEvent>, low: nat, high: nat) {
    && (forall i :: 0 <= i < |events| ==> low <= events[i].byteOffset < high)
    && forall i, j :: 0 <= i < j < |events| ==> events[i].byteOffset <= events[j].byteOffset
  }

  lemma PiecesForward(layers: nat, rels: Relations, f: Fed, first: nat, low: nat)
    requires Ordered(f, first, low)
    ensures Forward(ExtractAll(layers, rels, f.out).events, low, f.at.bufferOffset)
  {
    ExtractKeepsOffsets(layers, rels, f.out);
  }

  lemma CallForward(c: Config, p: Position, call: Call, rels: Relations)
    requires GoodConfig(c) && Between(c, p)
    ensures var f := Called(c, Fed(p, []), call);
            && p.bufferOffset <= f.at.bufferOffset <= f.at.consumed
            && Forward(ExtractAll(c.layers, rels, f.out).events, p.bufferOffset, f.at.bufferOffset)
  {
    var start := Fed(p, []);
    assert [call][..0] == [] && Calls(c, start, []) == start;
    assert Calls(c, start, [call]) == Called(c, start, call);
    CallsOrdered(c, start, [call], p.sequence, p.bufferOffset);
    PiecesForward(c.layers, rels, Called(c, start, call), p.sequence, p.bufferOffset);
  }

  lemma PushForward(c: Config, p: Position, source: string, data: seq<Byte>, rels: Relations)
    requires GoodConfig(c) && Between(c, p)
    ensures var f := FeedAll(c, Fed(p, []), source, data);
            && p.bufferOffset <= f.at.bufferOffset <= p.consumed + |data|
            && Forward(ExtractAll(c.layers, rels, f.out).events, p.bufferOffset, f.at.bufferOffset)
  {
    CallForward(c, p, StructuralStream.Push(data, source), rels);
    FeedConsumes(c, Fed(p, []), source, data);
  }

  lemma FlushForward(c: Config, p: Position, source: string, rels: Relations)
    requires GoodConfig(c) && Between(c, p)
    ensures var f := Flushed(c, Fed(p, []), source);
            && p.bufferOffset <= f.at.bufferOffset <= p.consumed
            && Forward(ExtractAll(c.layers, rels, f.out).events, p.bufferOffset, f.at.bufferOffset)
  {
    CallForward(c, p, StructuralStream.Flush(source), rels);
  }

  // ---------- what has been observed ----------

  function Epochs(events: seq<StructuralEvent>, span: nat): seq<nat>
    requires span > 0
  {
    if events == [] then []
    else Epochs(events[..|events| - 1], span) + [events[|events| - 1].byteOffset / span]
  }

  function EpochOf(span: nat): nat -> nat
    requires span > 0
  {
    (offset: nat) => offset / span
  }

  lemma OneMoreEpoch(events: seq<StructuralEvent>, span: nat, i: nat)
    requires span > 0 && i < |events|
    ensures Epochs(events[..i + 1], span) == Epochs(events[..i], span) + [events[i].byteOffset / span]
  {
    assert events[..i + 1][..i] == events[..i];
  }

  class RollingStructuralStream {
    const stream: Stream
    const accumulator: Rolling.Accumulator

    ghost predicate Valid()
      reads stream, stream.extractor.memory, accumulator, accumulator.frequency, accumulator.regional,
            accumulator.transitions, accumulator.regionEpochs
    {
      && stream.Valid() && accumulator.Valid()
      && (accumulator.lastOffset.Some? ==> accumulator.lastOffset.value <= stream.bufferOffset)
    }

    constructor (stream: Stream, accumulator: Rolling.Accumulator)
      requires stream.Valid() && accumulator.Valid() && accumulator.lastOffset.None?
      ensures Valid() && this.stream == stream && this.accumulator == accumulator
    {
      this.stream := stream;
      this.accumulator := accumulator;
    }

    /** The events of the stream's push, every one of them observed. */
    method Push(data: seq<Byte>, source: string) returns (events: seq<StructuralEvent>)
      requires Valid() && stream.consumed + |data| < WORD
      modifies stream, stream.extractor.memory, accumulator, accumulator.frequency, accumulator.regional,
               accumulator.transitions, accumulator.regionEpochs
      ensures Valid()
      ensures stream.At() == FeedAll(stream.Settings(), Fed(old(stream.At()), []), source, data).at
      ensures Ingested(events, stream.extractor.memory.relations)
           == ExtractAll(stream.extractor.maxLayers, old(stream.extractor.memory.relations),
                         FeedAll(stream.Settings(), Fed(old(stream.At()), []), source, data).out)
      ensures accumulator.epochs == old(accumulator.epochs) + Epochs(events, accumulator.span)
      ensures accumulator.items == old(accumulator.items) + Items(EpochOf(accumulator.span), events)
    {
      PushForward(stream.Settings(), stream.At(), source, data, stream.extractor.memory.relations);
      ghost var low := stream.bufferOffset;
      events := stream.Push(data, source);
      ObserveAll(accumulator, events, low, stream.bufferOffset);
    }

    method Flush(source: string) returns (events: seq<StructuralEvent>)
      requires Valid() && stream.consumed < WORD
      modifies stream, stream.extractor.memory, accumulator, accumulator.frequency, accumulator.regional,
               accumulator.transitions, accumulator.regionEpochs
      ensures Valid()
      ensures stream.At() == Flushed(stream.Settings(), Fed(old(stream.At()), []), source).at
      ensures Ingested(events, stream.extractor.memory.relations)
           == ExtractAll(stream.extractor.maxLayers, old(stream.extractor.memory.relations),
                         Flushed(stream.Settings(), Fed(old(stream.At()), []), source).out)
      ensures accumulator.epochs == old(accumulator.epochs) + Epochs(events, accumulator.span)
      ensures accumulator.items == old(accumulator.items) + Items(EpochOf(accumulator.span), events)
    {
      FlushForward(stream.Settings(), stream.At(), source, stream.extractor.memory.relations);
      ghost var low := stream.bufferOffset;
      events := stream.Flush(source);
      ObserveAll(accumulator, events, low, stream.bufferOffset);
    }
  }

  /** Observes events that come after everything observed before; none of them is refused. */
  method ObserveAll(accumulator: Rolling.Accumulator, events: seq<StructuralEvent>, ghost low: nat, ghost high: nat)
    requires accumulator.Valid() && Forward(events, low, high) && low <= high < WORD
    requires accumulator.lastOffset.Some? ==> accumulator.lastOffset.value <= low
    modifies accumulator, accumulator.frequency, accumulator.regional, accumulator.transitions,
             accumulator.regionEpochs
    ensures accumulator.Valid()
    ensures accumulator.lastOffset.Some? ==> accumulator.lastOffset.value <= high
    ensures accumulator.epochs == old(accumulator.epochs) + Epochs(events, accumulator.span)
    ensures accumulator.items == old(accumulator.items) + Items(EpochOf(accumulator.span), events)
  {
    ghost var epochs, items, span := accumulator.epochs, accumulator.items, accumulator.span;
    for i := 0 to |events|
      invariant accumulator.Valid()
      invariant AtMost(accumulator.lastOffset, if i == 0 then low else events[i - 1].byteOffset)
      invariant Observed(accumulator.epochs, accumulator.items, epochs, items, span, events[..i])
    {
      ObservedNext(accumulator.epochs, accumulator.items, epochs, items, span, events, i);
      ObserveNext(accumulator, events[i]);
    }
    assert events[..|events|] == events;
  }

  /** The epochs and items, starting from those before, after the events. */
  ghost predicate Observed(epochs: seq<nat>, items: seq<Item>, epochs0: seq<nat>, items0: seq<Item>, span: nat,
                           events: seq<StructuralEvent>)
    requires span > 0
  {
    epochs == epochs0 + Epochs(events, span) && items == items0 + Items(EpochOf(span), events)
  }

  lemma ObservedNext(epochs: seq<nat>, items: seq<Item>, epochs0: seq<nat>, items0: seq<Item>, span: nat,
                     events: seq<StructuralEvent>, i: nat)
    requires span > 0 && i < |events| && Observed(epochs, items, epochs0, items0, span, events[..i])
    ensures Observed(epochs + [events[i].byteOffset / span],
                     items + EventItems(EpochOf(span)(events[i].byteOffset), events[i].relationIds),
                     epochs0, items0, span, events[..i + 1])
  {
    OneMoreEpoch(events, span, i);
    OneMoreEvent(EpochOf(span), events, i);
  }

  ghost predicate AtMost(last: Option<nat>, offset: nat) {
    last.Some? ==> last.value <= offset
  }

  method ObserveNext(accumulator: Rolling.Accumulator, e: StructuralEvent)
    requires accumulator.Valid() && e.byteOffset < WORD && AtMost(accumulator.lastOffset, e.byteOffset)
    modifies accumulator, accumulator.frequency, accumulator.regional, accumulator.transitions,
             accumulator.regionEpochs
    ensures accumulator.Valid() && accumulator.lastOffset == Some(e.byteOffset)
    ensures accumulator.epochs == old(accumulator.epochs) + [e.byteOffset / accumulator.span]
    ensures accumulator.items
         == old(accumulator.items) + EventItems(EpochOf(accumulator.span)(e.byteOffset), e.relationIds)
  {
    var ok := accumulator.Observe(e);
  }

  lemma {:induction false} FeedConsumes(c: Config, f: Fed, source: string, data: seq<Byte>)
    requires GoodConfig(c)
    ensures FeedAll(c, f, source, data).at.consumed == f.at.consumed + |data|
  {
    if data != [] {
      FeedConsumes(c, f, source, data[..|data| - 1]);
    }
  }
}
