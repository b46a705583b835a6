/**
  Pushes and flushes in any order: each flush ends a segment, and every segment is emitted as if it had been one batch.
*/
module StreamCalls {
  import opened Words
  import opened Common
  import opened StructuralStream

  /** The pieces of the segments flushed, where the current segment begins, and its bytes so far. */
  datatype Segments = Segments(flushed: seq<Piece>, start: Start, bytes: seq<Byte>)

  /** Where the next segment begins. */
  ghost function Next(c: Config, source: string, s: Segments): Start
    requires GoodConfig(c)
  {
    Start(s.start.sequence + |Batch(c, s.start, source, s.bytes)|, s.start.offset + |s.bytes|)
  }

  /** What the calls mean, without a buffer. */
  ghost function Segmented(c: Config, source: string, calls: seq<Call>): Segments
    requires GoodConfig(c)
  {
    if calls == [] then Segments([], Start(0, 0), [])
    else
      var s := Segmented(c, source, calls[..|calls| - 1]);
      match calls[|calls| - 1]
      case Push(data, _) => s.(bytes := s.bytes + data)
      case Flush(_) =>
        Segments(s.flushed + Batch(c, s.start, source, s.bytes), Next(c, source, s), [])
  }

  /** `f` with the pieces of `before` in front of its own. */
  function Later(before: seq<Piece>, f: Fed): Fed {
    Fed(f.at, before + f.out)
  }

  /** The flushed segments, and what the machine has made of the current one. */
  ghost function Running(c: Config, source: string, s: Segments): Fed
    requires GoodConfig(c)
  {
    Later(s.flushed, FeedAll(c, Fresh(s.start), source, s.bytes))
  }

  /** The flushed segments and the full windows of the current one are out; its tail is buffered. */
  ghost function Emitted(c: Config, source: string, s: Segments): Fed
    requires GoodConfig(c)
  {
    Later(s.flushed, Reached(c, s.start, source, s.bytes))
  }

  ghost predicate AllFrom(source: string, calls: seq<Call>) {
    forall i :: 0 <= i < |calls| ==> calls[i].source == source
  }

  lemma LaterAgain(before: seq<Piece>, more: seq<Piece>, f: Fed)
    ensures Later(before, Later(more, f)) == Later(before + more, f)
  {
    assert before + (more + f.out) == before + more + f.out;
  }

  lemma FeedLater(c: Config, before: seq<Piece>, f: Fed, source: string, data: seq<Byte>)
    requires GoodConfig(c)
    ensures FeedAll(c, Later(before, f), source, data) == Later(before, FeedAll(c, f, source, data))
  {
    FeedAfter(c, f.at, before + f.out, source, data);
    FeedAfter(c, f.at, f.out, source, data);
    LaterAgain(before, f.out, FeedAll(c, Fed(f.at, []), source, data));
  }

  lemma FlushLater(before: seq<Piece>, f: Fed, c: Config, source: string)
    ensures Flushed(c, Later(before, f), source) == Later(before, Flushed(c, f, source))
  {
    if f.at.buffer != [] {
      var last := Piece(source, f.at.sequence, f.at.bufferOffset, f.at.buffer);
      assert before + f.out + [last] == before + (f.out + [last]);
    }
  }

  lemma PushRuns(c: Config, source: string, s: Segments, data: seq<Byte>)
    requires GoodConfig(c)
    ensures FeedAll(c, Running(c, source, s), source, data) == Running(c, source, s.(bytes := s.bytes + data))
  {
    FeedLater(c, s.flushed, FeedAll(c, Fresh(s.start), source, s.bytes), source, data);
    FeedConcat(c, Fresh(s.start), source, s.bytes, data);
  }

  lemma DoneIsFresh(c: Config, source: string, s: Segments)
    requires GoodConfig(c)
    ensures Done(c, s.start, source, s.bytes) == Later(Batch(c, s.start, source, s.bytes), Fresh(Next(c, source, s)))
  {}

  lemma FlushRuns(c: Config, source: string, s: Segments)
    requires GoodConfig(c)
    ensures var batch := Batch(c, s.start, source, s.bytes);
            Flushed(c, Running(c, source, s), source)
            == Running(c, source, Segments(s.flushed + batch, Next(c, source, s), []))
  {
    FlushLater(s.flushed, FeedAll(c, Fresh(s.start), source, s.bytes), c, source);
    FeedReaches(c, s.start, source, s.bytes);
    FlushReached(c, s.start, source, s.bytes);
    DoneIsFresh(c, source, s);
    LaterAgain(s.flushed, Batch(c, s.start, source, s.bytes), Fresh(Next(c, source, s)));
  }

  lemma {:induction false} CallsRun(c: Config, source: string, calls: seq<Call>)
    requires GoodConfig(c) && AllFrom(source, calls)
    ensures Calls(c, Fresh(Start(0, 0)), calls) == Running(c, source, Segmented(c, source, calls))
  {
    if calls != [] {
      var front, s := calls[..|calls| - 1], Segmented(c, source, calls[..|calls| - 1]);
      CallsRun(c, source, front);
      match calls[|calls| - 1] {
        case Push(data, _) => PushRuns(c, source, s, data);
        case Flush(_) => FlushRuns(c, source, s);
      }
    }
  }

  /** Whatever the calls, the pieces are those of each flushed segment as a batch, then the full windows of the rest. */
  lemma CallsAreSegments(c: Config, source: string, calls: seq<Call>)
    requires GoodConfig(c) && AllFrom(source, calls)
    ensures Calls(c, Fresh(Start(0, 0)), calls) == Emitted(c, source, Segmented(c, source, calls))
  {
    var s := Segmented(c, source, calls);
    CallsRun(c, source, calls);
    FeedReaches(c, s.start, source, s.bytes);
  }

  // ---------- calls with different source names ----------

  function Unnamed(call: Call): Call {
    call.(source := "")
  }

  function AllUnnamed(calls: seq<Call>): (r: seq<Call>)
    ensures |r| == |calls|
  {
    seq(|calls|, i requires 0 <= i < |calls| => Unnamed(calls[i]))
  }

  /** The same position and the same pieces, apart from their source names. */
  ghost predicate SameButNames(f: Fed, g: Fed) {
    && f.at == g.at && |f.out| == |g.out|
    && forall i :: 0 <= i < |f.out| ==> f.out[i].(source := "") == g.out[i].(source := "")
  }

  lemma {:induction false} FeedSameButNames(c: Config, f: Fed, g: Fed, source: string, other: string, data: seq<Byte>)
    requires GoodConfig(c) && SameButNames(f, g)
    ensures SameButNames(FeedAll(c, f, source, data), FeedAll(c, g, other, data))
  {
    if data != [] {
      FeedSameButNames(c, f, g, source, other, data[..|data| - 1]);
    }
  }

  lemma {:induction false} CallsSameButNames(c: Config, f: Fed, calls: seq<Call>)
    requires GoodConfig(c)
    ensures SameButNames(Calls(c, f, calls), Calls(c, f, AllUnnamed(calls)))
  {
    if calls != [] {
      var front, last := calls[..|calls| - 1], calls[|calls| - 1];
      CallsSameButNames(c, f, front);
      assert AllUnnamed(calls)[..|calls| - 1] == AllUnnamed(front);
      if last.Push? {
        FeedSameButNames(c, Calls(c, f, front), Calls(c, f, AllUnnamed(front)), last.source, "", last.data);
      }
    }
  }

  lemma {:induction false} SegmentsUnnamed(c: Config, source: string, calls: seq<Call>)
    requires GoodConfig(c)
    ensures Segmented(c, source, AllUnnamed(calls)) == Segmented(c, source, calls)
  {
    if calls != [] {
      SegmentsUnnamed(c, source, calls[..|calls| - 1]);
      assert AllUnnamed(calls)[..|calls| - 1] == AllUnnamed(calls[..|calls| - 1]);
    }
  }

  /** With different names too, up to the names: a piece is named by the call that completes it. */
  lemma AnyCallsAreSegments(c: Config, calls: seq<Call>)
    requires GoodConfig(c)
    ensures SameButNames(Calls(c, Fresh(Start(0, 0)), calls), Emitted(c, "", Segmented(c, "", calls)))
  {
    CallsSameButNames(c, Fresh(Start(0, 0)), calls);
    SegmentsUnnamed(c, "", calls);
    CallsAreSegments(c, "", AllUnnamed(calls));
  }
}
