/**
  Which bytes of which source each event of a run stands for: every source continues the hierarchy of the one before,
  and every window and tail of every source becomes exactly one event.
*/
module IngestLedger {
  import opened Words
  import opened Common
  import opened Expansion
  import opened HierarchicalMemory
  import opened StructuralStream
  import opened StructuralFileIngest
  import opened HierarchicalPersistence
  import opened StructuralIngest

  // ---------- one chain of pieces ----------

  /** The pieces of all sources, one source after the other. */
  ghost function AllPieces(c: Config, sources: seq<Source>): seq<Piece>
    requires GoodConfig(c)
  {
    if sources == [] then []
    else
      var last := sources[|sources| - 1];
      AllPieces(c, sources[..|sources| - 1]) + Batch(c, Start(0, 0), last.id, last.bytes)
  }

  /** A run over many sources is one chain of extractions. */
  lemma {:induction false} IngestIsExtract(c: Config, rels: Relations, sources: seq<Source>)
    requires GoodConfig(c)
    ensures IngestAll(c, rels, sources) == ExtractAll(c.layers, rels, AllPieces(c, sources))
  {
    if sources != [] {
      var front, last := sources[..|sources| - 1], sources[|sources| - 1];
      IngestIsExtract(c, rels, front);
      ExtractConcat(c.layers, rels, AllPieces(c, front), Batch(c, Start(0, 0), last.id, last.bytes));
    }
  }

  /** A run keeps every relation it starts with. */
  lemma IngestKeeps(c: Config, rels: Relations, sources: seq<Source>)
    requires GoodConfig(c) && WellFormed(rels)
    ensures WellFormed(IngestAll(c, rels, sources).rels)
    ensures Pairs(rels) <= Pairs(IngestAll(c, rels, sources).rels)
  {
    IngestIsExtract(c, rels, sources);
    ExtractCount(c.layers, rels, AllPieces(c, sources));
  }

  // ---------- the cuts of one source ----------

  /** Cut `j` begins inside the data, and the window before it is full. */
  ghost predicate IsCut(c: Config, data: seq<Byte>, j: nat) {
    j * c.hop < |data| && (j > 0 ==> (j - 1) * c.hop + c.window <= |data|)
  }

  /** The bytes of a cut: a full window, or what is left. */
  ghost function Cut(c: Config, data: seq<Byte>, j: nat): seq<Byte>
    requires IsCut(c, data, j)
  {
    data[j * c.hop..Min(j * c.hop + c.window, |data|)]
  }

  /** The piece is cut `j` of the source. */
  ghost predicate IsPiece(c: Config, p: Piece, source: Source, j: nat) {
    && IsCut(c, source.bytes, j)
    && p == Piece(source.id, j, j * c.hop, Cut(c, source.bytes, j))
  }

  lemma CutExactly(c: Config, data: seq<Byte>, j: nat)
    requires GoodConfig(c)
    ensures IsCut(c, data, j) <==>
      j < FullWindows(c, |data|) || (j == FullWindows(c, |data|) && Buffered(c, |data|) > 0)
  {
    var k := FullWindows(c, |data|);
    FullWindowsRange(c, |data|);
    WindowStarts(c, j);
    var left := Buffered(c, |data|);
    if j > 0 {
      WindowStarts(c, j - 1);
    }
    if j < k {
      OffsetMonotone(c, j, k - 1);
      if j > 0 {
        OffsetMonotone(c, j - 1, k - 1);
      }
    } else if j > k {
      OffsetMonotone(c, k, j - 1);
    }
  }

  lemma BatchSize(c: Config, source: Source, j: nat)
    requires GoodConfig(c)
    ensures j < |Batch(c, Start(0, 0), source.id, source.bytes)| <==> IsCut(c, source.bytes, j)
  {
    CutExactly(c, source.bytes, j);
  }

  lemma BatchPieces(c: Config, source: Source, j: nat)
    requires GoodConfig(c) && IsCut(c, source.bytes, j)
    ensures j < |Batch(c, Start(0, 0), source.id, source.bytes)|
    ensures IsPiece(c, Batch(c, Start(0, 0), source.id, source.bytes)[j], source, j)
  {
    var data := source.bytes;
    CutExactly(c, data, j);
    WindowStarts(c, j);
    if j < FullWindows(c, |data|) {
      WindowsAt(c, Start(0, 0), source.id, data, FullWindows(c, |data|), j);
      WindowEnds(c, data, j);
    } else {
      TailEnds(c, data, Offset(c, j));
    }
  }

  lemma WindowEnds(c: Config, data: seq<Byte>, j: nat)
    requires GoodConfig(c) && j < FullWindows(c, |data|)
    ensures Offset(c, j) + c.window <= |data|
    ensures Window(c, data, j) == data[Offset(c, j)..Min(Offset(c, j) + c.window, |data|)]
  {
    var w := Window(c, data, j);
    WindowSlice(c, data, j);
  }

  lemma TailRange(c: Config, n: nat, from: nat)
    requires GoodConfig(c) && from == Offset(c, FullWindows(c, n))
    ensures from <= n <= from + c.window
  {
    FullWindowsRange(c, n);
  }

  lemma TailEnds(c: Config, data: seq<Byte>, from: nat)
    requires GoodConfig(c) && from == Offset(c, FullWindows(c, |data|))
    ensures from <= |data| && data[from..] == data[from..Min(from + c.window, |data|)]
  {
    TailRange(c, |data|, from);
    ToTheEnd(data, from, c.window);
  }

  lemma ToTheEnd(data: seq<Byte>, from: nat, n: nat)
    requires from <= |data| <= from + n
    ensures data[from..] == data[from..Min(from + n, |data|)]
  {}

  // ---------- the ledger of a run ----------

  /** Number of a source, and number of a cut of it. */
  type Entry = (nat, nat)

  ghost predicate Earlier(a: Entry, b: Entry) {
    a.0 < b.0 || (a.0 == b.0 && a.1 < b.1)
  }

  ghost predicate IsEntry(c: Config, sources: seq<Source>, e: Entry) {
    e.0 < |sources| && IsCut(c, sources[e.0].bytes, e.1)
  }

  ghost predicate InTurn(ledger: seq<Entry>) {
    forall k, m :: 0 <= k < m < |ledger| ==> Earlier(ledger[k], ledger[m])
  }

  /** The ledger lists every cut of every source once, in order. */
  ghost predicate IsLedger(c: Config, sources: seq<Source>, ledger: seq<Entry>) {
    InTurn(ledger) && forall e: Entry :: e in ledger <==> IsEntry(c, sources, e)
  }

  ghost function BatchEntries(c: Config, source: Source, i: nat): (entries: seq<Entry>)
    requires GoodConfig(c)
    ensures |entries| == |Batch(c, Start(0, 0), source.id, source.bytes)|
  {
    seq(|Batch(c, Start(0, 0), source.id, source.bytes)|, j requires 0 <= j => (i, j))
  }

  ghost function Ledger(c: Config, sources: seq<Source>): (ledger: seq<Entry>)
    requires GoodConfig(c)
    ensures |ledger| == |AllPieces(c, sources)|
  {
    if sources == [] then []
    else Ledger(c, sources[..|sources| - 1]) + BatchEntries(c, sources[|sources| - 1], |sources| - 1)
  }

  lemma EntriesAre(c: Config, sources: seq<Source>, e: Entry)
    requires GoodConfig(c) && sources != []
    ensures e in BatchEntries(c, sources[|sources| - 1], |sources| - 1)
       <==> e.0 == |sources| - 1 && IsEntry(c, sources, e)
  {
    var i := |sources| - 1;
    var entries := BatchEntries(c, sources[i], i);
    BatchSize(c, sources[i], e.1);
    if e.0 == i && e.1 < |entries| {
      assert entries[e.1] == e;
    }
  }

  lemma {:induction false} LedgerLists(c: Config, sources: seq<Source>, e: Entry)
    requires GoodConfig(c)
    ensures e in Ledger(c, sources) <==> IsEntry(c, sources, e)
  {
    if sources != [] {
      LedgerLists(c, sources[..|sources| - 1], e);
      EntriesAre(c, sources, e);
    }
  }

  lemma {:induction false} LedgerInTurn(c: Config, sources: seq<Source>)
    requires GoodConfig(c)
    ensures InTurn(Ledger(c, sources))
  {
    if sources != [] {
      var front := sources[..|sources| - 1];
      LedgerInTurn(c, front);
      var before, more := Ledger(c, front), BatchEntries(c, sources[|sources| - 1], |sources| - 1);
      forall k | 0 <= k < |before|
        ensures before[k].0 < |front|
      {
        LedgerLists(c, front, before[k]);
      }
      TurnsJoin(before, more, |front|);
    }
  }

  lemma TurnsJoin(before: seq<Entry>, more: seq<Entry>, i: nat)
    requires InTurn(before) && forall k :: 0 <= k < |before| ==> before[k].0 < i
    requires forall k :: 0 <= k < |more| ==> more[k] == (i, k)
    ensures InTurn(before + more)
  {}

  /** Entry `k` of the ledger is piece `k`. */
  lemma {:induction false} LedgerPieces(c: Config, sources: seq<Source>, k: nat)
    requires GoodConfig(c) && k < |Ledger(c, sources)|
    ensures IsEntry(c, sources, Ledger(c, sources)[k])
    ensures var e := Ledger(c, sources)[k]; IsPiece(c, AllPieces(c, sources)[k], sources[e.0], e.1)
  {
    var front, i := sources[..|sources| - 1], |sources| - 1;
    var before := |Ledger(c, front)|;
    if k < before {
      LedgerPieces(c, front, k);
    } else {
      BatchSize(c, sources[i], k - before);
      BatchPieces(c, sources[i], k - before);
    }
  }

  // ---------- what the events stand for ----------

  /** The event is cut `j` of the source, and its trail decodes to the bytes of the cut. */
  ghost predicate StandsFor(c: Config, rels: Relations, e: StructuralEvent, source: Source, j: nat) {
    && IsCut(c, source.bytes, j) && WellFormed(rels)
    && e.sourceId == source.id && e.sequence == j && e.byteOffset == j * c.hop
    && e.byteLength == |Cut(c, source.bytes, j)|
    && Decoded(Pairs(rels), e.trail) == Ok(Cut(c, source.bytes, j))
  }

  /** One event for each entry of the ledger, all of them decoded by the same relations. */
  ghost predicate Accounts(c: Config, rels: Relations, events: seq<StructuralEvent>, sources: seq<Source>,
                           ledger: seq<Entry>)
  {
    && IsLedger(c, sources, ledger) && |events| == |ledger|
    && forall k :: 0 <= k < |ledger| ==>
      IsEntry(c, sources, ledger[k]) && StandsFor(c, rels, events[k], sources[ledger[k].0], ledger[k].1)
  }

  lemma LedgerIsLedger(c: Config, sources: seq<Source>)
    requires GoodConfig(c)
    ensures IsLedger(c, sources, Ledger(c, sources))
  {
    LedgerInTurn(c, sources);
    forall e: Entry
      ensures e in Ledger(c, sources) <==> IsEntry(c, sources, e)
    {
      LedgerLists(c, sources, e);
    }
  }

  lemma EventStandsFor(c: Config, rels: Relations, sources: seq<Source>, k: nat)
    requires GoodConfig(c) && WellFormed(rels) && k < |Ledger(c, sources)|
    ensures var done, e := IngestAll(c, rels, sources), Ledger(c, sources)[k];
            && |done.events| == |Ledger(c, sources)| && IsEntry(c, sources, e)
            && StandsFor(c, done.rels, done.events[k], sources[e.0], e.1)
  {
    IngestIsExtract(c, rels, sources);
    LedgerPieces(c, sources, k);
    EveryEventDecodes(c.layers, rels, AllPieces(c, sources), k);
  }

  /**
    Every cut of every source becomes exactly one event, in order, and the final relations decode its trail to the
    bytes of the cut.
  */
  lemma IngestAccounts(c: Config, rels: Relations, sources: seq<Source>)
    requires GoodConfig(c) && WellFormed(rels)
    ensures var done := IngestAll(c, rels, sources);
            Accounts(c, done.rels, done.events, sources, Ledger(c, sources))
  {
    LedgerIsLedger(c, sources);
    IngestIsExtract(c, rels, sources);
    ExtractCount(c.layers, rels, AllPieces(c, sources));
    forall k | 0 <= k < |Ledger(c, sources)|
      ensures var done, e := IngestAll(c, rels, sources), Ledger(c, sources)[k];
              IsEntry(c, sources, e) && StandsFor(c, done.rels, done.events[k], sources[e.0], e.1)
    {
      EventStandsFor(c, rels, sources, k);
    }
  }

  /** What a program run prints and saves: all cuts of all sources, on top of the relations it was given. */
  lemma OutcomeAccounts(stateIn: Option<seq<Byte>>, sources: seq<Source>, o: IngestConfig) returns (rels: Relations)
    requires Outcome(stateIn, sources, o).Some?
    ensures var out := Outcome(stateIn, sources, o).value;
            && out.state == Saved(rels) && Pairs(Initial(stateIn).value) <= Pairs(rels)
            && GoodConfig(Settings(o))
            && Accounts(Settings(o), rels, out.events, sources, Ledger(Settings(o), sources))
  {
    var before := Initial(stateIn).value;
    rels := IngestAll(Settings(o), before, sources).rels;
    IngestKeeps(Settings(o), before, sources);
    IngestAccounts(Settings(o), before, sources);
  }
}
