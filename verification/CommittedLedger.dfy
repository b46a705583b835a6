/**
  What every run of the consumer has committed, said of the spool line by line: no invalid record, and every window and
  tail of every record exactly once.
*/
module CommittedLedger {
  import opened Words
  import opened Common
  import opened Expansion
  import opened HierarchicalMemory
  import Stream = StructuralStream
  import opened HierarchicalPersistence
  import opened StructuralIngest
  import opened IngestLedger
  import opened Spool
  import opened Checkpoints
  import opened CheckpointSafety

  // ---------- the ledger by lines ----------

  /** Number of a spool line, and number of a cut of the record it holds. */
  ghost predicate IsLineEntry(c: Config, lines: seq<Line>, from: nat, to: nat, e: Entry) {
    && from <= e.0 < to && e.0 < |lines| && lines[e.0].content.Capture?
    && IsCut(c, lines[e.0].content.source.bytes, e.1)
  }

  ghost predicate IsLineLedger(c: Config, lines: seq<Line>, from: nat, to: nat, ledger: seq<Entry>) {
    InTurn(ledger) && forall e: Entry :: e in ledger <==> IsLineEntry(c, lines, from, to, e)
  }

  /** One event for each window and tail of the records on these lines, decoded by `rels`. */
  ghost predicate AccountsForLines(c: Config, rels: Relations, events: seq<StructuralEvent>, lines: seq<Line>,
                                   from: nat, to: nat, ledger: seq<Entry>)
  {
    && IsLineLedger(c, lines, from, to, ledger) && |events| == |ledger|
    && forall k :: 0 <= k < |ledger| ==>
      && IsLineEntry(c, lines, from, to, ledger[k])
      && StandsFor(c, rels, events[k], lines[ledger[k].0].content.source, ledger[k].1)
  }

  /** The entry of a line instead of a source. */
  function OnLine(from: nat, at: seq<nat>, e: Entry): Entry {
    (if e.0 < |at| then from + at[e.0] else 0, e.1)
  }

  function OnLines(from: nat, at: seq<nat>, ledger: seq<Entry>): (r: seq<Entry>)
    ensures |r| == |ledger|
  {
    seq(|ledger|, k requires 0 <= k < |ledger| => OnLine(from, at, ledger[k]))
  }

  /** The lines `at` of the part from `from` up to `to` hold exactly `sources`. */
  ghost predicate Holding(lines: seq<Line>, from: nat, to: nat, at: seq<nat>, sources: seq<Source>) {
    && from <= to <= |lines| && KeptPlaces(lines[from..to], HoldsCapture(), at)
    && ReadAt(lines[from..to], at, SourceOf(), sources)
  }

  lemma HoldingAt(lines: seq<Line>, from: nat, to: nat, at: seq<nat>, sources: seq<Source>, i: nat)
    requires Holding(lines, from, to, at, sources) && i < |sources|
    ensures i < |at| && from + at[i] < to && lines[from + at[i]].content == Capture(sources[i])
  {
    var line := lines[from..to][at[i]];
    assert line == lines[from + at[i]];
    assert at[i] in at;
    assert HoldsCapture()(line) && SourceOf()(line) == sources[i];
  }

  lemma EntryOnLine(c: Config, lines: seq<Line>, from: nat, to: nat, at: seq<nat>, sources: seq<Source>, e: Entry)
    requires Holding(lines, from, to, at, sources) && IsEntry(c, sources, e)
    ensures IsLineEntry(c, lines, from, to, OnLine(from, at, e))
  {
    HoldingAt(lines, from, to, at, sources, e.0);
  }

  lemma LineHasEntry(c: Config, lines: seq<Line>, from: nat, to: nat, at: seq<nat>, sources: seq<Source>, e: Entry)
      returns (f: Entry)
    requires Holding(lines, from, to, at, sources) && IsLineEntry(c, lines, from, to, e)
    ensures IsEntry(c, sources, f) && OnLine(from, at, f) == e
  {
    var part := lines[from..to];
    assert part[e.0 - from] == lines[e.0];
    assert e.0 - from in at;
    var i :| 0 <= i < |at| && at[i] == e.0 - from;
    HoldingAt(lines, from, to, at, sources, i);
    f := (i, e.1);
  }

  lemma LinesInTurn(from: nat, at: seq<nat>, ledger: seq<Entry>)
    requires InTurn(ledger) && forall j, k :: 0 <= j < k < |at| ==> at[j] < at[k]
    requires forall k :: 0 <= k < |ledger| ==> ledger[k].0 < |at|
    ensures InTurn(OnLines(from, at, ledger))
  {
    var r := OnLines(from, at, ledger);
    forall k, m | 0 <= k < m < |r|
      ensures Earlier(r[k], r[m])
    {
      assert Earlier(ledger[k], ledger[m]);
    }
  }

  lemma LinesListed(c: Config, lines: seq<Line>, from: nat, to: nat, at: seq<nat>, sources: seq<Source>,
                    ledger: seq<Entry>)
    requires Holding(lines, from, to, at, sources) && IsLedger(c, sources, ledger)
    ensures IsLineLedger(c, lines, from, to, OnLines(from, at, ledger))
  {
    var r := OnLines(from, at, ledger);
    forall k | 0 <= k < |ledger|
      ensures ledger[k].0 < |at| && IsLineEntry(c, lines, from, to, r[k])
    {
      assert ledger[k] in ledger;
      EntryOnLine(c, lines, from, to, at, sources, ledger[k]);
    }
    LinesInTurn(from, at, ledger);
    forall e: Entry | IsLineEntry(c, lines, from, to, e)
      ensures e in r
    {
      var f := LineHasEntry(c, lines, from, to, at, sources, e);
      assert f in ledger;
      var k :| 0 <= k < |ledger| && ledger[k] == f;
      assert r[k] == e;
    }
  }

  lemma AccountedByLines(c: Config, rels: Relations, events: seq<StructuralEvent>, lines: seq<Line>, from: nat,
                         to: nat, ledger: seq<Entry>) returns (byLines: seq<Entry>)
    requires from <= to <= |lines| && Accounts(c, rels, events, Between(lines, from, to), ledger)
    ensures AccountsForLines(c, rels, events, lines, from, to, byLines)
  {
    var sources := Between(lines, from, to);
    CapturesKept(lines[from..to]);
    var at := KeptListed(lines[from..to], HoldsCapture(), SourceOf());
    byLines := OnLines(from, at, ledger);
    LinesListed(c, lines, from, to, at, sources, ledger);
    forall k | 0 <= k < |byLines|
      ensures IsLineEntry(c, lines, from, to, byLines[k])
      ensures StandsFor(c, rels, events[k], lines[byLines[k].0].content.source, byLines[k].1)
    {
      assert byLines[k] in byLines;
      HoldingAt(lines, from, to, at, sources, ledger[k].0);
    }
  }

  lemma CapturedLast(lines: seq<Line>, j: nat, k: nat)
    requires j < k <= |lines|
    ensures |CapturedIn(lines, j, k)|
         == |CapturedIn(lines, j, k - 1)| + if lines[k - 1].content.Capture? then 1 else 0
  {
    if lines[k - 1].content.Capture? {
      assert CapturedIn(lines, j, k) == CapturedIn(lines, j, k - 1) + {k - 1};
    } else {
      assert CapturedIn(lines, j, k) == CapturedIn(lines, j, k - 1);
    }
  }

  lemma BetweenLast(lines: seq<Line>, j: nat, k: nat)
    requires j < k <= |lines|
    ensures |Between(lines, j, k)| == |Between(lines, j, k - 1)| + if lines[k - 1].content.Capture? then 1 else 0
  {
    BetweenConcat(lines, j, k - 1, k);
    OneLine(lines, k - 1);
  }

  lemma NoneCaptured(lines: seq<Line>, j: nat)
    requires j <= |lines|
    ensures |Between(lines, j, j)| == |CapturedIn(lines, j, j)|
  {
    NoSources(lines, j);
    assert CapturedIn(lines, j, j) == {};
  }

  lemma {:induction false} CapturesCounted(lines: seq<Line>, j: nat, k: nat)
    requires j <= k <= |lines|
    ensures |Between(lines, j, k)| == |CapturedIn(lines, j, k)|
    decreases k
  {
    if j == k {
      NoneCaptured(lines, j);
    } else {
      CapturesCounted(lines, j, k - 1);
      BetweenLast(lines, j, k);
      CapturedLast(lines, j, k);
    }
  }

  // ---------- every run ----------

  /** Commit `i` stores the number of records on its lines, at least one. */
  ghost predicate CountsRecords(o: Origins, lines: seq<Line>, history: seq<Link>, i: nat)
    requires i < |history|
  {
    var from, to := LineOf(o, history[..i]), history[i].line;
    from < to <= |lines| && history[i].manifest.recordCount == |CapturedIn(lines, from, to)| > 0
  }

  lemma {:induction false} ChainCounts(o: Origins, lines: seq<Line>, dir: Directory, history: seq<Link>, i: nat)
    requires Chained(o, lines, dir, history) && i < |history|
    ensures CountsRecords(o, lines, history, i)
  {
    var before := history[..|history| - 1];
    if i < |before| {
      ChainCounts(o, lines, dir, before, i);
      assert before[..i] == history[..i];
    } else {
      LinkCounts(o, lines, history);
    }
  }

  lemma LinkCounts(o: Origins, lines: seq<Line>, history: seq<Link>)
    requires history != [] && Follows(o, lines, history[..|history| - 1], history[|history| - 1])
    ensures CountsRecords(o, lines, history, |history| - 1)
  {
    CapturesCounted(lines, LineOf(o, history[..|history| - 1]), history[|history| - 1].line);
  }

  /** Every manifest of every run counts the records of its lines. */
  lemma RecordsCounted(o: Origins, run: seq<System>, i: nat)
    requires Execution(o, run) && i < |Last(run).history|
    ensures CountsRecords(o, Last(run).lines, Last(run).history, i)
  {
    InvariantHolds(o, run);
    ChainCounts(o, Last(run).lines, Last(run).dir, Last(run).history, i);
  }

  lemma {:induction false} ChainClean(o: Origins, lines: seq<Line>, dir: Directory, history: seq<Link>)
    requires Chained(o, lines, dir, history)
    ensures NoneInvalid(lines, o.line, LineOf(o, history))
  {
    if history != [] {
      ChainClean(o, lines, dir, history[..|history| - 1]);
    }
  }

  /** No line that was ever committed past holds an invalid record. */
  lemma NoInvalidCommitted(o: Origins, run: seq<System>)
    requires Execution(o, run)
    ensures NoneInvalid(Last(run).lines, o.line, LineOf(o, Last(run).history))
  {
    InvariantHolds(o, run);
    ChainClean(o, Last(run).lines, Last(run).dir, Last(run).history);
  }

  /** What the last manifest committed says. */
  ghost function LastManifest(run: seq<System>): Manifest
    requires run != [] && Last(run).history != []
  {
    Last(run).history[|Last(run).history| - 1].manifest
  }

  /**
    In every state of every run, the events committed are one for each window and tail of each record from the first
    line to the cursor, in order; and the committed state holds the relations the run began with, followed by others,
    that decode every one of them.
  */
  lemma CommittedExactlyOnce(o: Origins, run: seq<System>) returns (rels: Relations, ledger: seq<Entry>)
    requires Execution(o, run) && Last(run).history != []
    ensures var s, m := Last(run), LastManifest(run);
            && m.stateFile in s.dir.states && s.dir.states[m.stateFile] == Saved(rels)
            && Pairs(o.rels) <= Pairs(rels) && m.config.Some?
            && AccountsForLines(m.config.value, rels, CommittedEvents(s.dir, s.history), s.lines, o.line,
                                LineOf(o, s.history), ledger)
  {
    var s, m := Last(run), LastManifest(run);
    ExactlyOnce(o, run);
    InvariantHolds(o, run);
    var c, to := m.config.value, LineOf(o, s.history);
    var sources := Between(s.lines, o.line, to);
    rels := IngestAll(c, o.rels, sources).rels;
    IngestKeeps(c, o.rels, sources);
    IngestAccounts(c, o.rels, sources);
    ledger := AccountedByLines(c, rels, CommittedEvents(s.dir, s.history), s.lines, o.line, to, Ledger(c, sources));
  }
}
