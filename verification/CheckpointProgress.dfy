/**
  When the consumer can go on: exactly until it commits a hierarchy with more relations than the reader accepts.
*/
module CheckpointProgress {
  import opened Words
  import opened Common
  import opened HierarchicalMemory
  import Stream = StructuralStream
  import opened StructuralFileIngest
  import opened HierarchicalPersistence
  import opened StructuralIngest
  import opened Spool
  import opened Checkpoints
  import opened CheckpointSafety
  import Growth = RelationGrowth

  // ---------- when the batch program succeeds ----------

  /** The committed hierarchy has more relations than the reader accepts. */
  ghost predicate OverLimit(o: Origins, lines: seq<Line>, history: seq<Link>) {
    && history != []
    && var link := history[|history| - 1];
       && link.manifest.config.Some? && Stream.GoodConfig(link.manifest.config.value)
       && o.line <= link.line <= |lines|
       && |Total(o, link.manifest.config.value, lines, link.line).rels| > MAX_RELATIONS
  }

  lemma PendingNamed(o: Origins, lines: seq<Line>, history: seq<Link>, b: Batch)
    requires Pending(o, lines, history, b)
    ensures Named(b.sources)
  {
    CapturesNamed(lines[b.from..b.to]);
  }

  /** The state file of the batch is the committed one. */
  lemma CommittedState(o: Origins, s: System, b: Batch)
    requires Invariant(o, s) && Pending(o, s.lines, s.history, b) && s.history != []
    requires GoodOptions(b.arguments.options)
    ensures o.line <= b.from <= |s.lines|
    ensures var rels := Total(o, Settings(b.arguments.options), s.lines, b.from).rels;
            && Initial(StateIn(s.dir, b)) == Loaded(Saved(rels)) && BASE + |rels| <= WORD
            && (OverLimit(o, s.lines, s.history) <==> |rels| > MAX_RELATIONS)
  {
    var before, link := s.history[..|s.history| - 1], s.history[|s.history| - 1];
    assert Follows(o, s.lines, before, link) && Stored(o, s.lines, s.dir, before, link);
    assert link.manifest.config == Some(Settings(b.arguments.options)) && link.line == b.from;
  }

  lemma InitialReads(o: Origins, s: System, b: Batch)
    requires Invariant(o, s) && Pending(o, s.lines, s.history, b) && GoodOptions(b.arguments.options)
    ensures Initial(StateIn(s.dir, b)).Ok? <==> !OverLimit(o, s.lines, s.history)
  {
    if s.history != [] {
      var c := Settings(b.arguments.options);
      CommittedState(o, s, b);
      IngestDurable(c, o.rels, Between(s.lines, o.line, b.from));
      DurableLoads(Total(o, c, s.lines, b.from).rels);
    }
  }

  /** The batch program succeeds exactly for good options on a committed hierarchy within the limit. */
  lemma SucceedsExactlyWithinLimit(o: Origins, s: System, b: Batch)
    requires Invariant(o, s) && Pending(o, s.lines, s.history, b)
    ensures Outcome(StateIn(s.dir, b), b.sources, b.arguments.options).Some?
       <==> GoodOptions(b.arguments.options) && !OverLimit(o, s.lines, s.history)
  {
    PendingNamed(o, s.lines, s.history, b);
    if GoodOptions(b.arguments.options) {
      InitialReads(o, s, b);
    }
  }

  // ---------- over the limit nothing is committed any more ----------

  lemma OverLimitGrows(o: Origins, lines: seq<Line>, longer: seq<Line>, history: seq<Link>)
    requires lines <= longer && LineOf(o, history) <= |lines|
    ensures OverLimit(o, longer, history) <==> OverLimit(o, lines, history)
  {
    if history != [] {
      var link := history[|history| - 1];
      if link.manifest.config.Some? && Stream.GoodConfig(link.manifest.config.value) && o.line <= link.line {
        TotalStable(o, link.manifest.config.value, lines, longer, link.line);
      }
    }
  }

  /** The process has the output of a successful program. */
  predicate HasOutput(p: Process) {
    p.Produced? || p.ManifestOpen? || p.ManifestWritten? || p.TemporaryOpen? || p.TemporaryWritten?
  }

  ghost predicate OutputWithinLimit(o: Origins, s: System) {
    HasOutput(s.process) ==> !OverLimit(o, s.lines, s.history)
  }

  lemma GrowthWithinLimit(o: Origins, s: System, t: System)
    requires Invariant(o, s) && OutputWithinLimit(o, s) && SpoolGrows(s, t)
    ensures OutputWithinLimit(o, t)
  {
    CurrentCursor(o, s.lines, s.dir, s.history);
    OverLimitGrows(o, s.lines, t.lines, s.history);
  }

  lemma SuccessWithinLimit(o: Origins, s: System, t: System)
    requires Invariant(o, s) && ProgramSucceeds(s, t)
    ensures OutputWithinLimit(o, t)
  {
    SucceedsExactlyWithinLimit(o, s, s.process.batch);
  }

  /** No other step gives a process its output. */
  lemma OthersWithinLimit(o: Origins, s: System, t: System)
    requires OutputWithinLimit(o, s) && Step(s, t) && !SpoolGrows(s, t) && !ProgramSucceeds(s, t)
    ensures OutputWithinLimit(o, t)
  {}

  lemma StepWithinLimit(o: Origins, s: System, t: System)
    requires Invariant(o, s) && OutputWithinLimit(o, s) && Step(s, t)
    ensures OutputWithinLimit(o, t)
  {
    if SpoolGrows(s, t) {
      GrowthWithinLimit(o, s, t);
    } else if ProgramSucceeds(s, t) {
      SuccessWithinLimit(o, s, t);
    } else {
      OthersWithinLimit(o, s, t);
    }
  }

  lemma {:induction false} AlwaysWithinLimit(o: Origins, run: seq<System>)
    requires Execution(o, run)
    ensures OutputWithinLimit(o, Last(run))
  {
    if |run| > 1 {
      var before := run[..|run| - 1];
      AlwaysWithinLimit(o, before);
      InvariantHolds(o, before);
      StepWithinLimit(o, Last(before), Last(run));
    }
  }

  lemma CommitsWithinLimit(o: Origins, s: System, t: System)
    requires OutputWithinLimit(o, s) && Step(s, t) && OverLimit(o, s.lines, s.history)
    ensures t.history == s.history
  {}

  /** The commits of `t` are those of `s`, and they are over the limit. */
  ghost predicate StaysAt(o: Origins, s: System, t: System) {
    t.history == s.history && OverLimit(o, t.lines, t.history)
  }

  lemma StuckStep(o: Origins, s: System, run: seq<System>, t: System)
    requires Execution(o, run) && Step(Last(run), t) && StaysAt(o, s, Last(run))
    ensures StaysAt(o, s, t)
  {
    var u := Last(run);
    AlwaysWithinLimit(o, run);
    CommitsWithinLimit(o, u, t);
    InvariantHolds(o, run);
    CurrentCursor(o, u.lines, u.dir, u.history);
    StepGrows(u, t);
    OverLimitGrows(o, u.lines, t.lines, u.history);
  }

  lemma LastStep(o: Origins, run: seq<System>)
    requires Execution(o, run) && |run| > 1
    ensures Execution(o, run[..|run| - 1]) && Step(Last(run[..|run| - 1]), Last(run))
  {}

  /** Once the committed hierarchy is over the limit, no continuation of the run ever commits anything. */
  lemma {:induction false} OverLimitIsStuck(o: Origins, run: seq<System>, longer: seq<System>)
    requires Execution(o, run) && Execution(o, longer) && run <= longer
    requires OverLimit(o, Last(run).lines, Last(run).history)
    ensures StaysAt(o, Last(run), Last(longer))
    decreases |longer|
  {
    if |longer| == |run| {
      assert longer == run;
    } else {
      var before := longer[..|longer| - 1];
      assert run <= before;
      LastStep(o, longer);
      OverLimitIsStuck(o, run, before);
      StuckStep(o, Last(run), before, Last(longer));
    }
  }

  // ---------- within the limit a batch can be committed ----------

  lemma Extend(o: Origins, run: seq<System>, t: System)
    requires Execution(o, run) && Step(Last(run), t)
    ensures Execution(o, run + [t]) && Last(run + [t]) == t
  {
    assert (run + [t])[..|run|] == run;
  }

  /** The relation ids of the batch fit 64 bits. */
  ghost predicate IdsFitAt(o: Origins, c: Config, lines: seq<Line>, k: nat) {
    Stream.GoodConfig(c) && o.line <= k <= |lines| ==> BASE + |Total(o, c, lines, k).rels| <= WORD
  }

  lemma BatchFits(o: Origins, s: System, b: Batch)
    requires Invariant(o, s) && Pending(o, s.lines, s.history, b)
    requires GoodOptions(b.arguments.options) && !OverLimit(o, s.lines, s.history)
    requires IdsFitAt(o, Settings(b.arguments.options), s.lines, b.to)
    ensures IdsFit(StateIn(s.dir, b), b)
  {
    InitialReads(o, s, b);
    InitialIsCommitted(o, s, b);
    TotalExtends(o, Settings(b.arguments.options), s.lines, b.from, b.to);
  }

  /** The first two steps of a run: it takes the batch and opens the events file. */
  lemma BatchStarts(o: Origins, run: seq<System>, arguments: Arguments, freshId: nat, b: Batch)
      returns (longer: seq<System>)
    requires Execution(o, run) && Last(run).process.Idle? && Fresh(Last(run).dir, b.token)
    requires Prepares(Last(run).dir, Last(run).lines, arguments, b.token, freshId, b)
    ensures Execution(o, longer) && run <= longer && Last(longer).process == Running(b)
    ensures Last(longer).lines == Last(run).lines && Last(longer).history == Last(run).history
    ensures b.token !in Last(longer).dir.manifests
  {
    var s := Last(run);
    var s1 := s.(process := Prepared(b));
    assert Begins(s, s1);
    Extend(o, run, s1);
    var s2 := s1.(dir := s1.dir.(events := s1.dir.events[b.token := []]), process := Running(b));
    assert OpensEvents(s1, s2);
    Extend(o, run + [s1], s2);
    longer := run + [s1] + [s2];
  }

  lemma BatchProduces(o: Origins, run: seq<System>, b: Batch) returns (longer: seq<System>)
    requires Execution(o, run) && Last(run).process == Running(b) && GoodOptions(b.arguments.options)
    requires !OverLimit(o, Last(run).lines, Last(run).history)
    requires IdsFitAt(o, Settings(b.arguments.options), Last(run).lines, b.to)
    ensures Execution(o, longer) && run <= longer && Last(longer).process == Produced(b)
    ensures Last(longer).history == Last(run).history && Last(longer).dir.manifests == Last(run).dir.manifests
  {
    var s := Last(run);
    InvariantHolds(o, run);
    SucceedsExactlyWithinLimit(o, s, b);
    BatchFits(o, s, b);
    var r := Outcome(StateIn(s.dir, b), b.sources, b.arguments.options).value;
    var t := s.(dir := s.dir.(events := s.dir.events[b.token := r.events],
                              states := s.dir.states[b.token := r.state]), process := Produced(b));
    assert ProgramSucceeds(s, t);
    Extend(o, run, t);
    longer := run + [t];
  }

  lemma ManifestPublished(o: Origins, run: seq<System>, b: Batch) returns (longer: seq<System>)
    requires Execution(o, run) && Last(run).process == Produced(b) && b.token !in Last(run).dir.manifests
    ensures Execution(o, longer) && run <= longer
    ensures Last(longer).process == ManifestWritten(b) && Last(longer).history == Last(run).history
  {
    var s := Last(run);
    var s1 := s.(dir := s.dir.(manifests := s.dir.manifests[b.token := Partial]), process := ManifestOpen(b));
    assert OpensManifest(s, s1);
    Extend(o, run, s1);
    var s2 := s1.(dir := s1.dir.(manifests := s1.dir.manifests[b.token := Complete(Commit(b))]),
                  process := ManifestWritten(b));
    assert WritesManifest(s1, s2);
    Extend(o, run + [s1], s2);
    longer := run + [s1] + [s2];
  }

  lemma TemporaryPublished(o: Origins, run: seq<System>, b: Batch) returns (longer: seq<System>)
    requires Execution(o, run) && Last(run).process == ManifestWritten(b)
    ensures Execution(o, longer) && run <= longer && Last(longer).process == TemporaryWritten(b)
    ensures Last(longer).history == Last(run).history
    ensures Last(longer).dir.temporary == Some(Complete(Commit(b)))
  {
    var s := Last(run);
    var s1 := s.(dir := s.dir.(temporary := Some(Partial)), process := TemporaryOpen(b));
    assert OpensTemporary(s, s1);
    Extend(o, run, s1);
    var s2 := s1.(dir := s1.dir.(temporary := Some(Complete(Commit(b)))), process := TemporaryWritten(b));
    assert WritesTemporary(s1, s2);
    Extend(o, run + [s1], s2);
    longer := run + [s1] + [s2];
  }

  lemma CurrentReplaced(o: Origins, run: seq<System>, b: Batch) returns (longer: seq<System>)
    requires Execution(o, run) && Last(run).process == TemporaryWritten(b)
    requires Last(run).dir.temporary == Some(Complete(Commit(b)))
    ensures Execution(o, longer) && run <= longer && Last(longer).process.Idle?
    ensures Last(longer).history == Last(run).history + [LinkOf(b)]
    ensures Last(longer).dir.pointer == Some(Commit(b))
  {
    var s := Last(run);
    var t := s.(dir := s.dir.(pointer := Some(Commit(b)), temporary := None), process := Idle,
                history := s.history + [LinkOf(b)]);
    assert Replaces(s, t);
    Extend(o, run, t);
    longer := run + [t];
  }

  /** From any idle state within the limit, a batch that can be prepared with good options can be committed. */
  lemma BatchCanCommit(o: Origins, run: seq<System>, arguments: Arguments, freshId: nat, b: Batch)
      returns (longer: seq<System>)
    requires Execution(o, run) && Last(run).process.Idle? && Fresh(Last(run).dir, b.token)
    requires Prepares(Last(run).dir, Last(run).lines, arguments, b.token, freshId, b)
    requires GoodOptions(arguments.options) && !OverLimit(o, Last(run).lines, Last(run).history)
    requires IdsFitAt(o, Settings(arguments.options), Last(run).lines, b.to)
    ensures Execution(o, longer) && run <= longer && Last(longer).process.Idle?
    ensures Last(longer).history == Last(run).history + [LinkOf(b)]
    ensures Last(longer).dir.pointer == Some(Commit(b))
  {
    longer := BatchStarts(o, run, arguments, freshId, b);
    longer := BatchProduces(o, longer, b);
    longer := ManifestPublished(o, longer, b);
    longer := TemporaryPublished(o, longer, b);
    longer := CurrentReplaced(o, longer, b);
  }

  /** Some continuation of the run commits something. */
  ghost predicate CanCommit(o: Origins, run: seq<System>)
    requires run != []
  {
    exists longer: seq<System> ::
      Execution(o, longer) && run <= longer && Last(longer).history != Last(run).history
  }

  /** With a batch at hand, the consumer can commit again exactly if the committed hierarchy is within the limit. */
  lemma CanCommitExactlyWithinLimit(o: Origins, run: seq<System>, arguments: Arguments, freshId: nat, b: Batch)
    requires Execution(o, run) && Last(run).process.Idle? && Fresh(Last(run).dir, b.token)
    requires Prepares(Last(run).dir, Last(run).lines, arguments, b.token, freshId, b)
    requires GoodOptions(arguments.options) && IdsFitAt(o, Settings(arguments.options), Last(run).lines, b.to)
    ensures CanCommit(o, run) <==> !OverLimit(o, Last(run).lines, Last(run).history)
  {
    if OverLimit(o, Last(run).lines, Last(run).history) {
      forall longer: seq<System> | Execution(o, longer) && run <= longer
        ensures Last(longer).history == Last(run).history
      {
        OverLimitIsStuck(o, run, longer);
      }
    } else {
      var longer := BatchCanCommit(o, run, arguments, freshId, b);
      assert Execution(o, longer) && run <= longer && Last(longer).history != Last(run).history;
    }
  }

  // ---------- the limit can be reached ----------

  const FROM_NOTHING := Origins(0, [], None)

  function Record(n: nat): Line {
    RawLine(1, Capture(Source("numbers", Growth.Numbers(n))))
  }

  function NewDirectory(n: nat): System {
    System([Record(n)], Directory(map[], map[], map[], None, None), Idle, [])
  }

  function Defaults(): Arguments {
    Arguments("spool", 1, IngestConfig(4, 4, 1, 2))
  }

  function FirstBatch(n: nat): Batch {
    Batch(0, Defaults(), None, Lineage(0, Created), [Record(n).content.source], 0, 1, 1)
  }

  lemma OneRecord(line: Line)
    requires line.content.Capture?
    ensures Selected([line], 0, 1) == Ok(Selection([line.content.source], 1))
    ensures Offset([line], 1) == line.length
  {
    var rest := Selected([line], 1, 0);
    assert rest == Ok(Selection([], 1));
    assert [line.content.source] + [] == [line.content.source];
    assert Offset([line], 1) == Offset([line], 0) + [line][0].length;
  }

  lemma FirstPrepares(n: nat)
    ensures Init(FROM_NOTHING, NewDirectory(n))
    ensures Prepares(NewDirectory(n).dir, NewDirectory(n).lines, Defaults(), 0, 0, FirstBatch(n))
  {
    OneRecord(Record(n));
  }

  lemma FirstTotal(n: nat)
    requires n <= Pow256(4)
    ensures Settings(Defaults().options) == Growth.FOURS
    ensures n <= |Total(FROM_NOTHING, Growth.FOURS, [Record(n)], 1).rels| <= 4 * n
  {
    var source := Record(n).content.source;
    assert Between([Record(n)], 0, 1) == [source] by {
      OneLine([Record(n)], 0);
    }
    FoldPush(IngestStep(Growth.FOURS), [], [], source);
    Growth.NumbersCost(source.id, n);
  }

  /**
    From an empty directory and a spool with one record, the numbers below `n` in four bytes each, windows of four
    bytes and two layers lead past the limit, for every `n` above it.
  */
  lemma LimitIsReached(n: nat) returns (run: seq<System>)
    requires MAX_RELATIONS < n <= Pow256(4)
    ensures Execution(FROM_NOTHING, run) && run[0] == NewDirectory(n)
    ensures OverLimit(FROM_NOTHING, Last(run).lines, Last(run).history)
  {
    var o, s, b := FROM_NOTHING, NewDirectory(n), FirstBatch(n);
    FirstPrepares(n);
    FirstTotal(n);
    Pow256Values();
    assert [s][..0] == [];
    run := BatchCanCommit(o, [s], Defaults(), 0, b);
    CommitsOnlyGrow(o, run, 0);
    assert Last(run).history == [LinkOf(b)];
    TotalStable(o, Growth.FOURS, s.lines, Last(run).lines, 1);
  }
}
