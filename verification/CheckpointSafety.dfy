/**
  What every run of the checkpointing consumer keeps: current.json names existing files, the committed manifests
  cover the spool without gap or overlap, and the committed output is that of one uninterrupted run.
*/
module CheckpointSafety {
  import opened Words
  import opened Common
  import opened HierarchicalMemory
  import Stream = StructuralStream
  import opened StructuralFileIngest
  import opened HierarchicalPersistence
  import opened StructuralIngest
  import opened Spool
  import opened Checkpoints

  // ---------- one uninterrupted run ----------

  /** What one uninterrupted process makes of the lines from the beginning up to line `k`. */
  ghost function Total(o: Origins, c: Config, lines: seq<Line>, k: nat): Stream.Ingested
    requires Stream.GoodConfig(c) && o.line <= k <= |lines|
  {
    IngestAll(c, o.rels, Between(lines, o.line, k))
  }

  lemma TotalExtends(o: Origins, c: Config, lines: seq<Line>, j: nat, k: nat)
    requires Stream.GoodConfig(c) && o.line <= j <= k <= |lines|
    ensures Total(o, c, lines, k)
         == Then(Total(o, c, lines, j), IngestAll(c, Total(o, c, lines, j).rels, Between(lines, j, k)))
  {
    BetweenConcat(lines, o.line, j, k);
    IngestConcat(c, o.rels, Between(lines, o.line, j), Between(lines, j, k));
  }

  lemma TotalStable(o: Origins, c: Config, lines: seq<Line>, longer: seq<Line>, k: nat)
    requires Stream.GoodConfig(c) && o.line <= k <= |lines| && lines <= longer
    ensures Total(o, c, longer, k) == Total(o, c, lines, k)
  {
    BetweenStable(lines, longer, o.line, k);
  }

  // ---------- the chain of committed manifests ----------

  ghost function LineOf(o: Origins, history: seq<Link>): nat {
    if history == [] then o.line else history[|history| - 1].line
  }

  /** The checkpoint that current.json names after the commits. */
  ghost function Current(o: Origins, history: seq<Link>): Option<Manifest> {
    if history == [] then o.pointer else Some(history[|history| - 1].manifest)
  }

  /** A committed configuration is one the batch program accepts. */
  ghost predicate GoodManifest(m: Manifest) {
    && m.schema.CheckpointV2? && m.hierarchyId.Some? && m.origin.Some? && m.config.Some?
    && Stream.GoodConfig(m.config.value) && m.config.value.layers <= MAX_LAYERS
    && m.eventsFile.Some? && m.checkpointFile.Some? && m.spool.Some?
  }

  /** A manifest begins where the one before it ends, names it, and keeps its hierarchy, configuration and spool. */
  ghost predicate Follows(o: Origins, lines: seq<Line>, before: seq<Link>, link: Link) {
    && GoodManifest(link.manifest)
    && o.line <= LineOf(o, before) < link.line <= |lines|
    && link.manifest.previousCursor == Offset(lines, LineOf(o, before))
    && link.manifest.cursor == Offset(lines, link.line)
    && link.manifest.recordCount == |Between(lines, LineOf(o, before), link.line)| > 0
    && NamesPrevious(Current(o, before), link.manifest)
    && NoneInvalid(lines, LineOf(o, before), link.line)
    && (before == [] ==> link.manifest.origin == Some(FirstOrigin(o)))
    && (before != [] ==> SameLineage(before[|before| - 1].manifest, link.manifest))
  }

  /** A hierarchy is created in a new directory and adopted from an older checkpoint. */
  ghost function FirstOrigin(o: Origins): Origin {
    if o.pointer.None? then Created else LegacyAdopted
  }

  ghost predicate NamesPrevious(previous: Option<Manifest>, m: Manifest) {
    match previous
    case None => m.previousState.None? && m.previousCheckpoint.None?
    case Some(p) => m.previousState == Some(p.stateFile) && m.previousCheckpoint == p.checkpointFile
  }

  ghost predicate SameLineage(p: Manifest, m: Manifest) {
    m.hierarchyId == p.hierarchyId && m.origin == p.origin && m.config == p.config && m.spool == p.spool
  }

  /** The files of a batch hold the hierarchy after line `k` and the events from line `j` up to there. */
  ghost predicate Holds(o: Origins, c: Config, lines: seq<Line>, dir: Directory, token: Token, j: nat, k: nat)
    requires Stream.GoodConfig(c) && o.line <= j <= k <= |lines|
  {
    && token in dir.states && dir.states[token] == Saved(Total(o, c, lines, k).rels)
    && token in dir.events && Total(o, c, lines, k).events == Total(o, c, lines, j).events + dir.events[token]
    && BASE + |Total(o, c, lines, k).rels| <= WORD
  }

  /** The three files of a committed manifest. */
  ghost predicate Stored(o: Origins, lines: seq<Line>, dir: Directory, before: seq<Link>, link: Link)
    requires Follows(o, lines, before, link)
  {
    var m := link.manifest;
    && m.eventsFile == Some(m.stateFile) && m.checkpointFile == Some(m.stateFile)
    && m.stateFile in dir.manifests && dir.manifests[m.stateFile] == Complete(m)
    && Holds(o, m.config.value, lines, dir, m.stateFile, LineOf(o, before), link.line)
  }

  ghost predicate Chained(o: Origins, lines: seq<Line>, dir: Directory, history: seq<Link>) {
    history == []
    || (var before, link := history[..|history| - 1], history[|history| - 1];
        && Chained(o, lines, dir, before)
        && Follows(o, lines, before, link) && Stored(o, lines, dir, before, link))
  }

  ghost predicate Unused(o: Origins, history: seq<Link>, token: Token) {
    && (forall i :: 0 <= i < |history| ==> history[i].manifest.stateFile != token)
    && (o.pointer.Some? ==> o.pointer.value.stateFile != token && o.pointer.value.eventsFile != Some(token))
  }

  // ---------- what other files and lines cannot change ----------

  /** The directories differ at most in the files of `token`, the temporary file and the pointer. */
  ghost predicate OnlyToken(dir: Directory, dir': Directory, token: Token) {
    && (forall k: Token :: k != token ==> SameFiles(dir, dir', k))
  }

  ghost predicate SameFiles(dir: Directory, dir': Directory, k: Token) {
    && (k in dir'.states <==> k in dir.states) && (k in dir.states ==> dir'.states[k] == dir.states[k])
    && (k in dir'.events <==> k in dir.events) && (k in dir.events ==> dir'.events[k] == dir.events[k])
    && (k in dir'.manifests <==> k in dir.manifests)
    && (k in dir.manifests ==> dir'.manifests[k] == dir.manifests[k])
  }

  lemma {:induction false} ChainedStable(o: Origins, lines: seq<Line>, dir: Directory, dir': Directory,
                                         history: seq<Link>, token: Token)
    requires Chained(o, lines, dir, history) && OnlyToken(dir, dir', token) && Unused(o, history, token)
    ensures Chained(o, lines, dir', history)
  {
    if history != [] {
      var before, link := history[..|history| - 1], history[|history| - 1];
      assert forall i :: 0 <= i < |before| ==> before[i] == history[i];
      ChainedStable(o, lines, dir, dir', before, token);
      assert link.manifest.stateFile != token;
      assert SameFiles(dir, dir', link.manifest.stateFile);
    }
  }

  lemma OriginsStable(o: Origins, dir: Directory, dir': Directory, history: seq<Link>, token: Token)
    requires OriginsStored(o, dir) && OnlyToken(dir, dir', token) && Unused(o, history, token)
    ensures OriginsStored(o, dir')
  {
    if o.pointer.Some? {
      assert SameFiles(dir, dir', o.pointer.value.stateFile);
      if o.pointer.value.eventsFile.Some? {
        assert SameFiles(dir, dir', o.pointer.value.eventsFile.value);
      }
    }
  }

  lemma HoldsStable(o: Origins, c: Config, lines: seq<Line>, longer: seq<Line>, dir: Directory, token: Token,
                    j: nat, k: nat)
    requires Stream.GoodConfig(c) && o.line <= j <= k <= |lines| && lines <= longer
    requires Holds(o, c, lines, dir, token, j, k)
    ensures Holds(o, c, longer, dir, token, j, k)
  {
    TotalStable(o, c, lines, longer, j);
    TotalStable(o, c, lines, longer, k);
  }

  lemma {:induction false} ChainedGrows(o: Origins, lines: seq<Line>, longer: seq<Line>, dir: Directory,
                                        history: seq<Link>)
    requires Chained(o, lines, dir, history) && lines <= longer
    ensures Chained(o, longer, dir, history)
  {
    if history != [] {
      var before, link := history[..|history| - 1], history[|history| - 1];
      ChainedGrows(o, lines, longer, dir, before);
      FollowsGrows(o, lines, longer, before, link);
      HoldsStable(o, link.manifest.config.value, lines, longer, dir, link.manifest.stateFile,
                  LineOf(o, before), link.line);
    }
  }

  lemma FollowsGrows(o: Origins, lines: seq<Line>, longer: seq<Line>, before: seq<Link>, link: Link)
    requires Follows(o, lines, before, link) && lines <= longer
    ensures Follows(o, longer, before, link)
  {
    OffsetStable(lines, longer, LineOf(o, before));
    OffsetStable(lines, longer, link.line);
    BetweenStable(lines, longer, LineOf(o, before), link.line);
  }

  // ---------- the state of a run in progress ----------

  /** The link that committing the batch would add. */
  ghost function LinkOf(b: Batch): Link {
    Link(Commit(b), b.to)
  }

  /** The batch continues the committed chain, with tokens of its own. */
  ghost predicate Pending(o: Origins, lines: seq<Line>, history: seq<Link>, b: Batch) {
    && b.previous == Current(o, history) && b.from == LineOf(o, history)
    && b.from < b.to <= |lines| && o.line <= b.from
    && Offset(lines, b.from) == Cursor(b.previous) && b.cursor == Offset(lines, b.to)
    && b.sources == Between(lines, b.from, b.to) && b.sources != []
    && Unused(o, history, b.token)
    && NoneInvalid(lines, b.from, b.to)
    && (history == [] ==> b.lineage.origin == FirstOrigin(o))
    && (history != [] ==> SameLineage(history[|history| - 1].manifest, Commit(b)))
  }

  /** Its output is complete. */
  ghost predicate Finished(o: Origins, lines: seq<Line>, dir: Directory, b: Batch)
    requires o.line <= b.from <= b.to <= |lines|
  {
    && GoodOptions(b.arguments.options)
    && Holds(o, Settings(b.arguments.options), lines, dir, b.token, b.from, b.to)
  }

  ghost predicate ManifestComplete(dir: Directory, b: Batch) {
    b.token in dir.manifests && dir.manifests[b.token] == Complete(Commit(b))
  }

  ghost predicate ProcessOk(o: Origins, s: System) {
    s.process.Idle?
    || (var b := s.process.batch;
        && Pending(o, s.lines, s.history, b)
        && (s.process.Produced? || s.process.ManifestOpen? ==> Finished(o, s.lines, s.dir, b))
        && (s.process.ManifestWritten? || s.process.TemporaryOpen? || s.process.TemporaryWritten? ==>
              Finished(o, s.lines, s.dir, b) && ManifestComplete(s.dir, b))
        && (s.process.TemporaryWritten? ==> s.dir.temporary == Some(Complete(Commit(b)))))
  }

  ghost predicate Invariant(o: Origins, s: System) {
    && OriginsOk(o, s.lines) && OriginsStored(o, s.dir)
    && Chained(o, s.lines, s.dir, s.history)
    && s.dir.pointer == Current(o, s.history)
    && ProcessOk(o, s)
  }

  // ---------- facts about the chain ----------

  lemma {:induction false} ChainedTokens(o: Origins, lines: seq<Line>, dir: Directory, history: seq<Link>, i: nat)
    requires Chained(o, lines, dir, history) && i < |history|
    ensures history[i].manifest.stateFile in dir.states
  {
    if i < |history| - 1 {
      ChainedTokens(o, lines, dir, history[..|history| - 1], i);
    }
  }

  lemma FreshIsUnused(o: Origins, lines: seq<Line>, dir: Directory, history: seq<Link>, token: Token)
    requires Chained(o, lines, dir, history) && OriginsStored(o, dir) && Fresh(dir, token)
    ensures Unused(o, history, token)
  {
    forall i | 0 <= i < |history|
      ensures history[i].manifest.stateFile != token
    {
      ChainedTokens(o, lines, dir, history, i);
    }
  }

  lemma CurrentCursor(o: Origins, lines: seq<Line>, dir: Directory, history: seq<Link>)
    requires OriginsOk(o, lines) && Chained(o, lines, dir, history)
    ensures o.line <= LineOf(o, history) <= |lines|
    ensures Offset(lines, LineOf(o, history)) == Cursor(Current(o, history))
  {}

  lemma OffsetInjective(lines: seq<Line>, j: nat, k: nat)
    requires j <= |lines| && k <= |lines| && Offset(lines, j) == Offset(lines, k)
    ensures j == k
  {
    if j < k {
      OffsetGrows(lines, j, k);
    } else if k < j {
      OffsetGrows(lines, k, j);
    }
  }

  // ---------- every step keeps the invariant ----------

  lemma InitHolds(o: Origins, s: System)
    requires Init(o, s)
    ensures Invariant(o, s)
  {}

  lemma PendingGrows(o: Origins, lines: seq<Line>, longer: seq<Line>, history: seq<Link>, b: Batch)
    requires Pending(o, lines, history, b) && lines <= longer
    ensures Pending(o, longer, history, b)
  {
    OffsetStable(lines, longer, b.from);
    OffsetStable(lines, longer, b.to);
    BetweenStable(lines, longer, b.from, b.to);
  }

  lemma SpoolGrowsKeeps(o: Origins, s: System, t: System)
    requires Invariant(o, s) && SpoolGrows(s, t)
    ensures Invariant(o, t)
  {
    assert s.lines <= t.lines;
    OffsetStable(s.lines, t.lines, o.line);
    ChainedGrows(o, s.lines, t.lines, s.dir, s.history);
    if !s.process.Idle? {
      var b := s.process.batch;
      PendingGrows(o, s.lines, t.lines, s.history, b);
      if Finished(o, s.lines, s.dir, b) {
        HoldsStable(o, Settings(b.arguments.options), s.lines, t.lines, s.dir, b.token, b.from, b.to);
      }
    }
  }

  /** A prepared batch starts exactly where the committed chain ends. */
  lemma BeginsPending(o: Origins, s: System, arguments: Arguments, token: Token, freshId: nat, b: Batch)
    requires Invariant(o, s) && Prepares(s.dir, s.lines, arguments, token, freshId, b) && Fresh(s.dir, b.token)
    ensures Pending(o, s.lines, s.history, b)
  {
    FreshIsUnused(o, s.lines, s.dir, s.history, b.token);
    CurrentCursor(o, s.lines, s.dir, s.history);
    OffsetInjective(s.lines, b.from, LineOf(o, s.history));
    SelectionIsExact(s.lines, b.from, arguments.maxRecords);
    SelectionFailsExactly(s.lines, b.from, arguments.maxRecords);
    if b.from == b.to {
      NoSources(s.lines, b.from);
    }
    BeginsLineage(o, s, arguments, token, freshId, b);
  }

  lemma NoSources(lines: seq<Line>, k: nat)
    requires k <= |lines|
    ensures Between(lines, k, k) == []
  {}

  lemma BeginsLineage(o: Origins, s: System, arguments: Arguments, token: Token, freshId: nat, b: Batch)
    requires Invariant(o, s) && Prepares(s.dir, s.lines, arguments, token, freshId, b)
    ensures s.history == [] ==> b.lineage.origin == FirstOrigin(o)
    ensures s.history != [] ==> SameLineage(s.history[|s.history| - 1].manifest, Commit(b))
  {
    CurrentIsReadable(o, s);
    if s.history != [] {
      var before, link := s.history[..|s.history| - 1], s.history[|s.history| - 1];
      assert Follows(o, s.lines, before, link);
      ResolvedAgain(link.manifest, b, freshId);
    } else {
      ResolvedFirst(o, b, freshId);
    }
  }

  lemma ResolvedAgain(m: Manifest, b: Batch, freshId: nat)
    requires GoodManifest(m) && b.previous == Some(m) && m.spool.value == b.arguments.spool
    requires ResolveLineage(b.previous, Settings(b.arguments.options), freshId) == Ok(b.lineage)
    ensures SameLineage(m, Commit(b))
  {}

  lemma ResolvedFirst(o: Origins, b: Batch, freshId: nat)
    requires b.previous == o.pointer && (o.pointer.Some? ==> o.pointer.value.hierarchyId.None?)
    requires ResolveLineage(b.previous, Settings(b.arguments.options), freshId) == Ok(b.lineage)
    ensures b.lineage.origin == FirstOrigin(o)
  {}

  lemma BeginsKeeps(o: Origins, s: System, t: System)
    requires Invariant(o, s) && Begins(s, t)
    ensures Invariant(o, t)
  {
    var b := t.process.batch;
    var arguments, freshId :| Prepares(s.dir, s.lines, arguments, b.token, freshId, b);
    BeginsPending(o, s, arguments, b.token, freshId, b);
  }

  /** A step that touches only the files of the batch keeps everything committed. */
  lemma OwnFilesKeep(o: Origins, s: System, t: System, b: Batch)
    requires Invariant(o, s) && !s.process.Idle? && s.process.batch == b
    requires t.lines == s.lines && t.history == s.history && t.dir.pointer == s.dir.pointer
    requires OnlyToken(s.dir, t.dir, b.token) && ProcessOk(o, t)
    ensures Invariant(o, t)
  {
    ChainedStable(o, s.lines, s.dir, t.dir, s.history, b.token);
    OriginsStable(o, s.dir, t.dir, s.history, b.token);
  }

  lemma OpensEventsKeeps(o: Origins, s: System, t: System)
    requires Invariant(o, s) && OpensEvents(s, t)
    ensures Invariant(o, t)
  {
    forall k: Token | k != s.process.batch.token
      ensures SameFiles(s.dir, t.dir, k)
    {}
    OwnFilesKeep(o, s, t, s.process.batch);
  }

  lemma ProgramWritesKeeps(o: Origins, s: System, t: System)
    requires Invariant(o, s) && ProgramWrites(s, t)
    ensures Invariant(o, t)
  {
    var b := s.process.batch;
    forall k: Token | k != b.token
      ensures SameFiles(s.dir, t.dir, k)
    {
      SameElsewhere(s.dir.events, t.dir.events, b.token, k);
      SameElsewhere(s.dir.states, t.dir.states, b.token, k);
    }
    OwnFilesKeep(o, s, t, b);
  }

  lemma SameElsewhere<T>(m: map<Token, T>, n: map<Token, T>, token: Token, k: Token)
    requires n - {token} == m - {token} && k != token
    ensures (k in n <==> k in m) && (k in m ==> n[k] == m[k])
  {
    assert k in n <==> k in n - {token};
    assert k in n ==> (n - {token})[k] == n[k];
    assert k in m <==> k in m - {token};
    assert k in m ==> (m - {token})[k] == m[k];
  }

  lemma ProgramFailsKeeps(o: Origins, s: System, t: System)
    requires Invariant(o, s) && ProgramFails(s, t)
    ensures Invariant(o, t)
  {}

  lemma RemovesStateKeeps(o: Origins, s: System, t: System)
    requires Invariant(o, s) && RemovesState(s, t)
    ensures Invariant(o, t)
  {
    forall k: Token | k != s.process.batch.token
      ensures SameFiles(s.dir, t.dir, k)
    {}
    OwnFilesKeep(o, s, t, s.process.batch);
  }

  lemma RemovesEventsKeeps(o: Origins, s: System, t: System)
    requires Invariant(o, s) && RemovesEvents(s, t)
    ensures Invariant(o, t)
  {
    forall k: Token | k != s.process.batch.token
      ensures SameFiles(s.dir, t.dir, k)
    {}
    OwnFilesKeep(o, s, t, s.process.batch);
  }

  /** The program continues with the relations of the committed state. */
  lemma InitialIsCommitted(o: Origins, s: System, b: Batch)
    requires Invariant(o, s) && Pending(o, s.lines, s.history, b)
    requires GoodOptions(b.arguments.options) && Initial(StateIn(s.dir, b)).Ok?
    ensures Initial(StateIn(s.dir, b)).value
         == Total(o, Settings(b.arguments.options), s.lines, b.from).rels
  {
    var c := Settings(b.arguments.options);
    if s.history == [] {
      NoSources(s.lines, o.line);
      assert Total(o, c, s.lines, o.line) == Stream.Ingested([], o.rels);
    } else {
      var before, link := s.history[..|s.history| - 1], s.history[|s.history| - 1];
      assert Follows(o, s.lines, before, link) && Stored(o, s.lines, s.dir, before, link);
      assert link.manifest.config == Some(c) && link.line == b.from;
      IngestDurable(c, o.rels, Between(s.lines, o.line, b.from));
      DurableLoads(Total(o, c, s.lines, b.from).rels);
    }
  }

  lemma ProgramSucceedsKeeps(o: Origins, s: System, t: System)
    requires Invariant(o, s) && ProgramSucceeds(s, t)
    ensures Invariant(o, t)
  {
    var b := s.process.batch;
    var c := Settings(b.arguments.options);
    InitialIsCommitted(o, s, b);
    TotalExtends(o, c, s.lines, b.from, b.to);
    assert Finished(o, t.lines, t.dir, b);
    forall k: Token | k != b.token
      ensures SameFiles(s.dir, t.dir, k)
    {}
    OwnFilesKeep(o, s, t, b);
  }

  lemma OpensManifestKeeps(o: Origins, s: System, t: System)
    requires Invariant(o, s) && OpensManifest(s, t)
    ensures Invariant(o, t)
  {
    var b := s.process.batch;
    ManifestIsOwn(s.dir, t.dir, b.token);
    FinishedStays(o, s.lines, s.dir, t.dir, b);
    OwnFilesKeep(o, s, t, b);
  }

  lemma WritesManifestKeeps(o: Origins, s: System, t: System)
    requires Invariant(o, s) && WritesManifest(s, t)
    ensures Invariant(o, t)
  {
    var b := s.process.batch;
    ManifestIsOwn(s.dir, t.dir, b.token);
    FinishedStays(o, s.lines, s.dir, t.dir, b);
    OwnFilesKeep(o, s, t, b);
  }

  lemma ManifestIsOwn(dir: Directory, dir': Directory, token: Token)
    requires dir'.states == dir.states && dir'.events == dir.events && token in dir'.manifests
    requires dir'.manifests == dir.manifests[token := dir'.manifests[token]]
    ensures OnlyToken(dir, dir', token)
  {
    forall k: Token | k != token
      ensures SameFiles(dir, dir', k)
    {}
  }

  lemma TemporaryKeeps(o: Origins, s: System, t: System)
    requires Invariant(o, s) && (OpensTemporary(s, t) || WritesTemporary(s, t))
    ensures Invariant(o, t)
  {
    var b := s.process.batch;
    ChainedSameFiles(o, s.lines, s.dir, t.dir, s.history);
    FinishedStays(o, s.lines, s.dir, t.dir, b);
  }

  lemma FinishedStays(o: Origins, lines: seq<Line>, dir: Directory, dir': Directory, b: Batch)
    requires o.line <= b.from <= b.to <= |lines| && Finished(o, lines, dir, b)
    requires dir'.states == dir.states && dir'.events == dir.events
    ensures Finished(o, lines, dir', b)
  {}

  lemma CommitFollows(o: Origins, lines: seq<Line>, dir: Directory, history: seq<Link>, b: Batch)
    requires Pending(o, lines, history, b) && Finished(o, lines, dir, b) && ManifestComplete(dir, b)
    ensures Follows(o, lines, history, LinkOf(b)) && Stored(o, lines, dir, history, LinkOf(b))
  {}

  lemma ReplacesKeeps(o: Origins, s: System, t: System)
    requires Invariant(o, s) && Replaces(s, t)
    ensures Invariant(o, t)
  {
    var b := s.process.batch;
    CommitFollows(o, s.lines, s.dir, s.history, b);
    assert t.history == s.history + [LinkOf(b)];
    assert t.history[..|t.history| - 1] == s.history;
    ChainedSameFiles(o, s.lines, s.dir, t.dir, s.history);
  }

  lemma {:induction false} ChainedSameFiles(o: Origins, lines: seq<Line>, dir: Directory, dir': Directory,
                                            history: seq<Link>)
    requires Chained(o, lines, dir, history)
    requires dir'.states == dir.states && dir'.events == dir.events && dir'.manifests == dir.manifests
    ensures Chained(o, lines, dir', history)
  {
    if history != [] {
      ChainedSameFiles(o, lines, dir, dir', history[..|history| - 1]);
    }
  }

  lemma StepKeeps(o: Origins, s: System, t: System)
    requires Invariant(o, s) && Step(s, t)
    ensures Invariant(o, t)
  {
    if SpoolGrows(s, t) {
      SpoolGrowsKeeps(o, s, t);
    } else if Begins(s, t) {
      BeginsKeeps(o, s, t);
    } else if OpensEvents(s, t) {
      OpensEventsKeeps(o, s, t);
    } else if ProgramWrites(s, t) {
      ProgramWritesKeeps(o, s, t);
    } else if ProgramFails(s, t) {
      ProgramFailsKeeps(o, s, t);
    } else if RemovesState(s, t) {
      RemovesStateKeeps(o, s, t);
    } else if RemovesEvents(s, t) {
      RemovesEventsKeeps(o, s, t);
    } else if ProgramSucceeds(s, t) {
      ProgramSucceedsKeeps(o, s, t);
    } else if OpensManifest(s, t) {
      OpensManifestKeeps(o, s, t);
    } else if WritesManifest(s, t) {
      WritesManifestKeeps(o, s, t);
    } else if OpensTemporary(s, t) || WritesTemporary(s, t) {
      TemporaryKeeps(o, s, t);
    } else if Replaces(s, t) {
      ReplacesKeeps(o, s, t);
    }
  }

  /** Where a run has got to. */
  ghost function Last(run: seq<System>): System
    requires run != []
  {
    run[|run| - 1]
  }

  /** The invariant holds in every state of every run. */
  lemma {:induction false} InvariantHolds(o: Origins, run: seq<System>)
    requires Execution(o, run)
    ensures Invariant(o, Last(run))
  {
    if |run| == 1 {
      InitHolds(o, run[0]);
    } else {
      InvariantHolds(o, run[..|run| - 1]);
      StepKeeps(o, run[|run| - 2], run[|run| - 1]);
    }
  }

  // ---------- what follows for every run ----------

  /** The checkpoint can always be read: current.json names an existing state file and an existing events file. */
  lemma CurrentNamesFiles(o: Origins, run: seq<System>)
    requires Execution(o, run)
    ensures LoadCheckpoint(Last(run).dir) == Ok(Last(run).dir.pointer)
    ensures Last(run).dir.pointer.Some? ==>
      var m := Last(run).dir.pointer.value;
      && m.stateFile in Last(run).dir.states
      && (m.eventsFile.Some? ==> m.eventsFile.value in Last(run).dir.events)
  {
    InvariantHolds(o, run);
    CurrentIsReadable(o, Last(run));
  }

  lemma CurrentIsReadable(o: Origins, s: System)
    requires Invariant(o, s)
    ensures LoadCheckpoint(s.dir) == Ok(s.dir.pointer)
  {}

  /** What links `i` and the one before it say about each other. */
  ghost predicate Covers(o: Origins, lines: seq<Line>, history: seq<Link>, i: nat)
    requires i < |history| && o.line <= |lines|
  {
    var m := history[i].manifest;
    && m.previousCursor < m.cursor
    && m.previousCursor == (if i == 0 then Offset(lines, o.line) else history[i - 1].manifest.cursor)
    && m.previousState == (if i > 0 then Some(history[i - 1].manifest.stateFile)
                           else if o.pointer.Some? then Some(o.pointer.value.stateFile) else None)
    && (i > 0 ==> m.previousCheckpoint == history[i - 1].manifest.checkpointFile)
    && (i == 0 ==> m.origin == Some(FirstOrigin(o)))
    && (i > 0 ==> SameLineage(history[i - 1].manifest, m))
  }

  lemma CoversPrefix(o: Origins, lines: seq<Line>, before: seq<Link>, history: seq<Link>, i: nat)
    requires before <= history && i < |before| && o.line <= |lines| && Covers(o, lines, before, i)
    ensures Covers(o, lines, history, i)
  {
    assert history[i] == before[i];
    if i > 0 {
      assert history[i - 1] == before[i - 1];
    }
  }

  lemma LastCovers(o: Origins, lines: seq<Line>, dir: Directory, history: seq<Link>)
    requires Chained(o, lines, dir, history) && history != [] && o.line <= |lines|
    ensures Covers(o, lines, history, |history| - 1)
  {
    var before, link := history[..|history| - 1], history[|history| - 1];
    OffsetGrows(lines, LineOf(o, before), link.line);
    if before != [] {
      assert before[|before| - 1] == history[|history| - 2];
      LastCursor(o, lines, dir, before);
    }
  }

  lemma LastCursor(o: Origins, lines: seq<Line>, dir: Directory, history: seq<Link>)
    requires Chained(o, lines, dir, history) && history != []
    ensures LineOf(o, history) <= |lines|
    ensures history[|history| - 1].manifest.cursor == Offset(lines, LineOf(o, history))
  {}

  lemma {:induction false} ChainCovers(o: Origins, lines: seq<Line>, dir: Directory, history: seq<Link>, i: nat)
    requires Chained(o, lines, dir, history) && i < |history| && o.line <= |lines|
    ensures Covers(o, lines, history, i)
  {
    if i < |history| - 1 {
      ChainCovers(o, lines, dir, history[..|history| - 1], i);
      CoversPrefix(o, lines, history[..|history| - 1], history, i);
    } else {
      LastCovers(o, lines, dir, history);
    }
  }

  /** The manifest of link `i` is stored complete under its own name. */
  ghost predicate ManifestStored(dir: Directory, m: Manifest) {
    && m.checkpointFile == Some(m.stateFile)
    && m.stateFile in dir.manifests && dir.manifests[m.stateFile] == Complete(m)
  }

  lemma {:induction false} ManifestsStored(o: Origins, lines: seq<Line>, dir: Directory, history: seq<Link>, i: nat)
    requires Chained(o, lines, dir, history) && i < |history|
    ensures ManifestStored(dir, history[i].manifest)
  {
    if i < |history| - 1 {
      ManifestsStored(o, lines, dir, history[..|history| - 1], i);
    }
  }

  /** Commit `j` of a state: its place in the chain, its stored manifest, and the pointer to the last one. */
  ghost predicate CommitCovers(o: Origins, s: System, j: nat)
    requires j < |s.history|
  {
    && o.line <= |s.lines| && Covers(o, s.lines, s.history, j)
    && ManifestStored(s.dir, s.history[j].manifest)
    && s.dir.pointer == Some(s.history[|s.history| - 1].manifest)
  }

  lemma InvariantCovers(o: Origins, s: System, j: nat)
    requires Invariant(o, s) && j < |s.history|
    ensures CommitCovers(o, s, j)
  {
    ChainCovers(o, s.lines, s.dir, s.history, j);
    ManifestsStored(o, s.lines, s.dir, s.history, j);
  }

  /**
    In every state of every run, the committed manifests, each stored complete, cover the spool from the first
    cursor to the current one without gap or overlap.
  */
  lemma CommittedCoversSpool(o: Origins, run: seq<System>, j: nat)
    requires Execution(o, run) && j < |Last(run).history|
    ensures CommitCovers(o, Last(run), j)
  {
    InvariantHolds(o, run);
    InvariantCovers(o, Last(run), j);
  }

  /** The hierarchy, its origin, its configuration and its spool never change along the chain. */
  lemma LineageIsConstant(o: Origins, run: seq<System>, i: nat)
    requires Execution(o, run) && i < |Last(run).history|
    ensures SameLineage(Last(run).history[0].manifest, Last(run).history[i].manifest)
    ensures Last(run).history[0].manifest.origin == Some(FirstOrigin(o))
  {
    var history := Last(run).history;
    InvariantHolds(o, run);
    InvariantCovers(o, Last(run), 0);
    forall k | 0 < k < |history|
      ensures Inherits(history, k)
    {
      InvariantCovers(o, Last(run), k);
    }
    Inherited(history, i);
  }

  ghost predicate Inherits(history: seq<Link>, k: nat)
    requires 0 < k < |history|
  {
    SameLineage(history[k - 1].manifest, history[k].manifest)
  }

  lemma {:induction false} Inherited(history: seq<Link>, i: nat)
    requires i < |history| && forall k :: 0 < k < |history| ==> Inherits(history, k)
    ensures SameLineage(history[0].manifest, history[i].manifest)
  {
    if i > 0 {
      Inherited(history, i - 1);
      assert Inherits(history, i);
      LineagePasses(history[0].manifest, history[i - 1].manifest, history[i].manifest);
    }
  }

  lemma LineagePasses(a: Manifest, b: Manifest, c: Manifest)
    requires SameLineage(a, b) && SameLineage(b, c)
    ensures SameLineage(a, c)
  {}

  /** The events files of the chain, one after the other. */
  ghost function CommittedEvents(dir: Directory, history: seq<Link>): seq<StructuralEvent> {
    if history == [] then []
    else
      CommittedEvents(dir, history[..|history| - 1])
      + var k := history[|history| - 1].manifest.stateFile; if k in dir.events then dir.events[k] else []
  }

  lemma {:induction false} CommittedIsTotal(o: Origins, lines: seq<Line>, dir: Directory, history: seq<Link>)
    requires OriginsOk(o, lines) && Chained(o, lines, dir, history) && history != []
    ensures var link := history[|history| - 1];
            && GoodManifest(link.manifest) && o.line <= link.line <= |lines|
            && var total := Total(o, link.manifest.config.value, lines, link.line);
               && CommittedEvents(dir, history) == total.events
               && link.manifest.stateFile in dir.states
               && dir.states[link.manifest.stateFile] == Saved(total.rels)
  {
    var before, link := history[..|history| - 1], history[|history| - 1];
    if before == [] {
      NoSources(lines, o.line);
    } else {
      CommittedIsTotal(o, lines, dir, before);
    }
  }

  /**
    Exactly once: in every state of every run, however the records were divided into batches and wherever the
    process crashed, the committed events and the committed hierarchy are those of one uninterrupted run over
    the records up to the committed cursor.
  */
  lemma ExactlyOnce(o: Origins, run: seq<System>)
    requires Execution(o, run) && Last(run).history != []
    ensures Uninterrupted(o, Last(run))
  {
    InvariantHolds(o, run);
    CommittedIsTotal(o, Last(run).lines, Last(run).dir, Last(run).history);
  }

  /** What is committed is what one process makes of the spool from its first cursor to the committed one. */
  ghost predicate Uninterrupted(o: Origins, s: System)
    requires s.history != []
  {
    var link := s.history[|s.history| - 1];
    && s.dir.pointer == Some(link.manifest)
    && link.manifest.config.Some? && Stream.GoodConfig(link.manifest.config.value)
    && o.line <= link.line <= |s.lines| && link.manifest.cursor == Offset(s.lines, link.line)
    && var whole := IngestAll(link.manifest.config.value, o.rels, Between(s.lines, o.line, link.line));
       && CommittedEvents(s.dir, s.history) == whole.events
       && link.manifest.stateFile in s.dir.states
       && s.dir.states[link.manifest.stateFile] == Saved(whole.rels)
  }

  /** Nothing committed is ever lost or changed. */
  lemma {:induction false} CommitsOnlyGrow(o: Origins, run: seq<System>, i: nat)
    requires Execution(o, run) && i < |run|
    ensures run[i].history <= Last(run).history && run[i].lines <= Last(run).lines
    decreases |run|
  {
    if i < |run| - 1 {
      var before := run[..|run| - 1];
      CommitsOnlyGrow(o, before, i);
      StepGrows(Last(before), Last(run));
    }
  }

  lemma StepGrows(s: System, t: System)
    requires Step(s, t)
    ensures s.history <= t.history && s.lines <= t.lines
  {}
}
