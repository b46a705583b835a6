/**
  The checkpointing consumer as a transition system: one consumer process, the files of its checkpoint directory,
  the spool that grows beside it, and crashes between any two steps.
*/
module Checkpoints {
  import opened Words
  import opened Common
  import opened HierarchicalMemory
  import Stream = StructuralStream
  import opened StructuralFileIngest
  import opened HierarchicalPersistence
  import opened StructuralIngest
  import opened Spool

  /** The unique part of a file name; a state, an events and a manifest file can share one. */
  type Token = nat

  type StructuralEvent = Stream.StructuralEvent
  type Config = Stream.Config

  datatype Schema = CheckpointV2 | LegacyV1 | OtherSchema
  datatype Origin = Created | LegacyAdopted

  /** The committed fields of a checkpoint; the fields an older schema lacks are optional. */
  datatype Manifest = Manifest(
    schema: Schema, hierarchyId: Option<nat>, origin: Option<Origin>, config: Option<Config>,
    cursor: nat, previousCursor: nat, stateFile: Token, eventsFile: Option<Token>, checkpointFile: Option<Token>,
    recordCount: nat, spool: Option<string>, previousState: Option<Token>, previousCheckpoint: Option<Token>)

  /** A file being written holds anything. */
  datatype Written = Partial | Complete(manifest: Manifest)

  datatype Directory = Directory(
    states: map<Token, seq<Byte>>, events: map<Token, seq<StructuralEvent>>, manifests: map<Token, Written>,
    pointer: Option<Manifest>, temporary: Option<Written>)

  datatype Arguments = Arguments(spool: string, maxRecords: nat, options: IngestConfig)

  // ---------- reading the checkpoint ----------

  function LoadCheckpoint(dir: Directory): Result<Option<Manifest>> {
    if dir.pointer.None? then Ok(None)
    else
      var m := dir.pointer.value;
      if m.schema.OtherSchema? then Err("unsupported checkpoint schema")
      else if m.stateFile !in dir.states then Err("checkpoint state file is missing")
      else if m.eventsFile.Some? && m.eventsFile.value !in dir.events then Err("checkpoint events file is missing")
      else Ok(Some(m))
  }

  datatype Lineage = Lineage(hierarchyId: nat, origin: Origin)

  /** A hierarchy keeps its id; its structural configuration cannot change. */
  function ResolveLineage(previous: Option<Manifest>, config: Config, freshId: nat): Result<Lineage> {
    if previous.None? then Ok(Lineage(freshId, Created))
    else
      var m := previous.value;
      if m.config.Some? && m.config.value != config then Err("structural configuration changed")
      else if m.hierarchyId.Some? then
        Ok(Lineage(m.hierarchyId.value, if m.origin.Some? then m.origin.value else Created))
      else Ok(Lineage(freshId, LegacyAdopted))
  }

  function Cursor(previous: Option<Manifest>): nat {
    if previous.None? then 0 else previous.value.cursor
  }

  // ---------- one run ----------

  /** Everything a run has decided before it writes its first file. */
  datatype Batch = Batch(
    token: Token, arguments: Arguments, previous: Option<Manifest>, lineage: Lineage, sources: seq<Source>,
    from: nat, to: nat, cursor: nat)

  /**
    Lines `from` up to `to` are selected; `from` is where the committed cursor points. There is no batch when a
    check fails or when no record is pending.
  */
  ghost predicate Prepares(dir: Directory, lines: seq<Line>, arguments: Arguments, token: Token, freshId: nat,
                           b: Batch)
  {
    && LoadCheckpoint(dir) == Ok(b.previous)
    && (b.previous.Some? && b.previous.value.spool.Some? ==> b.previous.value.spool.value == arguments.spool)
    && ResolveLineage(b.previous, Settings(arguments.options), freshId) == Ok(b.lineage)
    && b.from <= |lines| && Offset(lines, b.from) == Cursor(b.previous)
    && arguments.maxRecords > 0
    && Selected(lines, b.from, arguments.maxRecords) == Ok(Selection(b.sources, b.to))
    && b.to <= |lines| && b.cursor == Offset(lines, b.to) && b.sources != []
    && b.token == token && b.arguments == arguments
  }

  /** The manifest that commits a batch. */
  function Commit(b: Batch): Manifest {
    Manifest(
      CheckpointV2, Some(b.lineage.hierarchyId), Some(b.lineage.origin), Some(Settings(b.arguments.options)),
      b.cursor, Cursor(b.previous), b.token, Some(b.token), Some(b.token), |b.sources|, Some(b.arguments.spool),
      if b.previous.None? then None else Some(b.previous.value.stateFile),
      if b.previous.None? then None else b.previous.value.checkpointFile)
  }

  function StateIn(dir: Directory, b: Batch): Option<seq<Byte>> {
    if b.previous.None? || b.previous.value.stateFile !in dir.states then None
    else Some(dir.states[b.previous.value.stateFile])
  }

  /** Where the consumer process stands. */
  datatype Process =
    | Idle
    | Prepared(batch: Batch)
    | Running(batch: Batch)
    | RemovingState(batch: Batch)
    | RemovingEvents(batch: Batch)
    | Produced(batch: Batch)
    | ManifestOpen(batch: Batch)
    | ManifestWritten(batch: Batch)
    | TemporaryOpen(batch: Batch)
    | TemporaryWritten(batch: Batch)

  /** A committed manifest and the line its cursor points to. */
  datatype Link = Link(manifest: Manifest, line: nat)

  /** `history` lists what has been committed so far; no step reads it. */
  datatype System = System(lines: seq<Line>, dir: Directory, process: Process, history: seq<Link>)

  // ---------- the steps ----------

  ghost predicate Fresh(dir: Directory, token: Token) {
    token !in dir.states && token !in dir.events && token !in dir.manifests
  }

  /** Another program appends to the spool. */
  ghost predicate SpoolGrows(s: System, t: System) {
    exists line: Line :: t == s.(lines := s.lines + [line])
  }

  ghost predicate Begins(s: System, t: System) {
    && s.process.Idle? && t.process.Prepared? && t == s.(process := t.process)
    && Fresh(s.dir, t.process.batch.token)
    && exists arguments, freshId ::
         Prepares(s.dir, s.lines, arguments, t.process.batch.token, freshId, t.process.batch)
  }

  ghost predicate OpensEvents(s: System, t: System) {
    && s.process.Prepared?
    && var b := s.process.batch;
       t == s.(dir := s.dir.(events := s.dir.events[b.token := []]), process := Running(b))
  }

  /** The batch program writes some of its output: whatever is in its two files. */
  ghost predicate ProgramWrites(s: System, t: System) {
    && s.process.Running?
    && var k := s.process.batch.token;
       && t == s.(dir := s.dir.(events := t.dir.events, states := t.dir.states))
       && t.dir.events - {k} == s.dir.events - {k} && t.dir.states - {k} == s.dir.states - {k}
  }

  /** The batch program succeeds; its relation ids fit 64 bits. */
  ghost predicate ProgramSucceeds(s: System, t: System) {
    && s.process.Running?
    && var b := s.process.batch;
       var r := Outcome(StateIn(s.dir, b), b.sources, b.arguments.options);
       && r.Some? && IdsFit(StateIn(s.dir, b), b)
       && t == s.(dir := s.dir.(events := s.dir.events[b.token := r.value.events],
                                states := s.dir.states[b.token := r.value.state]),
                  process := Produced(b))
  }

  ghost predicate IdsFit(stateIn: Option<seq<Byte>>, b: Batch) {
    GoodOptions(b.arguments.options) && Initial(stateIn).Ok?
    && BASE + |IngestAll(Settings(b.arguments.options), Initial(stateIn).value, b.sources).rels| <= WORD
  }

  ghost predicate ProgramFails(s: System, t: System) {
    s.process.Running? && t == s.(process := RemovingState(s.process.batch))
  }

  ghost predicate RemovesState(s: System, t: System) {
    && s.process.RemovingState?
    && var b := s.process.batch;
       t == s.(dir := s.dir.(states := s.dir.states - {b.token}), process := RemovingEvents(b))
  }

  ghost predicate RemovesEvents(s: System, t: System) {
    && s.process.RemovingEvents?
    && t == s.(dir := s.dir.(events := s.dir.events - {s.process.batch.token}), process := Idle)
  }

  /** A manifest is never overwritten. */
  ghost predicate OpensManifest(s: System, t: System) {
    && s.process.Produced?
    && var b := s.process.batch;
       b.token !in s.dir.manifests
       && t == s.(dir := s.dir.(manifests := s.dir.manifests[b.token := Partial]), process := ManifestOpen(b))
  }

  ghost predicate WritesManifest(s: System, t: System) {
    && s.process.ManifestOpen?
    && var b := s.process.batch;
       t == s.(dir := s.dir.(manifests := s.dir.manifests[b.token := Complete(Commit(b))]),
               process := ManifestWritten(b))
  }

  ghost predicate OpensTemporary(s: System, t: System) {
    && s.process.ManifestWritten?
    && t == s.(dir := s.dir.(temporary := Some(Partial)), process := TemporaryOpen(s.process.batch))
  }

  ghost predicate WritesTemporary(s: System, t: System) {
    && s.process.TemporaryOpen?
    && var b := s.process.batch;
       t == s.(dir := s.dir.(temporary := Some(Complete(Commit(b)))), process := TemporaryWritten(b))
  }

  /** The temporary file becomes the pointer, at once. */
  ghost predicate Replaces(s: System, t: System) {
    && s.process.TemporaryWritten?
    && s.dir.temporary.Some? && s.dir.temporary.value.Complete?
    && var m := s.dir.temporary.value.manifest;
       t == s.(dir := s.dir.(pointer := Some(m), temporary := None), process := Idle,
               history := s.history + [Link(m, s.process.batch.to)])
  }

  /** The process dies; the files stay as they are. */
  ghost predicate Crashes(s: System, t: System) {
    t == s.(process := Idle)
  }

  ghost predicate Step(s: System, t: System) {
    || SpoolGrows(s, t) || Begins(s, t) || OpensEvents(s, t) || ProgramWrites(s, t) || ProgramSucceeds(s, t)
    || ProgramFails(s, t) || RemovesState(s, t) || RemovesEvents(s, t) || OpensManifest(s, t) || WritesManifest(s, t)
    || OpensTemporary(s, t) || WritesTemporary(s, t) || Replaces(s, t) || Crashes(s, t)
  }

  // ---------- the beginning ----------

  /**
    What a run of the system starts from: the line its cursor points to and the relations known. A directory is
    new, or holds a checkpoint of the older schema, which has neither a hierarchy id nor a configuration.
  */
  datatype Origins = Origins(line: nat, rels: Relations, pointer: Option<Manifest>)

  ghost predicate OriginsStored(o: Origins, dir: Directory) {
    match o.pointer
    case None => o.rels == []
    case Some(m) =>
      && m.stateFile in dir.states && Loaded(dir.states[m.stateFile]) == Ok(o.rels)
      && (m.eventsFile.Some? ==> m.eventsFile.value in dir.events)
  }

  ghost predicate OriginsOk(o: Origins, lines: seq<Line>) {
    && o.line <= |lines| && Offset(lines, o.line) == Cursor(o.pointer) && Durable(o.rels)
    && (o.pointer.Some? ==>
          o.pointer.value.schema.LegacyV1? && o.pointer.value.hierarchyId.None? && o.pointer.value.config.None?)
  }

  ghost predicate Init(o: Origins, s: System) {
    && s.process.Idle? && s.history == [] && s.dir.pointer == o.pointer
    && OriginsOk(o, s.lines) && OriginsStored(o, s.dir)
  }

  /** A run of the system up to a state; every state it goes through is the last one of a shorter run. */
  ghost predicate Execution(o: Origins, run: seq<System>) {
    && run != []
    && if |run| == 1 then Init(o, run[0])
       else Execution(o, run[..|run| - 1]) && Step(run[|run| - 2], run[|run| - 1])
  }
}
