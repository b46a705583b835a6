# bit.analyze: proofs about the memories, the recovery code, the stream and the checkpoints

This project models the core of bit.analyze, an in-memory engine that stores byte streams as trails of symbols, and
proves what that core promises. `dafny verify dfyconfig.toml` checks all of it.

## The system

* **Erasure recovery.** Trails and rule tables are protected by fingerprints and by parity over GF(256).
  `GaloisField` develops the field from the shift-and-add loop, `CarryLess` ties it to polynomials,
  `ParityEquations` the two equations of a block, `TrailRecovery` the search over damaged positions, `RuleRecovery`
  the repair of rules, `Integrity` the fingerprints, `Interleaving` the permutation that spreads bursts, and
  `BurstRecovery` puts them together.
* **Symbol tables.** `HierarchicalMemory` pairs symbols layer by layer; `RelationUses` counts how often;
  `PairRewriting`, `PairLearning` and `AdaptiveMemory` learn and apply rewrite rules, `PairScores` says in whole
  numbers which pair is best; `CompiledEncoder` matches the longest expansion with a trie.
  `Expansion` says what the symbols of both tables mean.
* **Streaming.** `StructuralStream` cuts a stream into windows, `StreamCalls` says what any calls of it emit,
  `RelationGrowth` how many relations they create, and `StructuralFileIngest` feeds it from files.
* **Sketches.** `StructuralFingerprint` counts exactly, `BoundedFingerprint` in hashed vectors, `Fingerprint8` in
  8-bit counters that halve themselves (`Counters`), and `RollingFingerprint` in regions that are reused along an
  endless stream (`RollingStream`, `RollingEpochs`). `Similarity` compares them; `Observations` and `Buckets` say
  what is counted and where.
* **Persistence and commits.** `ByteFormat`, `HierarchicalPersistence`, `ProtectedPersistence` and `SnapshotFiles`
  model the two file formats, `FileLayout` says where their fields stand and `FileAcceptance` which files are accepted;
  `StructuralIngest` is the batch program and `IngestLedger` what its events stand for; `Spool` the appended input;
  `Checkpoints` the consumer as a transition system with crashes between any two steps; `CheckpointSafety` what every run keeps,
  `CommittedLedger` what has been committed, line by line, and `CheckpointProgress` when it can go on.
* **Learning from time.** `TemporalAssociator`, with its laws in `TemporalLaws`, and `StructuralBaseline` use the exact running
  moments of `Moments`.

Classes model the objects that change state; a specification function says what each operation computes, the
methods are proved against it, and the lemmas are about it. Words are natural numbers below 2^64, with the wrap-around
of the source written out where it can occur.

## What the proofs show beyond the promises

* Two-symbol recovery cannot repair a block of a single symbol, so the last block of a trail can be out of its reach
  (`TrailRecovery.ShortBlockNotRecovered`).
* `consolidate` checks no symbols. On known symbols the table stays loadable; for every unknown symbol there is a
  consolidation that produces a rule no loader accepts (`AdaptiveMemory.UnknownSymbolsBreakOrder`).
* The region formula of the bounded fingerprint divides first, but for offsets inside the input it overflows on the very
  same inputs as the plain one and agrees with it there (`Observations.RegionsAgree`, `RegionIsProportional`).
* A hierarchy of more than 100,000,000 relations is saved and committed but never loaded again. A consumer with a
  batch at hand can commit again exactly as long as the committed hierarchy is within that limit
  (`CheckpointProgress.CanCommitExactlyWithinLimit`); past it no retry helps (`OverLimitIsStuck`), and one record of
  suitable content gets there from an empty directory (`LimitIsReached`).
* Bounded scores are at least the exact ones unless an event lies at or beyond the total and its offset times the
  regions overflows 64 bits: byte 2^63 of a total of 3 falls into region 0 by the exact formula and into region 1 by the
  bounded one, and a regional score of 1 becomes 0 (`BoundedFingerprint.OverflowMisplaces`).
* Use counters are 64 bits wide: their sum is the number of relations used modulo 2^64.
* With the other parameters in their ranges, the strength of a link stays within [0, 1] over all slices exactly if
  the time constant is positive, which the constructor does not check (`TemporalAssociator.InRangeExactlyIfPositive`).

## Model

| member | source | states |
|---|---|---|
| `Words.XorBits` | src/trail_recovery.cpp:75-91 | each bit of an exclusive or is the exclusive or of the two bits |
| `Words.ToBytesAt` | src/integrity.cpp:12-17 | byte k of a word is its quotient by 256^k modulo 256 |
| `GaloisField.GfMul` | src/trail_recovery.cpp:10-20 | the loop computes the shift-and-add product `Times` |
| `CarryLess.TimesIsRemainder` | src/trail_recovery.cpp:10-20 | that product is the one byte congruent to the carry-less product of the factors modulo x^8 + x^4 + x^3 + x^2 + 1 |
| `CarryLess.RemainderUnique` | src/trail_recovery.cpp:10-20 | two bytes congruent modulo the polynomial are equal |
| `GaloisField.GfPow` | src/trail_recovery.cpp:22-30 | square-and-multiply computes the power |
| `GaloisField.GfInv` | src/trail_recovery.cpp:32-35 | the inverse of a non-zero element; zero is an error |
| `GaloisField.TimesCommutes` | src/trail_recovery.cpp:10-20 | field multiplication is commutative |
| `GaloisField.TimesAssociates` | src/trail_recovery.cpp:10-20 | field multiplication is associative |
| `GaloisField.DistributesLeft` | src/trail_recovery.cpp:10-20 | field multiplication distributes over exclusive or |
| `GaloisField.Frobenius` | src/trail_recovery.cpp:22-35 | a to the power 256 is a, for all 256 elements, from linearity of squaring |
| `GaloisField.InverseLaw` | src/trail_recovery.cpp:32-35 | a times a^254 is one for every non-zero a |
| `ParityEquations.LaneBalancedIff` | src/trail_recovery.cpp:158-183 | both parity equations of a byte lane hold exactly when the two unknown bytes are the computed ones |
| `ParityEquations.TwoUnknownsDetermined` | src/trail_recovery.cpp:158-187 | two blocks with the same parities that differ in at most two known places with different coefficients are equal |
| `ParityEquations.TwoChangesDetected` | src/recovery.cpp:117-135 | no change of one or two members leaves both P and Q unchanged |
| `ParityEquations.ParityAccumulate` | src/recovery.cpp:46-55 | one word enters both parities with its coefficient, lane by lane |
| `ParityEquations.DualParity` | src/trail_recovery.cpp:104-111 | the accumulated arrays satisfy both parity equations of the block |
| `ParityEquations.OneWordParity` | src/trail_recovery.cpp:104-111 | for a block with a single word that is not zero, at place i, P is its bytes and Q is i + 1 times P in every lane |
| `ParityEquations.SolvePair` | src/recovery.cpp:57-83 | the two computed words make the block satisfy both parity equations |
| `Integrity.AbsorbBijective` | src/integrity.cpp:12-17 | one checksum step is invertible, for every state and byte |
| `Integrity.OneByteChanges` | src/integrity.cpp:12-26 | changing any single byte of any string changes its checksum |
| `Integrity.AddThenMultiply` | src/integrity.cpp:12-17 | a byte is added by exclusive or, then the state is multiplied by 1099511628211 modulo 2^64 |
| `Integrity.EmptyTrailHash` | src/integrity.cpp:19-26 | the fingerprint of an empty trail is 5187598658539770339: its length is hashed from the start value |
| `Integrity.TrailBytesAt` | src/integrity.cpp:19-26 | a trail is hashed symbol by symbol, eight bytes each, lowest first |
| `Integrity.RuleBytesAt` | src/integrity.cpp:30-37 | a rule is hashed as id, left, right and frequency, eight bytes each, lowest first |
| `Integrity.MixU64` | src/integrity.cpp:12-17 | the eight steps absorb the bytes of a word, lowest first |
| `Integrity.HashTrailRange` | src/integrity.cpp:19-26 | the fingerprint of a range is the one of its length and symbols |
| `Integrity.HashRule` | src/integrity.cpp:30-37 | the fingerprint of a rule is the one of its four fields |
| `Integrity.BuildIntegrityManifest` | src/integrity.cpp:43-60 | the manifest describes the rules and every block of the trail |
| `Integrity.FindCorruptedRules` | src/integrity.cpp:62-75 | reports exactly the rules whose fingerprints differ, and every extra or missing one |
| `Integrity.FindCorruptedTrailBlocks` | src/integrity.cpp:82-100 | reports exactly the blocks whose fingerprints differ, and every extra or missing one |
| `Integrity.UndamagedNotReported` | src/integrity.cpp:62-100 | undamaged rules and blocks are never reported |
| `Integrity.DamagedRuleReported` | src/integrity.cpp:62-75 | a rule with one damaged byte in any field is always reported |
| `Integrity.DamagedBlockReported` | src/integrity.cpp:82-100 | one damaged byte of one symbol is reported as exactly the block that contains it |
| `Interleaving.InterleavedOrder` | src/interleaving.cpp:7-21 | the order lists every symbol once, lane after lane, for every count and number of lanes |
| `Interleaving.LaneByLane` | src/interleaving.cpp:7-21 | later physical places hold later lanes, and within a lane later symbols |
| `Interleaving.LanesUsed` | src/interleaving.cpp:7-12 | the lanes asked for are used, but at least one and at most one per symbol |
| `Interleaving.InverseInterleavedOrder` | src/interleaving.cpp:23-31 | the inverse undoes the order in both directions |
| `Interleaving.ThreeHitsSpread` | src/interleaving.cpp:7-21 | three symbols of one block of at most L symbols lie more than n/L + 1 physical places apart |
| `Interleaving.BurstHitsAtMostTwo` | src/interleaving.cpp:7-21 | a run of at most n/L + 1 physical places hits at most two symbols of any block of at most L symbols |
| `TrailRecovery.BuildTrailParity` | src/trail_recovery.cpp:75-91 | one exclusive-or parity per block of the trail |
| `TrailRecovery.BuildTrailDualParity` | src/trail_recovery.cpp:93-115 | P and Q of every block; no parity for a block size of 0 or above 255 |
| `TrailRecovery.RecoverOneSymbolInBlock` | src/trail_recovery.cpp:117-144 | returns a repair exactly when it is the only one the fingerprint accepts |
| `TrailRecovery.RecoverTwoSymbolsInBlock` | src/trail_recovery.cpp:146-198 | returns a repair exactly when it is the only one over all pairs of positions that the fingerprint accepts |
| `TrailRecovery.PairRepairUnique` | src/trail_recovery.cpp:158-187 | a pair of positions has only one repair |
| `TrailRecovery.TwoSymbolRecovery` | src/trail_recovery.cpp:146-198 | with at most two symbols of a block damaged at unknown positions, the result is nothing or exactly the trail with that block restored, and the latter if and only if no other candidate carries the stored fingerprint |
| `TrailRecovery.ReturnedIsConsistent` | src/trail_recovery.cpp:146-198 | whatever the damage, a returned block satisfies the stored fingerprint and both parity equations, and nothing outside it changed |
| `TrailRecovery.OneSymbolRecovery` | src/trail_recovery.cpp:117-144 | the same promise for one damaged symbol and exclusive-or parity |
| `TrailRecovery.ShortBlockNotRecovered` | src/trail_recovery.cpp:152 | a block of a single symbol is never recovered from dual parity |
| `RuleRecovery.BuildRuleParity` | src/recovery.cpp:87-104 | exclusive-or parity of all four fields for every group |
| `RuleRecovery.BuildRuleDualParity` | src/recovery.cpp:117-135 | P and Q of all four fields for every group; none for a group size of 0 or above 255 |
| `RuleRecovery.XorGroupByName` | src/recovery.cpp:87-104 | the parity of each field is the exclusive or of that field of the members |
| `RuleRecovery.DualGroupByName` | src/recovery.cpp:117-135 | P and Q of each field are those of that field of the members |
| `RuleRecovery.RecoverSingleRuleFromParity` | src/recovery.cpp:106-115 | a rule is returned exactly for an index of a present group, and it completes the parity of every field |
| `RuleRecovery.SingleRuleRecovery` | src/recovery.cpp:106-115 | the rebuilt rule is the original one, whatever stands in its place |
| `RuleRecovery.RecoverTwoRulesFromDualParity` | src/recovery.cpp:137-167 | two rules are returned exactly for two members with different one-byte coefficients, and they satisfy both equations of all four fields |
| `RuleRecovery.TwoRuleRecovery` | src/recovery.cpp:137-167 | the two rebuilt rules are the two originals, in the order asked, whatever stands in their places |
| `BurstRecovery.InterleavingRoundTrip` | src/interleaving.cpp:7-31 | writing a trail interleaved and reading it back gives the trail |
| `BurstRecovery.BurstLeavesTwo` | src/interleaving.cpp:7-31 | after a tolerated burst at most two symbols of any block are damaged |
| `BurstRecovery.BurstIsRecovered` | src/trail_recovery.cpp:146-198 | every block hit by a tolerated burst is repaired to the original or reported as not recoverable |
| `Expansion.ExpandStable` | src/hierarchical_memory.cpp:58-72 | appending entries to a table does not change what earlier symbols expand to |
| `HierarchicalMemory.Memory.GetOrCreateRelation` | src/hierarchical_memory.cpp:15-28 | finds the pair or appends it under the next id; the index stays the inverse of the relations |
| `HierarchicalMemory.Memory.Encode` | src/hierarchical_memory.cpp:30-56 | the layered pairing of the data, with relations, trail and uses exactly those of the layer specification |
| `HierarchicalMemory.Memory.ExpandInto` | src/hierarchical_memory.cpp:58-72 | appends the expansion of a symbol; fails exactly on an unknown symbol |
| `HierarchicalMemory.Memory.Decode` | src/hierarchical_memory.cpp:74-80 | the expansions of all symbols in order; fails exactly on an unknown symbol |
| `HierarchicalMemory.Memory.RestoreRelations` | src/hierarchical_memory.cpp:94-112 | accepts exactly the well-formed tables with positive layers and rebuilds the index; a rejected table changes nothing |
| `HierarchicalMemory.EncodeRoundTrip` | src/hierarchical_memory.cpp:30-80 | decoding what was encoded gives the data, for any table, data and number of layers |
| `HierarchicalMemory.TrailLength` | src/hierarchical_memory.cpp:39-53 | the trail has ceil(n / 2^layers) symbols |
| `HierarchicalMemory.EncodeCanonical` | src/hierarchical_memory.cpp:39-53 | in a table where every left child covers some power of two bytes and the right child at most as many, encoding keeps that so |
| `HierarchicalMemory.HistoryLayered` | src/hierarchical_memory.cpp:15-56 | after every history of encodes, a relation of layer n has a left child of exactly 2^(n-1) bytes and a right child of at most as many |
| `HierarchicalMemory.OneNamePerString` | src/hierarchical_memory.cpp:15-56 | in every memory reached by encodes, two symbols with the same expansion are the same symbol |
| `HierarchicalMemory.EncodeAgain` | src/hierarchical_memory.cpp:15-56 | data encoded before gets the same trail and no new relation, however much was learned in between |
| `HierarchicalMemory.HistoryInvariant` | src/hierarchical_memory.cpp:15-56 | after every history of encodes the table is canonical and the use counts add up to the relations used, modulo 2^64 |
| `RelationUses.LayerUses` | src/hierarchical_memory.cpp:15-28 | in a layer the counter of each relation goes up by the number of times the layer forms it |
| `RelationUses.HistoryUses` | src/hierarchical_memory.cpp:15-56 | after every history of encodes the counter of each relation is the number of times it was formed, modulo 2^64 |
| `PairRewriting.ReplacePair` | src/adaptive_memory.cpp:23-44 | left-to-right replacement of a pair, with the number of replacements |
| `PairRewriting.ReplacedScans` | src/adaptive_memory.cpp:23-44 | one scan from the left: where the pair stands the new symbol is written and both are passed, otherwise one symbol is copied |
| `PairRewriting.AdaptiveRoundTrip` | src/adaptive_memory.cpp:178-203 | applying all rules is lossless for every ordered table and every input |
| `PairRewriting.AppliedIsNormal` | src/adaptive_memory.cpp:178-189 | the trail contains no adjacent pair of any rule |
| `PairRewriting.NormalIsStable` | src/adaptive_memory.cpp:178-189 | applying the rules to a normal trail changes nothing |
| `PairLearning.CountCorpus` | src/adaptive_memory.cpp:72-79 | the counters are the numbers of adjacent pairs, left symbols, right symbols and positions |
| `PairLearning.SelectBest` | src/adaptive_memory.cpp:81-92 | whatever order the table is scanned in, the promotable pair of greatest score, and of those the smallest |
| `PairScores.PromotableExactly` | src/adaptive_memory.cpp:82-89 | a pair qualifies, by counted places: n > 0, n >= the least frequency, n >= least support times total, and n * total >= least lift * l * r |
| `PairScores.SelectedExactly` | src/adaptive_memory.cpp:81-92 | the pair selected qualifies, and against every other one that does, with n places and l and r places of its sides, n^2 times the product of the other's sides is greater, or equal and the pair smaller |
| `PairLearning.BestUnique` | src/adaptive_memory.cpp:81-92 | there is only one such pair |
| `PairLearning.BestExists` | src/adaptive_memory.cpp:80-93 | learning stops exactly when no pair is promotable |
| `PairLearning.PromotionShortens` | src/adaptive_memory.cpp:93-97 | a promotion shortens the corpus by exactly the counted frequency if left and right differ, and by at least half of it otherwise |
| `PairLearning.Learn` | src/adaptive_memory.cpp:71-98 | the learning loop appends exactly the promoted pairs |
| `PairScores.LearnedRun` | src/adaptive_memory.cpp:71-98 | every rule learned is the champion of the corpus as rewritten so far and stores its number of places there; learning stops at the limit or when no pair qualifies |
| `PairLearning.LearnedOrdered` | src/adaptive_memory.cpp:108-136 | on known symbols, learning keeps ids contiguous and children below their rule |
| `PairLearning.LearnedDistinct` | src/adaptive_memory.cpp:56-99 | learning never promotes one pair twice |
| `PairLearning.LearnedBounded` | src/adaptive_memory.cpp:71-98 | the number of learned rules is bounded by the length of the corpus, whatever the limit given |
| `AdaptiveMemory.Memory.Train` | src/adaptive_memory.cpp:56-99 | replaces the table by an ordered one without duplicate pairs |
| `AdaptiveMemory.Memory.LearnOnline` | src/adaptive_memory.cpp:101-137 | appends rules learned from the normal form of the data; an ordered, duplicate-free table stays so |
| `AdaptiveMemory.Memory.Consolidate` | src/adaptive_memory.cpp:139-176 | appends rules learned from trails; the table stays ordered when the trails have known symbols |
| `AdaptiveMemory.Memory.Encode` | src/adaptive_memory.cpp:178-189 | applies all rules in order; rules applied is input length minus trail length |
| `AdaptiveMemory.Memory.Decode` | src/adaptive_memory.cpp:191-203 | the expansions of all symbols; fails exactly on an unknown one |
| `AdaptiveMemory.Memory.LoadRules` | src/adaptive_memory.cpp:205-213 | accepts exactly the tables with contiguous ids and children below |
| `AdaptiveMemory.EncodeNormalForm` | src/adaptive_memory.cpp:178-203 | encoding is lossless and reaches a normal form that applying the rules again does not change |
| `AdaptiveMemory.OldTrailsSurvive` | src/adaptive_memory.cpp:101-213 | after any sequence of online learning and of consolidation on known symbols, the table is still loadable and every earlier trail decodes to the same bytes |
| `AdaptiveMemory.UnknownSymbolsBreakOrder` | src/adaptive_memory.cpp:139-176 | the condition is needed: for every table and every unknown symbol some consolidation produces a rule that does not refer to earlier symbols |
| `CompiledEncoder.Encoder.constructor` | src/compiled_encoder.cpp:9-19 | compiles the expansions of all rules of a memory |
| `CompiledEncoder.Encoder.InsertRule` | src/compiled_encoder.cpp:21-38 | the trie gains the path of one expansion and nothing else; the later rule wins among equal expansions |
| `CompiledEncoder.Encoder.Encode` | src/compiled_encoder.cpp:40-79 | the greedy longest-match encoding; matched rules is the number of rule symbols in the trail, matched bytes the sum of their expansions |
| `CompiledEncoder.GreedyStep` | src/compiled_encoder.cpp:47-76 | each step emits the longest expansion the data start with, the latest rule among equal ones, or one literal byte |
| `CompiledEncoder.GreedyRoundTrip` | src/compiled_encoder.cpp:40-79 | greedy encoding decodes to the input, for every input |
| `CompiledEncoder.CompiledSurvives` | src/compiled_encoder.cpp:9-19 | the encoder stays lossless against the memory after further append-only learning |
| `CompiledEncoder.NodeCount` | src/compiled_encoder.cpp:81-83 | the trie has one node more than there are distinct non-empty prefixes of expansions |
| `StructuralStream.Extractor.Create` | src/structural_stream.cpp:48-51 | an extractor is refused exactly without layers |
| `StructuralStream.Extractor.Extract` | src/structural_stream.cpp:52-63 | the event of a piece: its trail, the relation ids of the trail in order, and the signature over all trail bytes |
| `StructuralStream.RelationIdsListed` | src/structural_stream.cpp:57-61 | there are increasing places, exactly those of the relations in the trail, and the relation ids are the symbols at these places |
| `StructuralStream.EventsListRelations` | src/structural_stream.cpp:52-63 | the same for every event of a run |
| `StructuralStream.SignatureSteps` | src/structural_stream.cpp:10-21 | the signature of no symbol is the start value, and each symbol is absorbed with its eight bytes, without the number of symbols |
| `StructuralStream.SignatureTells` | src/structural_stream.cpp:10-21 | a change of one byte of one symbol changes the signature |
| `StructuralStream.Stream.Create` | src/structural_stream.cpp:65-71 | a stream is refused exactly unless 0 < hop <= window |
| `StructuralStream.Stream.Push` | src/structural_stream.cpp:72-88 | the same events, relations and position as feeding the bytes one at a time |
| `StructuralStream.Stream.Flush` | src/structural_stream.cpp:95-103 | what is buffered becomes one event; the buffer is empty and its offset is what has been consumed |
| `StructuralStream.FeedReaches` | src/structural_stream.cpp:72-88 | after any input the machine has emitted exactly the full windows at the multiples of hop and buffers the rest |
| `StructuralStream.ChunkInvariance` | src/structural_stream.cpp:72-103 | for every way of cutting the input, pushes and a flush emit the batch specification: all full windows, then the tail |
| `StructuralStream.ChunkInvariantEvents` | src/structural_stream.cpp:52-103 | events and final relations are the same for any two ways of cutting one input |
| `StructuralStream.BatchDecodes` | src/structural_stream.cpp:52-103 | with hop = window the concatenated trails decode to the whole input |
| `StructuralStream.EveryEventDecodes` | src/structural_stream.cpp:52-63 | every event decodes, by the final relations, to the bytes it covers, also when windows overlap |
| `StructuralStream.WindowStarts` | src/structural_stream.cpp:81-85 | window k starts at byte k * hop |
| `StructuralStream.CallsOrdered` | src/structural_stream.cpp:72-103 | over any mix of pushes and flushes, sequence numbers count up, offsets strictly increase, and buffer offset plus buffered bytes is what was consumed |
| `StreamCalls.CallsAreSegments` | src/structural_stream.cpp:72-103 | any mix of pushes and flushes emits each flushed segment as one batch, then the full windows of the rest, and buffers its tail |
| `StreamCalls.AnyCallsAreSegments` | src/structural_stream.cpp:72-103 | the same when the calls name different sources, up to the source names of the pieces |
| `RelationGrowth.EncodeCost` | src/hierarchical_memory.cpp:30-56 | new relations and symbols of the trail together are at most the bytes encoded |
| `RelationGrowth.SourceCost` | src/structural_stream.cpp:52-103 | without overlap a source creates at most as many relations as it has bytes |
| `RelationGrowth.DifferentWindowsCost` | src/structural_stream.cpp:52-88 | different windows of 2^layers bytes leave at least as many relations |
| `StructuralFileIngest.IngestStructuralStream` | src/structural_file_ingest.cpp:10-55 | arguments are checked in order; events, relations and counters are those of the batch specification, for every chunk size; a read error leaves the events of the pushes |
| `StructuralFileIngest.Peak` | src/structural_file_ingest.cpp:30-44 | the peak of the buffer over all reads stays below the window |
| `StructuralFileIngest.PeakExactly` | src/structural_file_ingest.cpp:30-44 | the peak is the greatest buffer after any whole number of chunks or at the end, and one of these |
| `StructuralFileIngest.ReadLoop` | src/structural_file_ingest.cpp:30-44 | the read loop feeds exactly the bytes of the input |
| `ByteFormat.OneByteBreaksSeal` | src/hierarchical_persistence.cpp:42-74 | a change of any single byte of a file, payload or checksum, fails verification |
| `ByteFormat.ChecksumPrefix` | src/hierarchical_persistence.cpp:42-61 | the buffered loop computes the checksum of the whole prefix |
| `ByteFormat.VerifyChecksum` | src/hierarchical_persistence.cpp:63-74 | rejects a file without a checksum and one whose checksum differs |
| `ByteFormat.ManyWritten` | src/protected_persistence.cpp:163-174 | records that are each read back are read back as a list, whatever follows them |
| `HierarchicalPersistence.NodeWritten` | src/hierarchical_persistence.cpp:91-97 | a relation written with its field widths is read back |
| `HierarchicalPersistence.SaveHierarchicalState` | src/hierarchical_persistence.cpp:78-106 | the bytes of the file: header, relations and checksum |
| `HierarchicalPersistence.LoadHierarchicalState` | src/hierarchical_persistence.cpp:118-143 | installs exactly the relations of an accepted file; the first failing check decides the error and changes nothing |
| `HierarchicalPersistence.LoadedSaved` | src/hierarchical_persistence.cpp:78-143 | saving and loading gives the same relations; only a table over the limit of the reader is refused |
| `FileLayout.HierarchicalLayout` | src/hierarchical_persistence.cpp:78-106 | where every field of every relation stands in the file, by its offset |
| `FileLayout.ChecksumLayout` | src/hierarchical_persistence.cpp:98-106 | the last eight bytes are the hash of all before them |
| `FileAcceptance.StateAcceptedExactly` | src/hierarchical_persistence.cpp:118-143 | a file is loaded if and only if its checksum agrees and it begins with the bytes of relations that can be installed, within the limit; it gives these |
| `HierarchicalPersistence.DamagedFileRefused` | src/hierarchical_persistence.cpp:63-74 | a saved file with one damaged byte is never loaded |
| `HierarchicalPersistence.IndexUnique` | src/hierarchical_memory.cpp:94-112 | the rebuilt index is determined by the relations |
| `HierarchicalPersistence.RestartUnobservable` | src/hierarchical_persistence.cpp:78-143 | for every history of encodes, saving and loading in between changes nothing that follows, if and only if the table is within the limit |
| `ProtectedPersistence.LoadedSaved` | src/protected_persistence.cpp:95-230 | a saved snapshot is loaded unchanged if and only if it is of version 2 and within the size limits; otherwise the error is the first one met |
| `FileLayout.SnapshotLayout` | src/protected_persistence.cpp:95-112 | where the head of a snapshot has its fields, and the order of its records |
| `FileLayout.RuleLayout` | src/protected_persistence.cpp:113-121 | where a rule record has its fields, by offset |
| `FileLayout.GroupLayout` | src/protected_persistence.cpp:123-130 | where a parity group has its fields, by offset |
| `FileLayout.SymbolsLayout` | src/protected_persistence.cpp:132-138 | where a trail has its profile, block size, hash and symbols |
| `FileLayout.HashesLayout` | src/protected_persistence.cpp:138-146 | where a trail has its block hashes and parity blocks |
| `FileAcceptance.SnapshotAcceptedExactly` | src/protected_persistence.cpp:156-230 | a file is loaded if and only if its checksum agrees and it begins with the bytes of a version 2 snapshot within the limits; it gives that one |
| `ProtectedPersistence.DamagedSnapshotRefused` | src/protected_persistence.cpp:68-80 | a snapshot file with one damaged byte is never loaded |
| `ProtectedPersistence.RuleWritten` | src/protected_persistence.cpp:113-121 | a rule with profile and hash is read back |
| `ProtectedPersistence.GroupWritten` | src/protected_persistence.cpp:123-130 | a parity group is read back |
| `ProtectedPersistence.TrailWritten` | src/protected_persistence.cpp:132-146 | a trail within the limit is read back, a longer one is refused |
| `SnapshotFiles.SaveProtectedSnapshot` | src/protected_persistence.cpp:95-154 | writes the format, or refuses a snapshot whose rules lack a profile or hash |
| `SnapshotFiles.LoadProtectedSnapshot` | src/protected_persistence.cpp:156-230 | reads the format, with the same error as the format for every malformed file |
| `Counters.Increment` | src/bounded_structural_fingerprint.cpp:15 | in place: halve all counters when the counter is full, then count |
| `Counters.IncrementRange` | src/bounded_structural_fingerprint.cpp:19 | the same for the counters of one region, leaving all others alone |
| `Counters.CounterBounds` | src/bounded_structural_fingerprint.cpp:15 | after r halvings, 2^r times a counter is the weighted count rounded up by less than 2^r |
| `Counters.NeverUnderestimates` | src/bounded_structural_fingerprint.cpp:15 | the true count is at most 2^r times the counter, and a counter is zero exactly if its bucket was never hit |
| `Counters.HalvingsAreRare` | src/bounded_structural_fingerprint.cpp:15 | the number of hits is at least 127 times the halvings plus any counter |
| `Counters.ExactUntilFull` | src/bounded_structural_fingerprint.cpp:15 | nothing is halved until some bucket is hit for the 256th time, and until then the counters are exact |
| `Fingerprint8.Accumulator8.Create` | src/bounded_structural_fingerprint.cpp:14 | refused exactly when a dimension is zero |
| `Fingerprint8.Accumulator8.Observe` | src/bounded_structural_fingerprint.cpp:16 | the three vectors are the 8-bit sketches of all ids, of the ids by region and of the transitions, and halvings are counted over all three |
| `Fingerprint8.RenormalizationsAreRare` | src/bounded_structural_fingerprint.cpp:15-16 | 127 times the halvings of the fingerprint is at most three times the relation ids |
| `Similarity.JaccardRange` | src/structural_fingerprint.cpp:6-9 | a score lies between 0 and 1, and is 1 exactly for equal collections |
| `Similarity.JaccardByUnion` | src/structural_fingerprint.cpp:6-9 | the score is the number of members in common over the number in either |
| `Similarity.CollisionsRaise` | src/bounded_structural_fingerprint.cpp:9 | hashing the keys can only raise the score |
| `Similarity.WeightedJaccardMaps` | src/structural_fingerprint.cpp:6-9 | the sums over all keys of two maps give the score of what they count, in any key order |
| `Similarity.WeightedJaccardVectors` | src/bounded_structural_fingerprint.cpp:9 | the sums over two vectors give the score of what they count; different lengths score 0 |
| `Observations.ItemsListed` | src/structural_fingerprint.cpp:14-17 | what is observed is every relation id of every event once, in order, in the region of its event |
| `Observations.ItemsInOrder` | src/structural_fingerprint.cpp:16 | ids are counted one by one, and transitions lead from each id to the next one, across events too |
| `Observations.RegionKept` | src/structural_fingerprint.cpp:16 | the ids of a region are those observed in it, in order |
| `Observations.RegionsAgree` | src/bounded_structural_fingerprint.cpp:13 | inside the input both region formulas agree, overflow included |
| `Observations.RegionIsProportional` | src/structural_fingerprint.cpp:15 | inside the input, the region is floor(offset * regions / total) if and only if the product fits 64 bits |
| `Observations.BothProportional` | src/bounded_structural_fingerprint.cpp:13 | without overflow both formulas are the clamped proportional region, for every offset |
| `StructuralFingerprint.MakeStructuralFingerprint` | src/structural_fingerprint.cpp:11-19 | the three channels count the ids, the ids of each region and the transitions across events |
| `StructuralFingerprint.CompareStructuralFingerprints` | src/structural_fingerprint.cpp:20-25 | the weighted combination of the three scores of what was observed |
| `StructuralFingerprint.CombinedWeights` | src/structural_fingerprint.cpp:20-25 | twenty times the combined score is eight times the frequency, seven times the regional and five times the transition score |
| `StructuralFingerprint.ScoresRange` | src/structural_fingerprint.cpp:20-25 | all scores lie between 0 and 1, and the combined one is 1 exactly if ids, ids of each region and transitions are the same |
| `BoundedFingerprint.BucketIsSum` | src/bounded_structural_fingerprint.cpp:13 | a bounded counter is the sum of the exact counts of the keys that share its bucket |
| `BoundedFingerprint.Accumulator.Create` | src/bounded_structural_fingerprint.cpp:12 | refused exactly when a dimension is zero |
| `BoundedFingerprint.Accumulator.Observe` | src/bounded_structural_fingerprint.cpp:13 | the three vectors tally the buckets of all ids, of the ids of each region and of the transitions |
| `BoundedFingerprint.MakeBoundedFingerprint` | src/bounded_structural_fingerprint.cpp:27 | the accumulator after all events |
| `BoundedFingerprint.CompareBoundedFingerprints` | src/bounded_structural_fingerprint.cpp:28 | the scores of the hashed observations; all zero for different configurations |
| `Buckets.BaseIsProduct` | src/bounded_structural_fingerprint.cpp:19 | the counters of region r begin at r times the number of buckets |
| `Buckets.PlainBuckets` | src/bounded_structural_fingerprint.cpp:7-8 | keys and seed reach the hash unchanged, and its value is taken modulo the number of buckets |
| `BoundedFingerprint.BoundedAtLeastExact` | src/bounded_structural_fingerprint.cpp:28 | for the same events, each bounded score, and the combined one, is at least the exact one, if the total is unknown or every event lies inside it or has an offset that times the regions fits 64 bits |
| `BoundedFingerprint.RaisedExactlyIfPlacedAlike` | src/bounded_structural_fingerprint.cpp:13 | for an event at any offset, the bounded scores are at least the exact ones against everything it can be compared with if and only if both region formulas agree on its offset |
| `BoundedFingerprint.MisplacedLowers` | src/bounded_structural_fingerprint.cpp:13 | an event they place differently scores lower, bounded, against the event that the exact formula places in the same region |
| `BoundedFingerprint.OverflowMisplaces` | src/structural_fingerprint.cpp:15 | such an event: offset 2^63 of a total of 3 with 2 regions |
| `RollingFingerprint.LatestIsLargest` | src/bounded_structural_fingerprint.cpp:20 | the epoch a region shows is the largest one seen of its residue |
| `RollingFingerprint.ReusesPush` | src/bounded_structural_fingerprint.cpp:20 | distinct epochs minus distinct regions grows exactly when an epoch takes a region over from an older one |
| `RollingFingerprint.EnterShows` | src/bounded_structural_fingerprint.cpp:20 | entering an epoch clears its region exactly when the region shows another epoch, and no other region changes |
| `RollingEpochs.EpochsShown` | src/bounded_structural_fingerprint.cpp:20 | a seen epoch e stands at region e mod regions, with the counters of a fresh array fed with its ids, exactly until a later epoch of the same residue is seen; the latest epochs, as many as regions, always do |
| `RollingEpochs.ReusesCounted` | src/bounded_structural_fingerprint.cpp:20 | region reuses are the epochs seen less their different residues, and zero exactly if all residues differ |
| `RollingEpochs.NoReuseInWindow` | src/bounded_structural_fingerprint.cpp:20 | there is no reuse while at most as many consecutive epochs as regions have been seen |
| `RollingEpochs.RegionHalvingsExactly` | src/bounded_structural_fingerprint.cpp:19 | regions are halved as often as separate arrays, one for each epoch, would be |
| `RollingFingerprint.Accumulator.Create` | src/bounded_structural_fingerprint.cpp:17 | refused exactly when a dimension or the span is zero |
| `RollingFingerprint.Accumulator.Observe` | src/bounded_structural_fingerprint.cpp:20 | refuses exactly an offset that goes back; each region always holds the sketch of a fresh array fed with the ids of its latest epoch only, and region reuses are distinct epochs minus distinct regions |
| `RollingStream.CallForward` | src/structural_stream.cpp:72-103 | every push and flush of one stream emits offsets that never go back |
| `RollingStream.RollingStructuralStream.Push` | src/bounded_structural_fingerprint.cpp:23-24 | the events of the stream, every one of them observed and none refused |
| `RollingStream.RollingStructuralStream.Flush` | src/bounded_structural_fingerprint.cpp:25 | the same for the flush |
| `StructuralIngest.IngestConcat` | tools/structural_ingest.cpp:149-165 | one run over all sources equals two runs, the second continuing with the relations of the first |
| `IngestLedger.IngestKeeps` | tools/structural_ingest.cpp:149-165 | a run keeps every relation it starts with under its id |
| `IngestLedger.IngestAccounts` | tools/structural_ingest.cpp:149-165 | every window and tail of every source becomes exactly one event, in order, and the final relations decode its trail to the bytes it covers |
| `IngestLedger.OutcomeAccounts` | tools/structural_ingest.cpp:149-171 | the same for what a run of the program prints, by the relations it saves, which extend those it loaded |
| `StructuralIngest.IngestDurable` | tools/structural_ingest.cpp:149-171 | what a run leaves can be installed again |
| `StructuralIngest.Run` | tools/structural_ingest.cpp:149-171 | events and saved hierarchy of a batch run, or failure for bad options, an unreadable state, no sources or an empty name |
| `Spool.SelectionIsExact` | tools/consume_ingest.py:132-159 | a selection is exactly the sources of the lines it consumes, blank lines included, and stops early only when it is full |
| `Spool.SelectionFailsExactly` | tools/consume_ingest.py:150-158 | a selection fails if and only if an invalid line has fewer than the greatest number of records before it, and takes no invalid line |
| `Spool.LoadPending` | tools/consume_ingest.py:132-159 | the loop over offsets selects exactly the pending records and commits the offset of the first line not consumed; it fails if and only if the limit is zero or an invalid record comes before the limit is reached, and passes no invalid line |
| `CheckpointSafety.BeginsPending` | tools/consume_ingest.py:171-210 | a prepared batch starts exactly where the committed chain ends, and keeps its lineage |
| `CheckpointSafety.ProgramSucceedsKeeps` | tools/consume_ingest.py:276-294 | the output of the batch program continues the committed hierarchy |
| `CheckpointSafety.CommitFollows` | tools/consume_ingest.py:307-324 | the manifest written for a batch is the next link of the chain |
| `CheckpointSafety.StepKeeps` | tools/consume_ingest.py:213-226 | every step of the consumer, the batch program, the spool and every crash keeps the invariant |
| `CheckpointSafety.InvariantHolds` | tools/consume_ingest.py:229-340 | the invariant holds in every state of every run |
| `CheckpointSafety.CurrentNamesFiles` | tools/consume_ingest.py:171-192 | in every state the checkpoint can be read: current.json names an existing state and events file |
| `CheckpointSafety.CommittedCoversSpool` | tools/consume_ingest.py:307-324 | in every state the committed manifests, each stored complete, cover the spool without gap or overlap and name one another |
| `CheckpointSafety.LineageIsConstant` | tools/consume_ingest.py:195-210 | hierarchy id, origin, structural configuration and spool never change along the chain, and the origin tells whether it began with an older checkpoint |
| `CheckpointSafety.ExactlyOnce` | tools/consume_ingest.py:248-324 | in every state the committed events and hierarchy are those of one uninterrupted run over the records up to the cursor, for every choice of batch sizes and every crash |
| `CommittedLedger.CommittedExactlyOnce` | tools/consume_ingest.py:248-324 | in every state of every run, the committed events are one for each window and tail of the record on each line up to the cursor, in order, and the committed relations, which extend the first ones, decode each to its bytes |
| `CommittedLedger.NoInvalidCommitted` | tools/consume_ingest.py:153-157 | no line that was committed past holds an invalid record |
| `CommittedLedger.RecordsCounted` | tools/consume_ingest.py:307-324 | every committed manifest counts the records on its lines, at least one |
| `CheckpointSafety.CommitsOnlyGrow` | tools/consume_ingest.py:213-226 | nothing committed is ever lost or changed |
| `CheckpointProgress.SucceedsExactlyWithinLimit` | src/hierarchical_persistence.cpp:128-129 | in every state that satisfies the invariant, the program of a pending batch succeeds exactly for good options on a committed hierarchy within the limit of the reader |
| `CheckpointProgress.OverLimitIsStuck` | tools/consume_ingest.py:276-294 | once a hierarchy over the limit is committed, no continuation of the run, with whatever crashes and retries, ever commits anything |
| `CheckpointProgress.BatchCanCommit` | tools/consume_ingest.py:248-324 | from any idle state within the limit, a batch that can be prepared with good options can be committed |
| `CheckpointProgress.CanCommitExactlyWithinLimit` | tools/consume_ingest.py:248-324 | with such a batch at hand, the run has a continuation that commits if and only if the committed hierarchy is within the limit |
| `CheckpointProgress.LimitIsReached` | tools/consume_ingest.py:248-324 | an actual run over the limit: one record that lists more than 100,000,000 different four-byte numbers, windows of four bytes and two layers |
| `Moments.MomentsStep` | src/structural_baseline.cpp:5-11 | the running update keeps the exact mean and sum of squared deviations |
| `StructuralBaseline.Baseline.Observe` | src/structural_baseline.cpp:4-12 | learns one sample |
| `StructuralBaseline.DistanceIsConsistency` | src/structural_baseline.cpp:13-19 | the deviation is within the limit exactly when the squared distance is within limit squared times the variance, or the distance within the limit if there is no variance |
| `StructuralBaseline.Baseline.ObserveIfConsistent` | src/structural_baseline.cpp:20-26 | a sample is learned exactly if fewer than two are known or both components are consistent; otherwise nothing changes |
| `TemporalAssociator.Slice` | experiments/temporal_multimodal/reality_slice.py:27-32 | a slice is refused exactly when its window is inverted or an occurrence lies outside it |
| `TemporalAssociator.PairSymmetric` | experiments/temporal_multimodal/reality_slice.py:68-82 | it makes no difference which occurrence of a pair comes first |
| `TemporalAssociator.OneDirection` | experiments/temporal_multimodal/reality_slice.py:77-80 | each observation gives its whole weight to the one direction the centers show |
| `TemporalLaws.DistanceIsLeast` | experiments/temporal_multimodal/reality_slice.py:52-55 | the distance of two intervals is the least distance of their points |
| `TemporalLaws.ProximityByConstants` | experiments/temporal_multimodal/reality_slice.py:70 | at a distance of h time constants the proximity is exp(-h) |
| `TemporalLaws.ForgottenByLife` | experiments/temporal_multimodal/reality_slice.py:56-60 | when rate times time passed is h times the slowness, which grows with the logarithm of the repetitions, strength and weights shrink by exp(-h) |
| `TemporalLaws.PairDirection` | experiments/temporal_multimodal/reality_slice.py:76-82 | an observation of two occurrences adds its weight forward exactly if the smaller pattern's center is earlier by more than the tolerance, backward if later, and otherwise to simultaneous |
| `TemporalLaws.SliceLaw` | experiments/temporal_multimodal/reality_slice.py:65-82 | a slice changes exactly the links with a pair near enough, each once, by the first such pair in the order of the occurrences |
| `TemporalLaws.CoverageOf` | experiments/temporal_multimodal/reality_slice.py:88-100 | the coverage is a share of the slices with the pattern that comes first by weight, or with the more frequent one if neither does |
| `TemporalAssociator.ReinforcedInRange` | experiments/temporal_multimodal/reality_slice.py:78-80 | reinforcing keeps strength within [0, 1] and weights not negative |
| `TemporalAssociator.ReinforcedExact` | experiments/temporal_multimodal/reality_slice.py:77-82 | one more displacement is counted and both moments stay exact, whatever was forgotten before |
| `TemporalAssociator.PairedKeeps` | experiments/temporal_multimodal/reality_slice.py:68-82 | within a slice a link is at most one ahead of the slices of its patterns |
| `TemporalAssociator.SortedStable` | experiments/temporal_multimodal/reality_slice.py:65 | the occurrences by center and pattern, those with equal keys in the order given |
| `TemporalAssociator.StableSortingUnique` | experiments/temporal_multimodal/reality_slice.py:65 | there is only one such order |
| `TemporalAssociator.HistoryTracked` | experiments/temporal_multimodal/reality_slice.py:61-82 | after any slices, every link has exact moments of its displacements and was counted no more often than either of its patterns |
| `TemporalAssociator.InRangeExactlyIfPositive` | experiments/temporal_multimodal/reality_slice.py:43-82 | with 0 < eta <= 1, no negative rate and a time constant that is not zero, every strength stays within [0, 1] and every weight not negative over all histories of slices if and only if the time constant is positive |
| `TemporalAssociator.NegativeConstantBreaks` | experiments/temporal_multimodal/reality_slice.py:70-78 | for every negative time constant, a slice of two occurrences that takes a strength above 1 |
| `TemporalAssociator.MinusOneBreaks` | experiments/temporal_multimodal/reality_slice.py:70-78 | with the time constant -1 and eta 1, two occurrences at times 0 and 1 do |
| `TemporalAssociator.Associator.Ingest` | experiments/temporal_multimodal/reality_slice.py:61-82 | one more slice: links, totals and pattern counts are those of the whole history of slices |
| `TemporalAssociator.Associator.DirectionalCoverage` | experiments/temporal_multimodal/reality_slice.py:88-100 | the coverage is the unclamped quotient, between 0 and 1 |

## Left out

- Floating point: scores, lifts, times and weights are reals; rounding is not modelled. Square roots, exponentials and logarithms are parameters of which only the needed facts are assumed.
- Hash functions of buckets (mix64): parameters of the configuration; every result holds for all of them.
- Allocation limits and the exhaustion of 64-bit ids, offsets and counters: ids and counters are unbounded except where a width is stated; the committed hierarchy is assumed to have fewer than 2^64 ids.
- from_bytes: the bytes of a word are combined by sums instead of bitwise or; the ranges of the summands do not overlap.
- GaloisField.GfInv: recovery.cpp's own copy returns 0 for zero instead of failing; the coefficient distances it inverts there are never zero.
- AdaptiveMemory.Memory.Decode: only for ordered tables; on a table that consolidating unknown symbols has left unordered the recursion of the source need not end.
- CompiledEncoder.Encoder.constructor: only for memories with an ordered table, for the same reason; the test for expansions shorter than two bytes is not written out, because no rule has one; absent trie edges are absent map entries instead of -1.
- recover_pair_field: the list of known members is walked directly instead of being collected first, and the branch for a zero coefficient distance inside trail recovery is not written out, because coefficients of different members differ there.
- Spool.LoadPending: why a record is invalid (schema, path, length, digest, provenance) is one case, and a line is read only when it was appended whole.
- Checkpoints: one consumer, as the code takes no lock; the file names of one batch share one unique token, and uuid4 is assumed never to repeat; rename is atomic; JSON text is not modelled, a file being written holds anything.
- tools/structural_ingest.cpp: command line, TSV text and unreadable files; a failing program is a step that may always happen.
- Checkpoints.LoadCheckpoint: a checkpoint file with a missing cursor or state name is not modelled, as no run writes one.
- HierarchicalPersistence.LoadHierarchicalState: the four messages for relations that cannot be installed are one error.
- ProtectedPersistence.Loaded: the frequency overflow error cannot occur where size_t has 64 bits.
- Files on disk: saving produces the bytes of the file; directories, temporary files and their renaming inside save_hierarchical_state are not modelled.
- StructuralFileIngest.IngestStructuralStream: the event sink is always set and its events are returned as a list.
- src/persistence.cpp, src/protection_policy.cpp, src/trail_protection_policy.cpp and src/structural_regimes.cpp are not part of this model: an easier duplicate of the protected format, and threshold scores.
- Event text (to_json), event versions, modality, provenance and strongest-link sorting: formatting.
- TemporalAssociator.Associator.Ingest: a zero time constant or a zero slowness of forgetting, on which the source divides by zero.
- selectivity, temporal_stability and evidence_score of the associator: single expressions over the modelled state.
- Comparing 8-bit fingerprints: expand_bounded_structural_fingerprint copies them into the 64-bit form, whose comparison is modelled.
- benchmarks, corpus generation, the demonstration programs and the other experiment scripts.
