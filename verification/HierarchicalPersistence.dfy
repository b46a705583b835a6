/**
  The saved form of a hierarchical memory, and what a restart preserves.
*/
module HierarchicalPersistence {
  import opened Words
  import opened Common
  import opened Expansion
  import opened HierarchicalMemory
  import opened ByteFormat
  import Integrity

  /** "BITHIER1" */
  const MAGIC: seq<Byte> := [0x42, 0x49, 0x54, 0x48, 0x49, 0x45, 0x52, 0x31]
  const VERSION: nat := 1
  const MAX_RELATIONS: nat := 100000000
  const TRUNCATED := "truncated hierarchical state"
  const MISSING := "hierarchical state missing checksum"
  const MISMATCH := "hierarchical state checksum mismatch"
  const BAD_MAGIC := "invalid hierarchical state magic"
  const BAD_VERSION := "unsupported hierarchical state version"
  const TOO_MANY := "hierarchical relation count exceeds safety limit"
  const BAD_RELATIONS := "invalid hierarchical relations"

  // ---------- the format ----------

  function NodeThen(n: RelationNode, rest: seq<Byte>): seq<Byte> {
    ToBytes(n.id, 8) + (ToBytes(n.left, 8) + (ToBytes(n.right, 8) + (ToBytes(n.layer, 4)
      + (ToBytes(n.refCount, 8) + rest))))
  }

  function TakeNode(s: seq<Byte>): Result<Taken<RelationNode>> {
    var id :- Take(s, 8, TRUNCATED);
    var left :- Take(id.rest, 8, TRUNCATED);
    var right :- Take(left.rest, 8, TRUNCATED);
    var layer :- Take(right.rest, 4, TRUNCATED);
    var refCount :- TakeWord(layer.rest, TRUNCATED);
    Ok(Taken(RelationNode(id.value, left.value, right.value, layer.value, refCount.value), refCount.rest))
  }

  /** The widths of the fields: 64-bit ids, a 32-bit layer. */
  predicate NodeFits(n: RelationNode) {
    n.id < WORD && n.left < WORD && n.right < WORD && n.layer < 0x1_0000_0000
  }

  lemma NodeWritten(n: RelationNode, rest: seq<Byte>)
    requires NodeFits(n)
    ensures TakeNode(NodeThen(n, rest)) == Ok(Taken(n, rest))
  {
    Pow256Values();
    var s4 := WordThen(n.refCount, rest);
    var s3 := ToBytes(n.layer, 4) + s4;
    var s2 := ToBytes(n.right, 8) + s3;
    var s1 := ToBytes(n.left, 8) + s2;
    TakeWritten(n.id, 8, s1, TRUNCATED);
    TakeWritten(n.left, 8, s2, TRUNCATED);
    TakeWritten(n.right, 8, s3, TRUNCATED);
    TakeWritten(n.layer, 4, s4, TRUNCATED);
    WordWritten(n.refCount, rest, TRUNCATED);
  }

  function Payload(rels: Relations): seq<Byte> {
    MAGIC + (ToBytes(VERSION, 4) + (ToBytes(|rels|, 8) + ManyThen(NodeThen, rels, [])))
  }

  function Saved(rels: Relations): seq<Byte> {
    Sealed(Payload(rels))
  }

  function Parsed(file: seq<Byte>): Result<Relations> {
    if ChecksumError(file, MISSING, MISMATCH).Some? then Err(ChecksumError(file, MISSING, MISMATCH).value)
    else
      var magic :- TakeBytes(file, 8, BAD_MAGIC);
      if magic.value != MAGIC then Err(BAD_MAGIC)
      else
        var version :- Take(magic.rest, 4, TRUNCATED);
        if version.value != VERSION then Err(BAD_VERSION)
        else
          var count :- Take(version.rest, 8, TRUNCATED);
          if count.value > MAX_RELATIONS then Err(TOO_MANY)
          else
            var nodes :- TakeMany(TakeNode, count.rest, count.value);
            Ok(nodes.value)
  }

  /** The relations a memory holds after loading the file. */
  ghost function Loaded(file: seq<Byte>): Result<Relations> {
    var rels :- Parsed(file);
    if Restorable(rels) then Ok(rels) else Err(BAD_RELATIONS)
  }

  // ---------- save, then load ----------

  ghost predicate Fits(rels: Relations) {
    |rels| < WORD && forall i :: 0 <= i < |rels| ==> NodeFits(rels[i])
  }

  lemma PayloadThen(rels: Relations, rest: seq<Byte>)
    ensures Payload(rels) + rest
         == MAGIC + (ToBytes(VERSION, 4) + (ToBytes(|rels|, 8) + ManyThen(NodeThen, rels, rest)))
  {
    NodesAppend();
    ManyAppends(NodeThen, rels, [], rest);
    assert [] + rest == rest;
    var nodes := ManyThen(NodeThen, rels, []);
    Regroup(MAGIC, ToBytes(VERSION, 4) + (ToBytes(|rels|, 8) + nodes), rest);
    Regroup(ToBytes(VERSION, 4), ToBytes(|rels|, 8) + nodes, rest);
    Regroup(ToBytes(|rels|, 8), nodes, rest);
  }

  lemma NodesAppend()
    ensures Appends(NodeThen)
  {
    forall n: RelationNode, s: seq<Byte>, rest: seq<Byte>
      ensures NodeThen(n, s) + rest == NodeThen(n, s + rest)
    {
      NodeAppends(n, s, rest);
    }
  }

  lemma NodeAppends(n: RelationNode, s: seq<Byte>, rest: seq<Byte>)
    ensures NodeThen(n, s) + rest == NodeThen(n, s + rest)
  {
    var s4 := ToBytes(n.refCount, 8) + s;
    var s3 := ToBytes(n.layer, 4) + s4;
    var s2 := ToBytes(n.right, 8) + s3;
    var s1 := ToBytes(n.left, 8) + s2;
    Regroup(ToBytes(n.id, 8), s1, rest);
    Regroup(ToBytes(n.left, 8), s2, rest);
    Regroup(ToBytes(n.right, 8), s3, rest);
    Regroup(ToBytes(n.layer, 4), s4, rest);
    Regroup(ToBytes(n.refCount, 8), s, rest);
  }

  lemma NodesInverse()
    ensures Inverse(TakeNode, NodeThen, NodeFits)
  {
    forall n: RelationNode, rest: seq<Byte> | NodeFits(n)
      ensures TakeNode(NodeThen(n, rest)) == Ok(Taken(n, rest))
    {
      NodeWritten(n, rest);
    }
  }

  /** A saved table is read back exactly when it is within the limit of the reader. */
  lemma ParsedSaved(rels: Relations)
    requires Fits(rels)
    ensures Parsed(Saved(rels)) == if |rels| <= MAX_RELATIONS then Ok(rels) else Err(TOO_MANY)
  {
    SealedIsIntact(Payload(rels));
    ParsedIntact(rels, ToBytes(Integrity.AbsorbAll(Integrity.OFFSET, Payload(rels)), 8));
  }

  /** Whatever follows the relations, as long as the checksum agrees. */
  lemma ParsedIntact(rels: Relations, rest: seq<Byte>)
    requires Fits(rels) && Intact(Payload(rels) + rest)
    ensures Parsed(Payload(rels) + rest) == if |rels| <= MAX_RELATIONS then Ok(rels) else Err(TOO_MANY)
  {
    PayloadThen(rels, rest);
    ParsedFrom(Payload(rels) + rest, rels, rest);
  }

  lemma ParsedFrom(file: seq<Byte>, rels: Relations, rest: seq<Byte>)
    requires Fits(rels) && Intact(file)
    requires file == MAGIC + (ToBytes(VERSION, 4) + (ToBytes(|rels|, 8) + ManyThen(NodeThen, rels, rest)))
    ensures Parsed(file) == if |rels| <= MAX_RELATIONS then Ok(rels) else Err(TOO_MANY)
  {
    var nodes := ManyThen(NodeThen, rels, rest);
    Pow256Values();
    TakeBytesWritten(MAGIC, ToBytes(VERSION, 4) + (ToBytes(|rels|, 8) + nodes), BAD_MAGIC);
    TakeWritten(VERSION, 4, ToBytes(|rels|, 8) + nodes, TRUNCATED);
    TakeWritten(|rels|, 8, nodes, TRUNCATED);
    NodesInverse();
    ManyWritten(TakeNode, NodeThen, NodeFits, rels, rest);
  }

  /** Saving and loading gives back the same relations, and only a table over the limit is refused. */
  lemma LoadedSaved(rels: Relations)
    requires Fits(rels) && Restorable(rels)
    ensures Loaded(Saved(rels)) == if |rels| <= MAX_RELATIONS then Ok(rels) else Err(TOO_MANY)
  {
    ParsedSaved(rels);
  }

  /** A file with one damaged byte is never loaded. */
  lemma DamagedFileRefused(rels: Relations, i: nat, b: Byte)
    requires i < |Saved(rels)| && b != Saved(rels)[i]
    ensures Loaded(Saved(rels)[i := b]) == Err(MISMATCH)
  {
    OneByteBreaksSeal(Payload(rels), i, b);
    assert |Saved(rels)| >= 8;
  }

  // ---------- a restart is unobservable ----------

  /** The index is determined by the relations. */
  lemma IndexUnique(rels: Relations, index: map<Pair, SymbolId>, other: map<Pair, SymbolId>)
    requires WellFormed(rels) && Indexed(rels, index) && Indexed(rels, other)
    ensures index == other
  {
    forall k | k in index
      ensures k in other && other[k] == index[k]
    {
      SameName(rels, index, other, k);
    }
    forall k | k in other
      ensures k in index
    {
      SameName(rels, other, index, k);
    }
  }

  lemma SameName(rels: Relations, index: map<Pair, SymbolId>, other: map<Pair, SymbolId>, k: Pair)
    requires WellFormed(rels) && Indexed(rels, index) && Indexed(rels, other) && k in index
    ensures k in other && other[k] == index[k]
  {
    IndexFinds(rels, index, k.0, k.1);
    IndexFinds(rels, other, k.0, k.1);
  }

  lemma {:induction false} PairUpLayers(rels: Relations, trail: seq<SymbolId>, layer: nat, bound: nat)
    requires LayersBelow(rels, bound) && layer < bound
    ensures LayersBelow(PairUp(rels, trail, layer).rels, bound)
    decreases |trail|
  {
    if |trail| >= 2 {
      FindSound(rels, trail[0], trail[1]);
      PairUpLayers(GetOrCreate(rels, trail[0], trail[1], layer).0, trail[2..], layer, bound);
    }
  }

  ghost predicate LayersBelow(rels: Relations, bound: nat) {
    forall i :: 0 <= i < |rels| ==> rels[i].layer < bound
  }

  lemma {:induction false} LayersLayers(rels: Relations, trail: seq<SymbolId>, layer: nat, maxLayers: nat, bound: nat)
    requires LayersBelow(rels, bound) && maxLayers < bound
    ensures LayersBelow(Layers(rels, trail, layer, maxLayers).rels, bound)
    decreases |trail|
  {
    if layer <= maxLayers && |trail| >= 2 {
      PairUpLayers(rels, trail, layer, bound);
      var p := PairUp(rels, trail, layer);
      LayersLayers(p.rels, p.trail, layer + 1, maxLayers, bound);
    }
  }

  /** Every memory reached by encodes with 32-bit layer counts can be installed again. */
  lemma {:induction false} ReachableIsRestorable(jobs: seq<Job>)
    requires forall i :: 0 <= i < |jobs| ==> jobs[i].maxLayers < 0x1_0000_0000
    ensures Restorable(History(jobs)) && LayersBelow(History(jobs), 0x1_0000_0000)
  {
    HistoryInvariant(jobs);
    if jobs != [] {
      var front, last := jobs[..|jobs| - 1], jobs[|jobs| - 1];
      ReachableIsRestorable(front);
      LayersPositive(History(front), BytesAsSymbols(last.data), 1, last.maxLayers);
      LayersLayers(History(front), BytesAsSymbols(last.data), 1, last.maxLayers, 0x1_0000_0000);
    }
  }

  lemma RestorableFits(rels: Relations)
    requires Restorable(rels) && LayersBelow(rels, 0x1_0000_0000) && BASE + |rels| <= WORD
    ensures Fits(rels)
  {
    forall i | 0 <= i < |rels|
      ensures NodeFits(rels[i])
    {
      assert Pairs(rels)[i] == (rels[i].left, rels[i].right);
    }
  }

  /** A history of encodes carried on from given relations. */
  function Continued(rels: Relations, jobs: seq<Job>): Relations {
    if jobs == [] then rels
    else var last := jobs[|jobs| - 1]; Encoded(Continued(rels, jobs[..|jobs| - 1]), last.data, last.maxLayers).rels
  }

  lemma {:induction false} HistoryContinues(before: seq<Job>, after: seq<Job>)
    ensures Continued(History(before), after) == History(before + after)
  {
    if after == [] {
      assert before + after == before;
    } else {
      var n := |after| - 1;
      HistoryContinues(before, after[..n]);
      assert (before + after)[..|before + after| - 1] == before + after[..n];
    }
  }

  /**
    Saving and loading between two encodes changes nothing that follows: the relations, and hence every later
    trail and id, are those of the same history without a restart. The one exception is a table over the limit.
  */
  lemma RestartUnobservable(before: seq<Job>, after: seq<Job>)
    requires forall i :: 0 <= i < |before| ==> before[i].maxLayers < 0x1_0000_0000
    requires BASE + |History(before)| <= WORD
    ensures Loaded(Saved(History(before))).Ok? <==> |History(before)| <= MAX_RELATIONS
    ensures |History(before)| <= MAX_RELATIONS ==>
      Continued(Loaded(Saved(History(before))).value, after) == History(before + after)
  {
    ReachableIsRestorable(before);
    RestorableFits(History(before));
    LoadedSaved(History(before));
    HistoryContinues(before, after);
  }

  // ---------- the operations ----------

  method WriteNode(writer: Writer, n: RelationNode, ghost rest: seq<Byte>)
    modifies writer
    ensures writer.out + rest == old(writer.out) + NodeThen(n, rest)
  {
    ghost var s4 := ToBytes(n.refCount, 8) + rest;
    ghost var s3 := ToBytes(n.layer, 4) + s4;
    ghost var s2 := ToBytes(n.right, 8) + s3;
    writer.WritePod(n.id, 8, ToBytes(n.left, 8) + s2);
    writer.WritePod(n.left, 8, s2);
    writer.WritePod(n.right, 8, s3);
    writer.WritePod(n.layer, 4, s4);
    writer.WritePod(n.refCount, 8, rest);
  }

  method SaveHierarchicalState(memory: Memory) returns (file: seq<Byte>)
    ensures file == Saved(memory.relations)
  {
    var rels := memory.relations;
    var writer := new Writer();
    ghost var nodes := ManyThen(NodeThen, rels, []);
    writer.WriteBytes(MAGIC, ToBytes(VERSION, 4) + (ToBytes(|rels|, 8) + nodes));
    writer.WritePod(VERSION, 4, ToBytes(|rels|, 8) + nodes);
    writer.WritePod(|rels|, 8, nodes);
    assert rels[0..] == rels;
    for i := 0 to |rels|
      invariant writer.out + ManyThen(NodeThen, rels[i..], []) == Payload(rels)
    {
      assert rels[i..][1..] == rels[i + 1..];
      WriteNode(writer, rels[i], ManyThen(NodeThen, rels[i + 1..], []));
    }
    assert writer.out + [] == writer.out;
    var checksum := ChecksumPrefix(writer.out);
    writer.WritePod(checksum, 8, []);
    file := writer.out;
  }

  method ReadNode(reader: Reader) returns (r: Result<RelationNode>)
    requires reader.Valid()
    modifies reader
    ensures reader.Took(r, TakeNode(old(reader.Rest())))
  {
    var id :- reader.ReadPod(8, TRUNCATED);
    var left :- reader.ReadPod(8, TRUNCATED);
    var right :- reader.ReadPod(8, TRUNCATED);
    var layer :- reader.ReadPod(4, TRUNCATED);
    var refCount :- reader.ReadWord(TRUNCATED);
    r := Ok(RelationNode(id, left, right, layer, refCount));
  }

  method ReadNodes(reader: Reader, count: nat) returns (r: Result<Relations>)
    requires reader.Valid()
    modifies reader
    ensures reader.Took(r, TakeMany(TakeNode, old(reader.Rest()), count))
  {
    var rels: Relations := [];
    ghost var whole := TakeMany(TakeNode, reader.Rest(), count);
    PrependNothing(whole);
    for i := 0 to count
      invariant reader.Valid()
      invariant whole == Prepended(rels, TakeMany(TakeNode, reader.Rest(), count - i))
    {
      PrependStep(TakeNode, reader.Rest(), count - i, rels);
      var node :- ReadNode(reader);
      rels := rels + [node];
    }
    PrependLast(TakeNode, reader.Rest(), rels);
    r := Ok(rels);
  }

  method Parse(file: seq<Byte>) returns (r: Result<Relations>)
    ensures r == Parsed(file)
  {
    var rejected := VerifyChecksum(file, MISSING, MISMATCH);
    if rejected.Some? {
      return Err(rejected.value);
    }
    var reader := new Reader(file);
    var magic :- reader.ReadBytes(8, BAD_MAGIC);
    if magic != MAGIC {
      return Err(BAD_MAGIC);
    }
    var version :- reader.ReadPod(4, TRUNCATED);
    if version != VERSION {
      return Err(BAD_VERSION);
    }
    var count :- reader.ReadPod(8, TRUNCATED);
    if count > MAX_RELATIONS {
      return Err(TOO_MANY);
    }
    r := ReadNodes(reader, count);
  }

  /** Installs the relations of a file; a refused file leaves the memory as it was. */
  method LoadHierarchicalState(file: seq<Byte>, memory: Memory) returns (r: Result<()>)
    modifies memory
    ensures r.Ok? <==> Loaded(file).Ok?
    ensures r.Ok? ==> memory.Valid() && memory.relations == Loaded(file).value
    ensures r.Err? ==> r.reason == Loaded(file).reason
    ensures r.Err? ==> memory.relations == old(memory.relations) && memory.index == old(memory.index)
  {
    var rels :- Parse(file);
    var ok := memory.RestoreRelations(rels);
    r := if ok then Ok(()) else Err(BAD_RELATIONS);
  }
}
