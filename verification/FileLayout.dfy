/**
  Where every field of the two files stands, by its offset from the beginning.
*/
module FileLayout {
  import opened Words
  import opened Common
  import opened ByteFormat
  import opened HierarchicalMemory
  import opened TrailRecovery
  import opened RuleRecovery
  import Hierarchical = HierarchicalPersistence
  import opened ProtectedPersistence
  import Integrity

  /** The bytes of a field stand at `from`. */
  ghost predicate Field(file: seq<Byte>, from: nat, bytes: seq<Byte>) {
    from + |bytes| <= |file| && file[from..from + |bytes|] == bytes
  }

  /** Everything from `from` on is `rest`. */
  ghost predicate From(file: seq<Byte>, from: nat, rest: seq<Byte>) {
    from <= |file| && file[from..] == rest
  }

  lemma Begins(file: seq<Byte>)
    ensures From(file, 0, file)
  {}

  /** A field, and what follows it. */
  lemma Next(file: seq<Byte>, from: nat, bytes: seq<Byte>, rest: seq<Byte>)
    requires From(file, from, bytes + rest)
    ensures Field(file, from, bytes) && From(file, from + |bytes|, rest)
  {
    var tail := file[from..];
    assert tail[..|bytes|] == bytes && tail[|bytes|..] == rest;
    assert file[from + |bytes|..] == tail[|bytes|..];
    assert file[from..from + |bytes|] == tail[..|bytes|];
  }

  // ---------- lists of records ----------

  /** From `from` on the file holds these records, and then `rest`. */
  function Remaining<T>(file: seq<Byte>, write: (T, seq<Byte>) -> seq<Byte>, rest: seq<Byte>): (nat, seq<T>) -> bool {
    (from: nat, xs: seq<T>) => from <= |file| && file[from..] == ManyThen(write, xs, rest)
  }

  /** Records of one size, `i` of them passed. */
  lemma {:induction false} Steps<T(!new)>(left: (nat, seq<T>) -> bool, size: nat, from: nat, xs: seq<T>, i: nat)
    requires forall f: nat, ys: seq<T> :: ys != [] && left(f, ys) ==> left(f + size, ys[1..])
    requires left(from, xs) && i <= |xs|
    ensures left(from + size * i, xs[i..])
    decreases i
  {
    if i == 0 {
      assert xs[0..] == xs;
    } else {
      Steps(left, size, from + size, xs[1..], i - 1);
      assert xs[1..][i - 1..] == xs[i..];
      assert from + size + size * (i - 1) == from + size * i;
    }
  }

  // ---------- the hierarchical state ----------

  /** A relation takes 36 bytes: id, left and right in eight each, the layer in four, the uses in eight. */
  lemma NodeLayout(file: seq<Byte>, from: nat, n: RelationNode, rest: seq<Byte>)
    requires From(file, from, Hierarchical.NodeThen(n, rest))
    ensures Field(file, from, ToBytes(n.id, 8)) && Field(file, from + 8, ToBytes(n.left, 8))
    ensures Field(file, from + 16, ToBytes(n.right, 8)) && Field(file, from + 24, ToBytes(n.layer, 4))
    ensures Field(file, from + 28, ToBytes(n.refCount, 8)) && From(file, from + 36, rest)
  {
    var s4 := ToBytes(n.refCount, 8) + rest;
    var s3 := ToBytes(n.layer, 4) + s4;
    var s2 := ToBytes(n.right, 8) + s3;
    Next(file, from, ToBytes(n.id, 8), ToBytes(n.left, 8) + s2);
    Next(file, from + 8, ToBytes(n.left, 8), s2);
    Next(file, from + 16, ToBytes(n.right, 8), s3);
    Next(file, from + 24, ToBytes(n.layer, 4), s4);
    Next(file, from + 28, ToBytes(n.refCount, 8), rest);
  }

  lemma NodesFrom(file: seq<Byte>, rest: seq<Byte>, from: nat, rels: Relations)
    requires rels != [] && Remaining(file, Hierarchical.NodeThen, rest)(from, rels)
    ensures Remaining(file, Hierarchical.NodeThen, rest)(from + 36, rels[1..])
  {
    var next := ManyThen(Hierarchical.NodeThen, rels[1..], rest);
    assert ManyThen(Hierarchical.NodeThen, rels, rest) == Hierarchical.NodeThen(rels[0], next);
    NodeLayout(file, from, rels[0], next);
  }

  lemma NodesLayout(file: seq<Byte>, from: nat, rels: Relations, rest: seq<Byte>, i: nat)
    requires From(file, from, ManyThen(Hierarchical.NodeThen, rels, rest)) && i <= |rels|
    ensures From(file, from + 36 * i, ManyThen(Hierarchical.NodeThen, rels[i..], rest))
  {
    var left := Remaining(file, Hierarchical.NodeThen, rest);
    forall f: nat, xs: Relations | xs != [] && left(f, xs)
      ensures left(f + 36, xs[1..])
    {
      NodesFrom(file, rest, f, xs);
    }
    Steps(left, 36, from, rels, i);
  }

  lemma NodeAt(file: seq<Byte>, rels: Relations, rest: seq<Byte>, i: nat)
    requires From(file, 20, ManyThen(Hierarchical.NodeThen, rels, rest)) && i < |rels|
    ensures var at := 20 + 36 * i;
            && Field(file, at, ToBytes(rels[i].id, 8)) && Field(file, at + 8, ToBytes(rels[i].left, 8))
            && Field(file, at + 16, ToBytes(rels[i].right, 8)) && Field(file, at + 24, ToBytes(rels[i].layer, 4))
            && Field(file, at + 28, ToBytes(rels[i].refCount, 8))
  {
    NodesLayout(file, 20, rels, rest, i);
    var left := rels[i..];
    assert left[0] == rels[i];
    NodeLayout(file, 20 + 36 * i, left[0], ManyThen(Hierarchical.NodeThen, left[1..], rest));
  }

  /** The saved file: magic, version, count, relations of 36 bytes each, checksum of all before it. */
  lemma HierarchicalLayout(rels: Relations, i: nat)
    requires i < |rels|
    ensures var file, at := Hierarchical.Saved(rels), 20 + 36 * i;
            && Field(file, 0, [0x42, 0x49, 0x54, 0x48, 0x49, 0x45, 0x52, 0x31]) && Field(file, 8, ToBytes(1, 4))
            && Field(file, 12, ToBytes(|rels|, 8))
            && Field(file, at, ToBytes(rels[i].id, 8)) && Field(file, at + 8, ToBytes(rels[i].left, 8))
            && Field(file, at + 16, ToBytes(rels[i].right, 8)) && Field(file, at + 24, ToBytes(rels[i].layer, 4))
            && Field(file, at + 28, ToBytes(rels[i].refCount, 8))
  {
    HeadLayout(rels);
    NodeAt(Hierarchical.Saved(rels), rels, Checksum(Hierarchical.Payload(rels)), i);
  }

  function Checksum(payload: seq<Byte>): seq<Byte> {
    ToBytes(Integrity.AbsorbAll(Integrity.OFFSET, payload), 8)
  }

  lemma HeadLayout(rels: Relations)
    ensures var file := Hierarchical.Saved(rels);
            && Field(file, 0, [0x42, 0x49, 0x54, 0x48, 0x49, 0x45, 0x52, 0x31]) && Field(file, 8, ToBytes(1, 4))
            && Field(file, 12, ToBytes(|rels|, 8))
            && From(file, 20, ManyThen(Hierarchical.NodeThen, rels, Checksum(Hierarchical.Payload(rels))))
  {
    var file, end := Hierarchical.Saved(rels), Checksum(Hierarchical.Payload(rels));
    Hierarchical.PayloadThen(rels, end);
    var nodes := ManyThen(Hierarchical.NodeThen, rels, end);
    Begins(file);
    Next(file, 0, Hierarchical.MAGIC, ToBytes(1, 4) + (ToBytes(|rels|, 8) + nodes));
    Next(file, 8, ToBytes(1, 4), ToBytes(|rels|, 8) + nodes);
    Next(file, 12, ToBytes(|rels|, 8), nodes);
  }

  /** The last eight bytes of a file are the hash of all before them. */
  lemma ChecksumLayout(payload: seq<Byte>)
    ensures |Sealed(payload)| == |payload| + 8 && Sealed(payload)[..|payload|] == payload
    ensures Field(Sealed(payload), |payload|, Checksum(payload))
  {
    Begins(Sealed(payload));
    Next(Sealed(payload), 0, payload, Checksum(payload) + []);
  }

  // ---------- the protected snapshot ----------

  /** A rule takes 41 bytes: four words, one byte for the profile, and the hash. */
  lemma RuleLayout(file: seq<Byte>, from: nat, r: RuleRecord, rest: seq<Byte>)
    requires From(file, from, RuleThen(r, rest))
    ensures Field(file, from, ToBytes(r.rule.id, 8)) && Field(file, from + 8, ToBytes(r.rule.left, 8))
    ensures Field(file, from + 16, ToBytes(r.rule.right, 8)) && Field(file, from + 24, ToBytes(r.rule.frequency, 8))
    ensures Field(file, from + 32, [if r.profile.Light? then 2 else if r.profile.Medium? then 4 else 6])
    ensures Field(file, from + 33, ToBytes(r.hash, 8))
    ensures From(file, from + 41, rest)
  {
    var s5 := ToBytes(r.hash, 8) + rest;
    var s4 := [ProfileByte(r.profile)] + s5;
    var s3 := ToBytes(r.rule.frequency, 8) + s4;
    var s2 := ToBytes(r.rule.right, 8) + s3;
    OneByte(ProfileByte(r.profile));
    Next(file, from, ToBytes(r.rule.id, 8), ToBytes(r.rule.left, 8) + s2);
    Next(file, from + 8, ToBytes(r.rule.left, 8), s2);
    Next(file, from + 16, ToBytes(r.rule.right, 8), s3);
    Next(file, from + 24, ToBytes(r.rule.frequency, 8), s4);
    Next(file, from + 32, [ProfileByte(r.profile)], s5);
    Next(file, from + 33, ToBytes(r.hash, 8), rest);
  }

  lemma OneByte(b: Byte)
    ensures ToBytes(b, 1) == [b]
  {
    assert ToBytes(b / 256, 0) == [];
  }

  lemma LanesLayout(file: seq<Byte>, from: nat, p: seq<Byte>, q: seq<Byte>, rest: seq<Byte>)
    requires |p| == 8 && |q| == 8 && From(file, from, LanesThen(p, q, rest))
    ensures Field(file, from, p) && Field(file, from + 8, q) && From(file, from + 16, rest)
  {
    Next(file, from, p, q + rest);
    Next(file, from + 8, q, rest);
  }

  /** A parity group takes 80 bytes: where it begins, how many, then P and Q of the four fields. */
  lemma GroupLayout(file: seq<Byte>, from: nat, g: RuleDualParityGroup, rest: seq<Byte>)
    requires From(file, from, GroupThen(g, rest))
    ensures Field(file, from, ToBytes(g.beginIndex, 8)) && Field(file, from + 8, ToBytes(g.count, 8))
    ensures Field(file, from + 16, g.pId) && Field(file, from + 24, g.qId)
    ensures Field(file, from + 32, g.pLeft) && Field(file, from + 40, g.qLeft)
    ensures Field(file, from + 48, g.pRight) && Field(file, from + 56, g.qRight)
    ensures Field(file, from + 64, g.pFrequency) && Field(file, from + 72, g.qFrequency)
    ensures From(file, from + 80, rest)
  {
    var s3 := LanesThen(g.pFrequency, g.qFrequency, rest);
    var s2 := LanesThen(g.pRight, g.qRight, s3);
    var s1 := LanesThen(g.pLeft, g.qLeft, s2);
    var s0 := LanesThen(g.pId, g.qId, s1);
    Next(file, from, ToBytes(g.beginIndex, 8), ToBytes(g.count, 8) + s0);
    Next(file, from + 8, ToBytes(g.count, 8), s0);
    LanesLayout(file, from + 16, g.pId, g.qId, s1);
    LanesLayout(file, from + 32, g.pLeft, g.qLeft, s2);
    LanesLayout(file, from + 48, g.pRight, g.qRight, s3);
    LanesLayout(file, from + 64, g.pFrequency, g.qFrequency, rest);
  }

  /** The parities of a block of a trail take 32 bytes. */
  lemma BlockLayout(file: seq<Byte>, from: nat, b: TrailDualParityBlock, rest: seq<Byte>)
    requires From(file, from, BlockThen(b, rest))
    ensures Field(file, from, ToBytes(b.beginIndex, 8)) && Field(file, from + 8, ToBytes(b.count, 8))
    ensures Field(file, from + 16, b.p) && Field(file, from + 24, b.q) && From(file, from + 32, rest)
  {
    Next(file, from, ToBytes(b.beginIndex, 8), ToBytes(b.count, 8) + LanesThen(b.p, b.q, rest));
    Next(file, from + 8, ToBytes(b.count, 8), LanesThen(b.p, b.q, rest));
    LanesLayout(file, from + 16, b.p, b.q, rest);
  }

  lemma WordsFrom(file: seq<Byte>, rest: seq<Byte>, from: nat, words: seq<Word>)
    requires words != [] && Remaining(file, WordThen, rest)(from, words)
    ensures Remaining(file, WordThen, rest)(from + 8, words[1..]) && Field(file, from, ToBytes(words[0], 8))
  {
    var next := ManyThen(WordThen, words[1..], rest);
    assert ManyThen(WordThen, words, rest) == WordThen(words[0], next);
    Next(file, from, ToBytes(words[0], 8), next);
  }

  lemma WordsLayout(file: seq<Byte>, from: nat, words: seq<Word>, rest: seq<Byte>, i: nat)
    requires From(file, from, ManyThen(WordThen, words, rest)) && i <= |words|
    ensures From(file, from + 8 * i, ManyThen(WordThen, words[i..], rest))
    ensures i < |words| ==> Field(file, from + 8 * i, ToBytes(words[i], 8))
  {
    var left := Remaining<Word>(file, WordThen, rest);
    forall f: nat, xs: seq<Word> | xs != [] && left(f, xs)
      ensures left(f + 8, xs[1..])
    {
      WordsFrom(file, rest, f, xs);
    }
    Steps(left, 8, from, words, i);
    if i < |words| {
      WordsFrom(file, rest, from + 8 * i, words[i..]);
    }
  }

  lemma AllWords(file: seq<Byte>, from: nat, words: seq<Word>, rest: seq<Byte>)
    requires From(file, from, ManyThen(WordThen, words, rest))
    ensures From(file, from + 8 * |words|, rest) && WordsAt(file, from, words)
  {
    WordsLayout(file, from, words, rest, |words|);
    assert words[|words|..] == [];
    forall i | 0 <= i < |words|
      ensures Field(file, from + 8 * i, ToBytes(words[i], 8))
    {
      WordsLayout(file, from, words, rest, i);
    }
  }

  /** Each word of a list in eight bytes. */
  lemma ListEnds(file: seq<Byte>, at: nat, words: seq<Word>, rest: seq<Byte>, end: nat)
    requires From(file, at, ManyThen(WordThen, words, rest)) && end == at + 8 * |words|
    ensures WordsAt(file, at, words) && From(file, end, rest)
  {
    AllWords(file, at, words, rest);
  }

  /** A list begins with how many words there are. */
  lemma ListBegins(file: seq<Byte>, from: nat, words: seq<Word>, rest: seq<Byte>)
    requires From(file, from, ListThen(WordThen, words, rest))
    ensures Field(file, from, ToBytes(|words|, 8)) && From(file, from + 8, ManyThen(WordThen, words, rest))
  {
    Next(file, from, ToBytes(|words|, 8), ManyThen(WordThen, words, rest));
  }

  ghost predicate WordsAt(file: seq<Byte>, from: nat, words: seq<Word>) {
    forall i :: 0 <= i < |words| ==> Field(file, from + 8 * i, ToBytes(words[i], 8))
  }

  lemma TrailHeadLayout(file: seq<Byte>, from: nat, t: ProtectedTrail, rest: seq<Byte>)
    requires From(file, from, ProfileThen(t.profile, ToBytes(t.blockSize, 8) + WordThen(t.trailHash, rest)))
    ensures Field(file, from, [ProfileByte(t.profile)]) && Field(file, from + 1, ToBytes(t.blockSize, 8))
    ensures Field(file, from + 9, ToBytes(t.trailHash, 8)) && From(file, from + 17, rest)
  {
    OneByte(ProfileByte(t.profile));
    Next(file, from, [ProfileByte(t.profile)], ToBytes(t.blockSize, 8) + (ToBytes(t.trailHash, 8) + rest));
    Next(file, from + 1, ToBytes(t.blockSize, 8), ToBytes(t.trailHash, 8) + rest);
    Next(file, from + 9, ToBytes(t.trailHash, 8), rest);
  }

  /** What follows the symbols of a trail. */
  function AfterSymbols(t: ProtectedTrail, rest: seq<Byte>): seq<Byte> {
    ListThen(WordThen, t.blockHashes, ListThen(BlockThen, t.dualParity, rest))
  }

  /** A trail begins with profile, block size, hash, the number of symbols and the symbols. */
  lemma SymbolsLayout(file: seq<Byte>, from: nat, t: ProtectedTrail, rest: seq<Byte>, hashes: nat)
    requires From(file, from, TrailThen(t, rest)) && hashes == from + 25 + 8 * |t.trail|
    ensures Field(file, from, [ProfileByte(t.profile)]) && Field(file, from + 1, ToBytes(t.blockSize, 8))
    ensures Field(file, from + 9, ToBytes(t.trailHash, 8)) && Field(file, from + 17, ToBytes(|t.trail|, 8))
    ensures WordsAt(file, from + 25, t.trail) && From(file, hashes, AfterSymbols(t, rest))
  {
    TrailHeadLayout(file, from, t, ListThen(WordThen, t.trail, AfterSymbols(t, rest)));
    ListBegins(file, from + 17, t.trail, AfterSymbols(t, rest));
    ListEnds(file, from + 25, t.trail, AfterSymbols(t, rest), hashes);
  }

  /** Then the number of block hashes, the hashes, the number of parity blocks, and these. */
  lemma HashesLayout(file: seq<Byte>, hashes: nat, t: ProtectedTrail, rest: seq<Byte>, blocks: nat)
    requires From(file, hashes, AfterSymbols(t, rest)) && blocks == hashes + 8 + 8 * |t.blockHashes|
    ensures Field(file, hashes, ToBytes(|t.blockHashes|, 8)) && WordsAt(file, hashes + 8, t.blockHashes)
    ensures Field(file, blocks, ToBytes(|t.dualParity|, 8))
    ensures From(file, blocks + 8, ManyThen(BlockThen, t.dualParity, rest))
  {
    var last := ListThen(BlockThen, t.dualParity, rest);
    ListBegins(file, hashes, t.blockHashes, last);
    ListEnds(file, hashes + 8, t.blockHashes, last, blocks);
    Next(file, blocks, ToBytes(|t.dualParity|, 8), ManyThen(BlockThen, t.dualParity, rest));
  }

  /** The head of a snapshot: magic, version, lanes and the three counts; then rules, parity groups and trails. */
  lemma SnapshotLayout(s: Snapshot)
    requires MetadataMatches(s)
    ensures var file := Saved(s).value;
            && Field(file, 0, [0x42, 0x49, 0x54, 0x50, 0x52, 0x4f, 0x54, 0x32])
            && Field(file, 8, ToBytes(s.version, 4)) && Field(file, 12, ToBytes(s.interleaveLanes, 8))
            && Field(file, 20, ToBytes(|s.rules|, 8)) && Field(file, 28, ToBytes(|s.ruleDualParity|, 8))
            && Field(file, 36, ToBytes(|s.trails|, 8))
            && From(file, 44, ManyThen(RuleThen, Records(s), ManyThen(GroupThen, s.ruleDualParity,
                              ManyThen(TrailThen, s.trails, Checksum(PayloadThen(s, []))))))
  {
    var file, end := Saved(s).value, Checksum(PayloadThen(s, []));
    PayloadAppends(s, end);
    var body := BodyThen(s, end);
    var s3 := ToBytes(|s.trails|, 8) + body;
    var s2 := ToBytes(|s.ruleDualParity|, 8) + s3;
    var s1 := ToBytes(|s.rules|, 8) + s2;
    var s0 := ToBytes(s.interleaveLanes, 8) + s1;
    Begins(file);
    Next(file, 0, MAGIC, ToBytes(s.version, 4) + s0);
    Next(file, 8, ToBytes(s.version, 4), s0);
    Next(file, 12, ToBytes(s.interleaveLanes, 8), s1);
    Next(file, 20, ToBytes(|s.rules|, 8), s2);
    Next(file, 28, ToBytes(|s.ruleDualParity|, 8), s3);
    Next(file, 36, ToBytes(|s.trails|, 8), body);
  }
}
