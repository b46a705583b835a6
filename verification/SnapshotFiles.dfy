/**
  Writing and reading protected snapshots through a position in a file, against the format.
*/
module SnapshotFiles {
  import opened Words
  import opened Common
  import opened ByteFormat
  import opened ParityEquations
  import opened TrailRecovery
  import opened RuleRecovery
  import opened ProtectedPersistence

  // ---------- writing ----------

  method WriteLanes(writer: Writer, p: Lanes, q: Lanes, ghost rest: seq<Byte>)
    modifies writer
    ensures writer.out + rest == old(writer.out) + LanesThen(p, q, rest)
  {
    writer.WriteBytes(p, q + rest);
    writer.WriteBytes(q, rest);
  }

  method WriteRule(writer: Writer, rule: AdaptiveRule, profile: Profile, hash: Word, ghost rest: seq<Byte>)
    modifies writer
    ensures writer.out + rest == old(writer.out) + RuleThen(RuleRecord(rule, profile, hash), rest)
  {
    ghost var s5 := WordThen(hash, rest);
    ghost var s4 := ProfileThen(profile, s5);
    ghost var s3 := ToBytes(rule.frequency, 8) + s4;
    ghost var s2 := ToBytes(rule.right, 8) + s3;
    writer.WritePod(rule.id, 8, ToBytes(rule.left, 8) + s2);
    writer.WritePod(rule.left, 8, s2);
    writer.WritePod(rule.right, 8, s3);
    writer.WritePod(rule.frequency, 8, s4);
    writer.WritePod(ProfileByte(profile), 1, s5);
    writer.WritePod(hash, 8, rest);
  }

  method WriteGroup(writer: Writer, g: RuleDualParityGroup, ghost rest: seq<Byte>)
    modifies writer
    ensures writer.out + rest == old(writer.out) + GroupThen(g, rest)
  {
    ghost var s3 := LanesThen(g.pFrequency, g.qFrequency, rest);
    ghost var s2 := LanesThen(g.pRight, g.qRight, s3);
    ghost var s1 := LanesThen(g.pLeft, g.qLeft, s2);
    ghost var s0 := LanesThen(g.pId, g.qId, s1);
    writer.WritePod(g.beginIndex, 8, ToBytes(g.count, 8) + s0);
    writer.WritePod(g.count, 8, s0);
    WriteLanes(writer, g.pId, g.qId, s1);
    WriteLanes(writer, g.pLeft, g.qLeft, s2);
    WriteLanes(writer, g.pRight, g.qRight, s3);
    WriteLanes(writer, g.pFrequency, g.qFrequency, rest);
  }

  method WriteWords(writer: Writer, words: seq<Word>, ghost rest: seq<Byte>)
    modifies writer
    ensures writer.out + rest == old(writer.out) + ListThen(WordThen, words, rest)
  {
    ghost var whole := writer.out + ListThen(WordThen, words, rest);
    writer.WritePod(|words|, 8, ManyThen(WordThen, words, rest));
    assert words[0..] == words;
    for i := 0 to |words|
      invariant writer.out + ManyThen(WordThen, words[i..], rest) == whole
    {
      assert words[i..][1..] == words[i + 1..];
      writer.WritePod(words[i], 8, ManyThen(WordThen, words[i + 1..], rest));
    }
  }

  method WriteBlocks(writer: Writer, blocks: seq<TrailDualParityBlock>, ghost rest: seq<Byte>)
    modifies writer
    ensures writer.out + rest == old(writer.out) + ListThen(BlockThen, blocks, rest)
  {
    ghost var whole := writer.out + ListThen(BlockThen, blocks, rest);
    writer.WritePod(|blocks|, 8, ManyThen(BlockThen, blocks, rest));
    assert blocks[0..] == blocks;
    for i := 0 to |blocks|
      invariant writer.out + ManyThen(BlockThen, blocks[i..], rest) == whole
    {
      assert blocks[i..][1..] == blocks[i + 1..];
      var b := blocks[i];
      ghost var after := ManyThen(BlockThen, blocks[i + 1..], rest);
      ghost var s0 := LanesThen(b.p, b.q, after);
      writer.WritePod(b.beginIndex, 8, ToBytes(b.count, 8) + s0);
      writer.WritePod(b.count, 8, s0);
      WriteLanes(writer, b.p, b.q, after);
    }
  }

  method WriteTrail(writer: Writer, t: ProtectedTrail, ghost rest: seq<Byte>)
    modifies writer
    ensures writer.out + rest == old(writer.out) + TrailThen(t, rest)
  {
    ghost var s2 := ListThen(BlockThen, t.dualParity, rest);
    ghost var s1 := ListThen(WordThen, t.blockHashes, s2);
    ghost var s0 := ListThen(WordThen, t.trail, s1);
    writer.WritePod(ProfileByte(t.profile), 1, ToBytes(t.blockSize, 8) + WordThen(t.trailHash, s0));
    writer.WritePod(t.blockSize, 8, WordThen(t.trailHash, s0));
    writer.WritePod(t.trailHash, 8, s0);
    WriteWords(writer, t.trail, s1);
    WriteWords(writer, t.blockHashes, s2);
    WriteBlocks(writer, t.dualParity, rest);
  }

  method WriteHeader(writer: Writer, s: Snapshot)
    requires MetadataMatches(s) && writer.out == []
    modifies writer
    ensures writer.out + BodyThen(s, []) == PayloadThen(s, [])
  {
    ghost var body := BodyThen(s, []);
    ghost var s3 := ToBytes(|s.trails|, 8) + body;
    ghost var s2 := ToBytes(|s.ruleDualParity|, 8) + s3;
    ghost var s1 := ToBytes(|s.rules|, 8) + s2;
    ghost var s0 := ToBytes(s.interleaveLanes, 8) + s1;
    writer.WriteBytes(MAGIC, ToBytes(s.version, 4) + s0);
    writer.WritePod(s.version, 4, s0);
    writer.WritePod(s.interleaveLanes, 8, s1);
    writer.WritePod(|s.rules|, 8, s2);
    writer.WritePod(|s.ruleDualParity|, 8, s3);
    writer.WritePod(|s.trails|, 8, body);
  }

  method WriteRules(writer: Writer, s: Snapshot, ghost rest: seq<Byte>)
    requires MetadataMatches(s)
    modifies writer
    ensures writer.out + rest == old(writer.out) + ManyThen(RuleThen, Records(s), rest)
  {
    ghost var records := Records(s);
    ghost var whole := writer.out + ManyThen(RuleThen, records, rest);
    assert records[0..] == records;
    for i := 0 to |s.rules|
      invariant writer.out + ManyThen(RuleThen, records[i..], rest) == whole
    {
      assert records[i..][1..] == records[i + 1..];
      WriteRule(writer, s.rules[i], s.ruleProfiles[i], s.ruleHashes[i], ManyThen(RuleThen, records[i + 1..], rest));
    }
  }

  method WriteGroups(writer: Writer, groups: seq<RuleDualParityGroup>, ghost rest: seq<Byte>)
    modifies writer
    ensures writer.out + rest == old(writer.out) + ManyThen(GroupThen, groups, rest)
  {
    ghost var whole := writer.out + ManyThen(GroupThen, groups, rest);
    assert groups[0..] == groups;
    for i := 0 to |groups|
      invariant writer.out + ManyThen(GroupThen, groups[i..], rest) == whole
    {
      assert groups[i..][1..] == groups[i + 1..];
      WriteGroup(writer, groups[i], ManyThen(GroupThen, groups[i + 1..], rest));
    }
  }

  method WriteTrails(writer: Writer, trails: seq<ProtectedTrail>, ghost rest: seq<Byte>)
    modifies writer
    ensures writer.out + rest == old(writer.out) + ManyThen(TrailThen, trails, rest)
  {
    ghost var whole := writer.out + ManyThen(TrailThen, trails, rest);
    assert trails[0..] == trails;
    for i := 0 to |trails|
      invariant writer.out + ManyThen(TrailThen, trails[i..], rest) == whole
    {
      assert trails[i..][1..] == trails[i + 1..];
      WriteTrail(writer, trails[i], ManyThen(TrailThen, trails[i + 1..], rest));
    }
  }

  method SaveProtectedSnapshot(s: Snapshot) returns (r: Result<seq<Byte>>)
    ensures r == Saved(s)
  {
    if |s.ruleProfiles| != |s.rules| || |s.ruleHashes| != |s.rules| {
      return Err(METADATA);
    }
    var writer := new Writer();
    WriteHeader(writer, s);
    ghost var trails := ManyThen(TrailThen, s.trails, []);
    WriteRules(writer, s, ManyThen(GroupThen, s.ruleDualParity, trails));
    WriteGroups(writer, s.ruleDualParity, trails);
    WriteTrails(writer, s.trails, []);
    assert writer.out + [] == writer.out;
    var checksum := ChecksumPrefix(writer.out);
    writer.WritePod(checksum, 8, []);
    r := Ok(writer.out);
  }

  // ---------- reading ----------

  method ReadNext(reader: Reader) returns (r: Result<Word>)
    requires reader.Valid()
    modifies reader
    ensures reader.Took(r, TakeNext(old(reader.Rest())))
  {
    r := reader.ReadWord(TRUNCATED);
  }

  method ReadProfile(reader: Reader) returns (r: Result<Profile>)
    requires reader.Valid()
    modifies reader
    ensures reader.Took(r, TakeProfile(old(reader.Rest())))
  {
    var v :- reader.ReadPod(1, TRUNCATED);
    r := ProfileOf(v);
  }

  method ReadRule(reader: Reader) returns (r: Result<RuleRecord>)
    requires reader.Valid()
    modifies reader
    ensures reader.Took(r, TakeRule(old(reader.Rest())))
  {
    var id :- ReadNext(reader);
    var left :- ReadNext(reader);
    var right :- ReadNext(reader);
    var frequency :- ReadNext(reader);
    var profile :- ReadProfile(reader);
    var hash :- ReadNext(reader);
    r := Ok(RuleRecord(AdaptiveRule(id, left, right, frequency), profile, hash));
  }

  method ReadLanes(reader: Reader) returns (r: Result<(Lanes, Lanes)>)
    requires reader.Valid()
    modifies reader
    ensures reader.Took(r, TakeLanes(old(reader.Rest())))
  {
    var p :- reader.ReadBytes(8, TRUNCATED_PARITY);
    var q :- reader.ReadBytes(8, TRUNCATED_PARITY);
    r := Ok((p, q));
  }

  method ReadGroup(reader: Reader) returns (r: Result<RuleDualParityGroup>)
    requires reader.Valid()
    modifies reader
    ensures reader.Took(r, TakeGroup(old(reader.Rest())))
  {
    var begin :- ReadNext(reader);
    var count :- ReadNext(reader);
    var id :- ReadLanes(reader);
    var left :- ReadLanes(reader);
    var right :- ReadLanes(reader);
    var frequency :- ReadLanes(reader);
    r := Ok(RuleDualParityGroup(begin, count, id.0, id.1, left.0, left.1, right.0, right.1,
                                frequency.0, frequency.1));
  }

  method ReadBlock(reader: Reader) returns (r: Result<TrailDualParityBlock>)
    requires reader.Valid()
    modifies reader
    ensures reader.Took(r, TakeBlock(old(reader.Rest())))
  {
    var begin :- ReadNext(reader);
    var count :- ReadNext(reader);
    var lanes :- ReadLanes(reader);
    r := Ok(TrailDualParityBlock(begin, count, lanes.0, lanes.1));
  }

  method ReadWords(reader: Reader, count: nat) returns (r: Result<seq<Word>>)
    requires reader.Valid()
    modifies reader
    ensures reader.Took(r, TakeMany(TakeNext, old(reader.Rest()), count))
  {
    var words: seq<Word> := [];
    ghost var whole := TakeMany(TakeNext, reader.Rest(), count);
    PrependNothing(whole);
    for i := 0 to count
      invariant reader.Valid()
      invariant whole == Prepended(words, TakeMany(TakeNext, reader.Rest(), count - i))
    {
      PrependStep(TakeNext, reader.Rest(), count - i, words);
      var word :- ReadNext(reader);
      words := words + [word];
    }
    PrependLast(TakeNext, reader.Rest(), words);
    r := Ok(words);
  }

  method ReadBlocks(reader: Reader, count: nat) returns (r: Result<seq<TrailDualParityBlock>>)
    requires reader.Valid()
    modifies reader
    ensures reader.Took(r, TakeMany(TakeBlock, old(reader.Rest()), count))
  {
    var blocks: seq<TrailDualParityBlock> := [];
    ghost var whole := TakeMany(TakeBlock, reader.Rest(), count);
    PrependNothing(whole);
    for i := 0 to count
      invariant reader.Valid()
      invariant whole == Prepended(blocks, TakeMany(TakeBlock, reader.Rest(), count - i))
    {
      PrependStep(TakeBlock, reader.Rest(), count - i, blocks);
      var block :- ReadBlock(reader);
      blocks := blocks + [block];
    }
    PrependLast(TakeBlock, reader.Rest(), blocks);
    r := Ok(blocks);
  }

  method ReadTrailHead(reader: Reader) returns (r: Result<TrailHead>)
    requires reader.Valid()
    modifies reader
    ensures reader.Took(r, TakeTrailHead(old(reader.Rest())))
  {
    var profile :- ReadProfile(reader);
    var blockSize :- ReadNext(reader);
    var hash :- ReadNext(reader);
    r := Ok(TrailHead(profile, blockSize, hash));
  }

  method ReadSymbols(reader: Reader) returns (r: Result<seq<Word>>)
    requires reader.Valid()
    modifies reader
    ensures reader.Took(r, TakeSymbols(old(reader.Rest())))
  {
    var n :- ReadNext(reader);
    if n > MAX_TRAIL {
      return Err(TOO_LARGE);
    }
    r := ReadWords(reader, n);
  }

  method ReadTrail(reader: Reader) returns (r: Result<ProtectedTrail>)
    requires reader.Valid()
    modifies reader
    ensures reader.Took(r, TakeTrail(old(reader.Rest())))
  {
    var head :- ReadTrailHead(reader);
    var trail :- ReadSymbols(reader);
    var hashCount :- ReadNext(reader);
    var hashes :- ReadWords(reader, hashCount);
    var parityCount :- ReadNext(reader);
    var parity :- ReadBlocks(reader, parityCount);
    r := Ok(ProtectedTrail(trail, head.profile, head.hash, head.blockSize, hashes, parity));
  }

  method ReadVersion(reader: Reader) returns (r: Result<nat>)
    requires reader.Valid()
    modifies reader
    ensures reader.Took(r, TakeVersion(old(reader.Rest())))
  {
    var magic :- reader.ReadBytes(8, BAD_MAGIC);
    if magic != MAGIC {
      return Err(BAD_MAGIC);
    }
    r := reader.ReadPod(4, TRUNCATED);
    if r.Ok? && r.value != VERSION {
      return Err(BAD_VERSION);
    }
  }

  method ReadHeader(reader: Reader) returns (r: Result<Header>)
    requires reader.Valid()
    modifies reader
    ensures reader.Took(r, TakeHeader(old(reader.Rest())))
  {
    var version :- ReadVersion(reader);
    var lanes :- ReadNext(reader);
    var rules :- ReadNext(reader);
    var groups :- ReadNext(reader);
    var trails :- ReadNext(reader);
    if rules > MAX_RECORDS || trails > MAX_RECORDS {
      return Err(TOO_MANY);
    }
    r := Ok(Header(version, lanes, rules, groups, trails));
  }

  method ReadRules(reader: Reader, count: nat) returns (r: Result<seq<RuleRecord>>)
    requires reader.Valid()
    modifies reader
    ensures reader.Took(r, TakeMany(TakeRule, old(reader.Rest()), count))
  {
    var rules: seq<RuleRecord> := [];
    ghost var whole := TakeMany(TakeRule, reader.Rest(), count);
    PrependNothing(whole);
    for i := 0 to count
      invariant reader.Valid()
      invariant whole == Prepended(rules, TakeMany(TakeRule, reader.Rest(), count - i))
    {
      PrependStep(TakeRule, reader.Rest(), count - i, rules);
      var rule :- ReadRule(reader);
      rules := rules + [rule];
    }
    PrependLast(TakeRule, reader.Rest(), rules);
    r := Ok(rules);
  }

  method ReadGroups(reader: Reader, count: nat) returns (r: Result<seq<RuleDualParityGroup>>)
    requires reader.Valid()
    modifies reader
    ensures reader.Took(r, TakeMany(TakeGroup, old(reader.Rest()), count))
  {
    var groups: seq<RuleDualParityGroup> := [];
    ghost var whole := TakeMany(TakeGroup, reader.Rest(), count);
    PrependNothing(whole);
    for i := 0 to count
      invariant reader.Valid()
      invariant whole == Prepended(groups, TakeMany(TakeGroup, reader.Rest(), count - i))
    {
      PrependStep(TakeGroup, reader.Rest(), count - i, groups);
      var group :- ReadGroup(reader);
      groups := groups + [group];
    }
    PrependLast(TakeGroup, reader.Rest(), groups);
    r := Ok(groups);
  }

  method ReadTrails(reader: Reader, count: nat) returns (r: Result<seq<ProtectedTrail>>)
    requires reader.Valid()
    modifies reader
    ensures reader.Took(r, TakeMany(TakeTrail, old(reader.Rest()), count))
  {
    var trails: seq<ProtectedTrail> := [];
    ghost var whole := TakeMany(TakeTrail, reader.Rest(), count);
    PrependNothing(whole);
    for i := 0 to count
      invariant reader.Valid()
      invariant whole == Prepended(trails, TakeMany(TakeTrail, reader.Rest(), count - i))
    {
      PrependStep(TakeTrail, reader.Rest(), count - i, trails);
      var trail :- ReadTrail(reader);
      trails := trails + [trail];
    }
    PrependLast(TakeTrail, reader.Rest(), trails);
    r := Ok(trails);
  }

  method LoadProtectedSnapshot(file: seq<Byte>) returns (r: Result<Snapshot>)
    ensures r == Loaded(file)
  {
    var rejected := VerifyChecksum(file, MISSING, MISMATCH);
    if rejected.Some? {
      return Err(rejected.value);
    }
    var reader := new Reader(file);
    var header :- ReadHeader(reader);
    var rules :- ReadRules(reader, header.rules);
    var groups :- ReadGroups(reader, header.groups);
    var trails :- ReadTrails(reader, header.trails);
    r := Ok(Assembled(header, rules, groups, trails));
  }
}
