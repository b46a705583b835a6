/**
  The protected snapshot format, version 2: rules with their profile and hash, parity groups and trails.
*/
module ProtectedPersistence {
  import opened Words
  import opened Common
  import opened ByteFormat
  import opened ParityEquations
  import opened TrailRecovery
  import opened RuleRecovery
  import Integrity

  /** "BITPROT2" */
  const MAGIC: seq<Byte> := [0x42, 0x49, 0x54, 0x50, 0x52, 0x4f, 0x54, 0x32]
  const VERSION: nat := 2
  const MAX_RECORDS: nat := 100000000
  const MAX_TRAIL: nat := 1000000000
  const TRUNCATED := "truncated protected snapshot"
  const TRUNCATED_PARITY := "truncated parity bytes"
  const BAD_MAGIC := "invalid protected snapshot magic"
  const BAD_VERSION := "unsupported protected snapshot version"
  const BAD_PROFILE := "invalid protection profile"
  const TOO_MANY := "protected snapshot count exceeds safety limit"
  const TOO_LARGE := "protected trail too large"
  const MISSING := "protected snapshot missing checksum"
  const MISMATCH := "protected snapshot checksum mismatch"
  const METADATA := "protected snapshot rule metadata mismatch"

  datatype Profile = Light | Medium | Strong

  datatype ProtectedTrail = ProtectedTrail(
    trail: Trail, profile: Profile, trailHash: Word, blockSize: nat, blockHashes: seq<Word>,
    dualParity: seq<TrailDualParityBlock>)

  datatype Snapshot = Snapshot(
    version: nat, interleaveLanes: nat, rules: seq<AdaptiveRule>, ruleProfiles: seq<Profile>,
    ruleHashes: seq<Word>, ruleDualParity: seq<RuleDualParityGroup>, trails: seq<ProtectedTrail>)

  /** What is stored for one rule. */
  datatype RuleRecord = RuleRecord(rule: AdaptiveRule, profile: Profile, hash: Word)

  // ---------- writing ----------

  function ProfileByte(p: Profile): Byte {
    match p
    case Light => 2
    case Medium => 4
    case Strong => 6
  }

  function ProfileThen(p: Profile, rest: seq<Byte>): seq<Byte> {
    ToBytes(ProfileByte(p), 1) + rest
  }

  function RuleThen(r: RuleRecord, rest: seq<Byte>): seq<Byte> {
    ToBytes(r.rule.id, 8) + (ToBytes(r.rule.left, 8) + (ToBytes(r.rule.right, 8) + (ToBytes(r.rule.frequency, 8)
      + ProfileThen(r.profile, WordThen(r.hash, rest)))))
  }

  function LanesThen(p: Lanes, q: Lanes, rest: seq<Byte>): seq<Byte> {
    p + (q + rest)
  }

  function GroupThen(g: RuleDualParityGroup, rest: seq<Byte>): seq<Byte> {
    ToBytes(g.beginIndex, 8) + (ToBytes(g.count, 8) + LanesThen(g.pId, g.qId, LanesThen(g.pLeft, g.qLeft,
      LanesThen(g.pRight, g.qRight, LanesThen(g.pFrequency, g.qFrequency, rest)))))
  }

  function BlockThen(b: TrailDualParityBlock, rest: seq<Byte>): seq<Byte> {
    ToBytes(b.beginIndex, 8) + (ToBytes(b.count, 8) + LanesThen(b.p, b.q, rest))
  }

  /** A count, then that many records. */
  function ListThen<T>(write: (T, seq<Byte>) -> seq<Byte>, xs: seq<T>, rest: seq<Byte>): seq<Byte> {
    ToBytes(|xs|, 8) + ManyThen(write, xs, rest)
  }

  function TrailThen(t: ProtectedTrail, rest: seq<Byte>): seq<Byte> {
    ProfileThen(t.profile, ToBytes(t.blockSize, 8) + WordThen(t.trailHash,
      ListThen(WordThen, t.trail, ListThen(WordThen, t.blockHashes, ListThen(BlockThen, t.dualParity, rest)))))
  }

  predicate MetadataMatches(s: Snapshot) {
    |s.ruleProfiles| == |s.rules| && |s.ruleHashes| == |s.rules|
  }

  function Records(s: Snapshot): (records: seq<RuleRecord>)
    requires MetadataMatches(s)
    ensures |records| == |s.rules|
  {
    seq(|s.rules|, i requires 0 <= i < |s.rules| => RuleRecord(s.rules[i], s.ruleProfiles[i], s.ruleHashes[i]))
  }

  function BodyThen(s: Snapshot, rest: seq<Byte>): seq<Byte>
    requires MetadataMatches(s)
  {
    ManyThen(RuleThen, Records(s), ManyThen(GroupThen, s.ruleDualParity, ManyThen(TrailThen, s.trails, rest)))
  }

  function PayloadThen(s: Snapshot, rest: seq<Byte>): seq<Byte>
    requires MetadataMatches(s)
  {
    MAGIC + (ToBytes(s.version, 4) + (ToBytes(s.interleaveLanes, 8) + (ToBytes(|s.rules|, 8)
      + (ToBytes(|s.ruleDualParity|, 8) + (ToBytes(|s.trails|, 8) + BodyThen(s, rest))))))
  }

  /** Saving is refused when a rule has no profile or no hash. */
  function Saved(s: Snapshot): Result<seq<Byte>> {
    if MetadataMatches(s) then Ok(Sealed(PayloadThen(s, []))) else Err(METADATA)
  }

  // ---------- reading ----------

  function ProfileOf(v: nat): Result<Profile> {
    if v == 2 then Ok(Light) else if v == 4 then Ok(Medium) else if v == 6 then Ok(Strong) else Err(BAD_PROFILE)
  }

  function TakeProfile(s: seq<Byte>): Result<Taken<Profile>> {
    var v :- Take(s, 1, TRUNCATED);
    var p :- ProfileOf(v.value);
    Ok(Taken(p, v.rest))
  }

  function TakeNext(s: seq<Byte>): Result<Taken<Word>> {
    TakeWord(s, TRUNCATED)
  }

  function TakeRule(s: seq<Byte>): Result<Taken<RuleRecord>> {
    var id :- TakeNext(s);
    var left :- TakeNext(id.rest);
    var right :- TakeNext(left.rest);
    var frequency :- TakeNext(right.rest);
    var profile :- TakeProfile(frequency.rest);
    var hash :- TakeNext(profile.rest);
    Ok(Taken(RuleRecord(AdaptiveRule(id.value, left.value, right.value, frequency.value), profile.value, hash.value),
             hash.rest))
  }

  function TakeLanes(s: seq<Byte>): Result<Taken<(Lanes, Lanes)>> {
    var p :- TakeBytes(s, 8, TRUNCATED_PARITY);
    var q :- TakeBytes(p.rest, 8, TRUNCATED_PARITY);
    Ok(Taken((p.value, q.value), q.rest))
  }

  function TakeGroup(s: seq<Byte>): Result<Taken<RuleDualParityGroup>> {
    var begin :- TakeNext(s);
    var count :- TakeNext(begin.rest);
    var id :- TakeLanes(count.rest);
    var left :- TakeLanes(id.rest);
    var right :- TakeLanes(left.rest);
    var frequency :- TakeLanes(right.rest);
    Ok(Taken(RuleDualParityGroup(begin.value, count.value, id.value.0, id.value.1, left.value.0, left.value.1,
                                 right.value.0, right.value.1, frequency.value.0, frequency.value.1),
             frequency.rest))
  }

  function TakeBlock(s: seq<Byte>): Result<Taken<TrailDualParityBlock>> {
    var begin :- TakeNext(s);
    var count :- TakeNext(begin.rest);
    var lanes :- TakeLanes(count.rest);
    Ok(Taken(TrailDualParityBlock(begin.value, count.value, lanes.value.0, lanes.value.1), lanes.rest))
  }

  /** The first three fields of a stored trail. */
  datatype TrailHead = TrailHead(profile: Profile, blockSize: nat, hash: Word)

  function TakeTrailHead(s: seq<Byte>): Result<Taken<TrailHead>> {
    var profile :- TakeProfile(s);
    var blockSize :- TakeNext(profile.rest);
    var hash :- TakeNext(blockSize.rest);
    Ok(Taken(TrailHead(profile.value, blockSize.value, hash.value), hash.rest))
  }

  function TakeList<T>(take: seq<Byte> -> Result<Taken<T>>, s: seq<Byte>): Result<Taken<seq<T>>> {
    var n :- TakeNext(s);
    TakeMany(take, n.rest, n.value)
  }

  function TakeSymbols(s: seq<Byte>): Result<Taken<seq<Word>>> {
    var n :- TakeNext(s);
    if n.value > MAX_TRAIL then Err(TOO_LARGE) else TakeMany(TakeNext, n.rest, n.value)
  }

  function TakeTrail(s: seq<Byte>): Result<Taken<ProtectedTrail>> {
    var head :- TakeTrailHead(s);
    var trail :- TakeSymbols(head.rest);
    var hashes :- TakeList(TakeNext, trail.rest);
    var parity :- TakeList(TakeBlock, hashes.rest);
    Ok(Taken(ProtectedTrail(trail.value, head.value.profile, head.value.hash, head.value.blockSize,
                            hashes.value, parity.value), parity.rest))
  }

  datatype Header = Header(version: nat, lanes: nat, rules: nat, groups: nat, trails: nat)

  function TakeVersion(s: seq<Byte>): Result<Taken<nat>> {
    var magic :- TakeBytes(s, 8, BAD_MAGIC);
    if magic.value != MAGIC then Err(BAD_MAGIC)
    else
      var version :- Take(magic.rest, 4, TRUNCATED);
      if version.value != VERSION then Err(BAD_VERSION) else Ok(version)
  }

  function TakeHeader(s: seq<Byte>): Result<Taken<Header>> {
    var version :- TakeVersion(s);
    var lanes :- TakeNext(version.rest);
    var rules :- TakeNext(lanes.rest);
    var groups :- TakeNext(rules.rest);
    var trails :- TakeNext(groups.rest);
    if rules.value > MAX_RECORDS || trails.value > MAX_RECORDS then Err(TOO_MANY)
    else Ok(Taken(Header(version.value, lanes.value, rules.value, groups.value, trails.value), trails.rest))
  }

  function Assembled(h: Header, records: seq<RuleRecord>, groups: seq<RuleDualParityGroup>,
                     trails: seq<ProtectedTrail>): Snapshot
  {
    Snapshot(h.version, h.lanes,
             seq(|records|, i requires 0 <= i < |records| => records[i].rule),
             seq(|records|, i requires 0 <= i < |records| => records[i].profile),
             seq(|records|, i requires 0 <= i < |records| => records[i].hash),
             groups, trails)
  }

  function TakeBody(h: Header, s: seq<Byte>): Result<Snapshot> {
    var rules :- TakeMany(TakeRule, s, h.rules);
    var groups :- TakeMany(TakeGroup, rules.rest, h.groups);
    var trails :- TakeMany(TakeTrail, groups.rest, h.trails);
    Ok(Assembled(h, rules.value, groups.value, trails.value))
  }

  function Loaded(file: seq<Byte>): Result<Snapshot> {
    if ChecksumError(file, MISSING, MISMATCH).Some? then Err(ChecksumError(file, MISSING, MISMATCH).value)
    else
      var h :- TakeHeader(file);
      TakeBody(h.value, h.rest)
  }

  // ---------- what the fields can hold ----------

  predicate RecordFits(r: RuleRecord) {
    r.rule.id < WORD && r.rule.left < WORD && r.rule.right < WORD && r.rule.frequency < WORD
  }

  predicate GroupFits(g: RuleDualParityGroup) {
    g.beginIndex < WORD && g.count < WORD
  }

  predicate BlockFits(b: TrailDualParityBlock) {
    b.beginIndex < WORD && b.count < WORD
  }

  predicate AnyWord(w: Word) {
    true
  }

  predicate TrailFields(t: ProtectedTrail) {
    && t.blockSize < WORD && |t.trail| < WORD && |t.blockHashes| < WORD && |t.dualParity| < WORD
    && forall i :: 0 <= i < |t.dualParity| ==> BlockFits(t.dualParity[i])
  }

  predicate TrailFits(t: ProtectedTrail) {
    TrailFields(t) && |t.trail| <= MAX_TRAIL
  }

  predicate TrailTooLarge(t: ProtectedTrail) {
    TrailFields(t) && |t.trail| > MAX_TRAIL
  }

  /** Every field holds a value of its width: 64 bits, the version 32. */
  ghost predicate Fits(s: Snapshot) {
    && s.version < 0x1_0000_0000 && s.interleaveLanes < WORD
    && |s.rules| < WORD && |s.ruleDualParity| < WORD && |s.trails| < WORD
    && (forall i :: 0 <= i < |s.rules| ==> RuleFits(s.rules[i]))
    && (forall i :: 0 <= i < |s.ruleDualParity| ==> GroupFits(s.ruleDualParity[i]))
    && (forall i :: 0 <= i < |s.trails| ==> TrailFields(s.trails[i]))
  }

  // ---------- one record, written and read ----------

  lemma ProfileWritten(p: Profile, rest: seq<Byte>)
    ensures TakeProfile(ProfileThen(p, rest)) == Ok(Taken(p, rest))
  {
    assert Pow256(1) == 256;
    TakeWritten(ProfileByte(p), 1, rest, TRUNCATED);
  }

  lemma NextWritten(v: nat, rest: seq<Byte>)
    requires v < WORD
    ensures TakeNext(ToBytes(v, 8) + rest) == Ok(Taken(v, rest))
  {
    WordWritten(v, rest, TRUNCATED);
  }

  lemma LanesWritten(p: Lanes, q: Lanes, rest: seq<Byte>)
    ensures TakeLanes(LanesThen(p, q, rest)) == Ok(Taken((p, q), rest))
  {
    TakeBytesWritten(p, q + rest, TRUNCATED_PARITY);
    TakeBytesWritten(q, rest, TRUNCATED_PARITY);
  }

  lemma RuleWritten(r: RuleRecord, rest: seq<Byte>)
    requires RecordFits(r)
    ensures TakeRule(RuleThen(r, rest)) == Ok(Taken(r, rest))
  {
    var s5 := WordThen(r.hash, rest);
    var s4 := ProfileThen(r.profile, s5);
    var s3 := ToBytes(r.rule.frequency, 8) + s4;
    var s2 := ToBytes(r.rule.right, 8) + s3;
    NextWritten(r.rule.id, ToBytes(r.rule.left, 8) + s2);
    NextWritten(r.rule.left, s2);
    NextWritten(r.rule.right, s3);
    NextWritten(r.rule.frequency, s4);
    ProfileWritten(r.profile, s5);
    NextWritten(r.hash, rest);
  }

  lemma GroupWritten(g: RuleDualParityGroup, rest: seq<Byte>)
    requires GroupFits(g)
    ensures TakeGroup(GroupThen(g, rest)) == Ok(Taken(g, rest))
  {
    var s3 := LanesThen(g.pFrequency, g.qFrequency, rest);
    var s2 := LanesThen(g.pRight, g.qRight, s3);
    var s1 := LanesThen(g.pLeft, g.qLeft, s2);
    var s0 := LanesThen(g.pId, g.qId, s1);
    NextWritten(g.beginIndex, ToBytes(g.count, 8) + s0);
    NextWritten(g.count, s0);
    LanesWritten(g.pId, g.qId, s1);
    LanesWritten(g.pLeft, g.qLeft, s2);
    LanesWritten(g.pRight, g.qRight, s3);
    LanesWritten(g.pFrequency, g.qFrequency, rest);
  }

  lemma BlockWritten(b: TrailDualParityBlock, rest: seq<Byte>)
    requires BlockFits(b)
    ensures TakeBlock(BlockThen(b, rest)) == Ok(Taken(b, rest))
  {
    var s0 := LanesThen(b.p, b.q, rest);
    NextWritten(b.beginIndex, ToBytes(b.count, 8) + s0);
    NextWritten(b.count, s0);
    LanesWritten(b.p, b.q, rest);
  }

  lemma WordsInverse()
    ensures Inverse(TakeNext, WordThen, AnyWord)
  {
    forall w: Word, rest: seq<Byte> | AnyWord(w)
      ensures TakeNext(WordThen(w, rest)) == Ok(Taken(w, rest))
    {
      NextWritten(w, rest);
    }
  }

  lemma RulesInverse()
    ensures Inverse(TakeRule, RuleThen, RecordFits)
  {
    forall r: RuleRecord, rest: seq<Byte> | RecordFits(r)
      ensures TakeRule(RuleThen(r, rest)) == Ok(Taken(r, rest))
    {
      RuleWritten(r, rest);
    }
  }

  lemma GroupsInverse()
    ensures Inverse(TakeGroup, GroupThen, GroupFits)
  {
    forall g: RuleDualParityGroup, rest: seq<Byte> | GroupFits(g)
      ensures TakeGroup(GroupThen(g, rest)) == Ok(Taken(g, rest))
    {
      GroupWritten(g, rest);
    }
  }

  lemma BlocksInverse()
    ensures Inverse(TakeBlock, BlockThen, BlockFits)
  {
    forall b: TrailDualParityBlock, rest: seq<Byte> | BlockFits(b)
      ensures TakeBlock(BlockThen(b, rest)) == Ok(Taken(b, rest))
    {
      BlockWritten(b, rest);
    }
  }

  lemma ListWritten<T(!new)>(take: seq<Byte> -> Result<Taken<T>>, write: (T, seq<Byte>) -> seq<Byte>,
                             fits: T -> bool, xs: seq<T>, rest: seq<Byte>)
    requires Inverse(take, write, fits) && |xs| < WORD && forall i :: 0 <= i < |xs| ==> fits(xs[i])
    ensures TakeNext(ListThen(write, xs, rest)) == Ok(Taken(|xs|, ManyThen(write, xs, rest)))
    ensures TakeList(take, ListThen(write, xs, rest)) == Ok(Taken(xs, rest))
  {
    NextWritten(|xs|, ManyThen(write, xs, rest));
    ManyWritten(take, write, fits, xs, rest);
  }

  lemma TrailHeadWritten(t: ProtectedTrail, rest: seq<Byte>)
    requires t.blockSize < WORD
    ensures TakeTrailHead(ProfileThen(t.profile, ToBytes(t.blockSize, 8) + WordThen(t.trailHash, rest)))
         == Ok(Taken(TrailHead(t.profile, t.blockSize, t.trailHash), rest))
  {
    ProfileWritten(t.profile, ToBytes(t.blockSize, 8) + WordThen(t.trailHash, rest));
    NextWritten(t.blockSize, WordThen(t.trailHash, rest));
    NextWritten(t.trailHash, rest);
  }

  /** A trail within the limit is read back; a longer one is refused. */
  lemma TrailWritten(t: ProtectedTrail, rest: seq<Byte>)
    requires TrailFields(t)
    ensures TakeTrail(TrailThen(t, rest)) == if |t.trail| <= MAX_TRAIL then Ok(Taken(t, rest)) else Err(TOO_LARGE)
  {
    var s2 := ListThen(BlockThen, t.dualParity, rest);
    var s1 := ListThen(WordThen, t.blockHashes, s2);
    TrailHeadWritten(t, ListThen(WordThen, t.trail, s1));
    WordsInverse();
    ListWritten(TakeNext, WordThen, AnyWord, t.trail, s1);
    ListWritten(TakeNext, WordThen, AnyWord, t.blockHashes, s2);
    BlocksInverse();
    ListWritten(TakeBlock, BlockThen, BlockFits, t.dualParity, rest);
  }

  lemma TrailsInverse()
    ensures Inverse(TakeTrail, TrailThen, TrailFits)
    ensures Refuses(TakeTrail, TrailThen, TrailTooLarge, TOO_LARGE)
  {
    forall t: ProtectedTrail, rest: seq<Byte> | TrailFits(t)
      ensures TakeTrail(TrailThen(t, rest)) == Ok(Taken(t, rest))
    {
      TrailWritten(t, rest);
    }
    forall t: ProtectedTrail, rest: seq<Byte> | TrailTooLarge(t)
      ensures TakeTrail(TrailThen(t, rest)) == Err(TOO_LARGE)
    {
      TrailWritten(t, rest);
    }
  }

  // ---------- what follows a record comes after its bytes ----------

  lemma LanesAppend(p: Lanes, q: Lanes, s: seq<Byte>, rest: seq<Byte>)
    ensures LanesThen(p, q, s) + rest == LanesThen(p, q, s + rest)
  {
    Regroup(p, q + s, rest);
    Regroup(q, s, rest);
  }

  lemma WordsAppend()
    ensures Appends(WordThen)
  {
    forall w: Word, s: seq<Byte>, rest: seq<Byte>
      ensures WordThen(w, s) + rest == WordThen(w, s + rest)
    {
      Regroup(ToBytes(w, 8), s, rest);
    }
  }

  lemma RuleAppends(r: RuleRecord, s: seq<Byte>, rest: seq<Byte>)
    ensures RuleThen(r, s) + rest == RuleThen(r, s + rest)
  {
    var s5 := WordThen(r.hash, s);
    var s4 := ProfileThen(r.profile, s5);
    var s3 := ToBytes(r.rule.frequency, 8) + s4;
    var s2 := ToBytes(r.rule.right, 8) + s3;
    var s1 := ToBytes(r.rule.left, 8) + s2;
    Regroup(ToBytes(r.rule.id, 8), s1, rest);
    Regroup(ToBytes(r.rule.left, 8), s2, rest);
    Regroup(ToBytes(r.rule.right, 8), s3, rest);
    Regroup(ToBytes(r.rule.frequency, 8), s4, rest);
    Regroup(ToBytes(ProfileByte(r.profile), 1), s5, rest);
    Regroup(ToBytes(r.hash, 8), s, rest);
  }

  lemma RulesAppend()
    ensures Appends(RuleThen)
  {
    forall r: RuleRecord, s: seq<Byte>, rest: seq<Byte>
      ensures RuleThen(r, s) + rest == RuleThen(r, s + rest)
    {
      RuleAppends(r, s, rest);
    }
  }

  lemma GroupAppends(g: RuleDualParityGroup, s: seq<Byte>, rest: seq<Byte>)
    ensures GroupThen(g, s) + rest == GroupThen(g, s + rest)
  {
    var s3 := LanesThen(g.pFrequency, g.qFrequency, s);
    var s2 := LanesThen(g.pRight, g.qRight, s3);
    var s1 := LanesThen(g.pLeft, g.qLeft, s2);
    var s0 := LanesThen(g.pId, g.qId, s1);
    Regroup(ToBytes(g.beginIndex, 8), ToBytes(g.count, 8) + s0, rest);
    Regroup(ToBytes(g.count, 8), s0, rest);
    LanesAppend(g.pId, g.qId, s1, rest);
    LanesAppend(g.pLeft, g.qLeft, s2, rest);
    LanesAppend(g.pRight, g.qRight, s3, rest);
    LanesAppend(g.pFrequency, g.qFrequency, s, rest);
  }

  lemma GroupsAppend()
    ensures Appends(GroupThen)
  {
    forall g: RuleDualParityGroup, s: seq<Byte>, rest: seq<Byte>
      ensures GroupThen(g, s) + rest == GroupThen(g, s + rest)
    {
      GroupAppends(g, s, rest);
    }
  }

  lemma BlocksAppend()
    ensures Appends(BlockThen)
  {
    forall b: TrailDualParityBlock, s: seq<Byte>, rest: seq<Byte>
      ensures BlockThen(b, s) + rest == BlockThen(b, s + rest)
    {
      var s0 := LanesThen(b.p, b.q, s);
      Regroup(ToBytes(b.beginIndex, 8), ToBytes(b.count, 8) + s0, rest);
      Regroup(ToBytes(b.count, 8), s0, rest);
      LanesAppend(b.p, b.q, s, rest);
    }
  }

  lemma ListAppends<T(!new)>(write: (T, seq<Byte>) -> seq<Byte>, xs: seq<T>, s: seq<Byte>, rest: seq<Byte>)
    requires Appends(write)
    ensures ListThen(write, xs, s) + rest == ListThen(write, xs, s + rest)
  {
    ManyAppends(write, xs, s, rest);
    Regroup(ToBytes(|xs|, 8), ManyThen(write, xs, s), rest);
  }

  lemma TrailAppends(t: ProtectedTrail, s: seq<Byte>, rest: seq<Byte>)
    ensures TrailThen(t, s) + rest == TrailThen(t, s + rest)
  {
    var s2 := ListThen(BlockThen, t.dualParity, s);
    var s1 := ListThen(WordThen, t.blockHashes, s2);
    var s0 := ListThen(WordThen, t.trail, s1);
    BlocksAppend();
    WordsAppend();
    ListAppends(BlockThen, t.dualParity, s, rest);
    ListAppends(WordThen, t.blockHashes, s2, rest);
    ListAppends(WordThen, t.trail, s1, rest);
    Regroup(ToBytes(ProfileByte(t.profile), 1), ToBytes(t.blockSize, 8) + WordThen(t.trailHash, s0), rest);
    Regroup(ToBytes(t.blockSize, 8), WordThen(t.trailHash, s0), rest);
    Regroup(ToBytes(t.trailHash, 8), s0, rest);
  }

  lemma TrailsAppend()
    ensures Appends(TrailThen)
  {
    forall t: ProtectedTrail, s: seq<Byte>, rest: seq<Byte>
      ensures TrailThen(t, s) + rest == TrailThen(t, s + rest)
    {
      TrailAppends(t, s, rest);
    }
  }

  lemma TrailsThenRest(trails: seq<ProtectedTrail>, rest: seq<Byte>)
    ensures ManyThen(TrailThen, trails, []) + rest == ManyThen(TrailThen, trails, rest)
  {
    TrailsAppend();
    ManyAppends(TrailThen, trails, [], rest);
    assert [] + rest == rest;
  }

  lemma GroupsThenRest(groups: seq<RuleDualParityGroup>, s: seq<Byte>, rest: seq<Byte>)
    ensures ManyThen(GroupThen, groups, s) + rest == ManyThen(GroupThen, groups, s + rest)
  {
    GroupsAppend();
    ManyAppends(GroupThen, groups, s, rest);
  }

  lemma RulesThenRest(records: seq<RuleRecord>, s: seq<Byte>, rest: seq<Byte>)
    ensures ManyThen(RuleThen, records, s) + rest == ManyThen(RuleThen, records, s + rest)
  {
    RulesAppend();
    ManyAppends(RuleThen, records, s, rest);
  }

  lemma BodyAppends(s: Snapshot, rest: seq<Byte>)
    requires MetadataMatches(s)
    ensures BodyThen(s, []) + rest == BodyThen(s, rest)
  {
    var trails := ManyThen(TrailThen, s.trails, []);
    TrailsThenRest(s.trails, rest);
    GroupsThenRest(s.ruleDualParity, trails, rest);
    RulesThenRest(Records(s), ManyThen(GroupThen, s.ruleDualParity, trails), rest);
  }

  lemma PayloadAppends(s: Snapshot, rest: seq<Byte>)
    requires MetadataMatches(s)
    ensures PayloadThen(s, []) + rest == PayloadThen(s, rest)
  {
    var body := BodyThen(s, []);
    BodyAppends(s, rest);
    var s3 := ToBytes(|s.trails|, 8) + body;
    var s2 := ToBytes(|s.ruleDualParity|, 8) + s3;
    var s1 := ToBytes(|s.rules|, 8) + s2;
    var s0 := ToBytes(s.interleaveLanes, 8) + s1;
    Regroup(MAGIC, ToBytes(s.version, 4) + s0, rest);
    Regroup(ToBytes(s.version, 4), s0, rest);
    Regroup(ToBytes(s.interleaveLanes, 8), s1, rest);
    Regroup(ToBytes(|s.rules|, 8), s2, rest);
    Regroup(ToBytes(|s.ruleDualParity|, 8), s3, rest);
    Regroup(ToBytes(|s.trails|, 8), body, rest);
  }

  // ---------- save, then load ----------

  ghost predicate WithinLimits(s: Snapshot) {
    && s.version == VERSION && |s.rules| <= MAX_RECORDS && |s.trails| <= MAX_RECORDS
    && forall i :: 0 <= i < |s.trails| ==> |s.trails[i].trail| <= MAX_TRAIL
  }

  function HeaderOf(s: Snapshot): Header {
    Header(s.version, s.interleaveLanes, |s.rules|, |s.ruleDualParity|, |s.trails|)
  }

  lemma HeaderWritten(s: Snapshot, rest: seq<Byte>)
    requires MetadataMatches(s) && Fits(s)
    ensures var r := TakeHeader(PayloadThen(s, rest));
            if s.version != VERSION then r == Err(BAD_VERSION)
            else if |s.rules| > MAX_RECORDS || |s.trails| > MAX_RECORDS then r == Err(TOO_MANY)
            else r == Ok(Taken(HeaderOf(s), BodyThen(s, rest)))
  {
    Pow256Values();
    var body := BodyThen(s, rest);
    var s3 := ToBytes(|s.trails|, 8) + body;
    var s2 := ToBytes(|s.ruleDualParity|, 8) + s3;
    var s1 := ToBytes(|s.rules|, 8) + s2;
    var s0 := ToBytes(s.interleaveLanes, 8) + s1;
    TakeBytesWritten(MAGIC, ToBytes(s.version, 4) + s0, BAD_MAGIC);
    TakeWritten(s.version, 4, s0, TRUNCATED);
    NextWritten(s.interleaveLanes, s1);
    NextWritten(|s.rules|, s2);
    NextWritten(|s.ruleDualParity|, s3);
    NextWritten(|s.trails|, body);
  }

  lemma RecordsFit(s: Snapshot)
    requires MetadataMatches(s) && Fits(s)
    ensures forall i :: 0 <= i < |s.rules| ==> RecordFits(Records(s)[i])
  {
    forall i | 0 <= i < |s.rules|
      ensures RecordFits(Records(s)[i])
    {
      FieldsFit(s.rules[i]);
    }
  }

  lemma FieldsFit(r: AdaptiveRule)
    requires RuleFits(r)
    ensures r.id < WORD && r.left < WORD && r.right < WORD && r.frequency < WORD
  {
    assert Get(r, Id) < WORD && Get(r, Left) < WORD && Get(r, Right) < WORD && Get(r, Frequency) < WORD;
  }

  lemma AssembledAgain(s: Snapshot)
    requires MetadataMatches(s)
    ensures Assembled(HeaderOf(s), Records(s), s.ruleDualParity, s.trails) == s
  {
    var a := Assembled(HeaderOf(s), Records(s), s.ruleDualParity, s.trails);
    assert a.rules == s.rules && a.ruleProfiles == s.ruleProfiles && a.ruleHashes == s.ruleHashes;
  }

  lemma TrailsWritten(s: Snapshot, rest: seq<Byte>)
    requires Fits(s)
    ensures TakeMany(TakeTrail, ManyThen(TrailThen, s.trails, rest), |s.trails|)
         == if forall i :: 0 <= i < |s.trails| ==> |s.trails[i].trail| <= MAX_TRAIL
            then Ok(Taken(s.trails, rest)) else Err(TOO_LARGE)
  {
    TrailsInverse();
    if i :| 0 <= i < |s.trails| && |s.trails[i].trail| > MAX_TRAIL {
      ManyRefused(TakeTrail, TrailThen, TrailFits, TrailTooLarge, TOO_LARGE, s.trails, i, rest);
    } else {
      ManyWritten(TakeTrail, TrailThen, TrailFits, s.trails, rest);
    }
  }

  lemma BodyWritten(s: Snapshot, rest: seq<Byte>)
    requires MetadataMatches(s) && Fits(s)
    ensures TakeBody(HeaderOf(s), BodyThen(s, rest))
         == if forall i :: 0 <= i < |s.trails| ==> |s.trails[i].trail| <= MAX_TRAIL
            then Ok(Assembled(HeaderOf(s), Records(s), s.ruleDualParity, s.trails)) else Err(TOO_LARGE)
  {
    var trails := ManyThen(TrailThen, s.trails, rest);
    RecordsFit(s);
    RulesInverse();
    ManyWritten(TakeRule, RuleThen, RecordFits, Records(s), ManyThen(GroupThen, s.ruleDualParity, trails));
    GroupsInverse();
    ManyWritten(TakeGroup, GroupThen, GroupFits, s.ruleDualParity, trails);
    TrailsWritten(s, rest);
  }

  /** What loading makes of a saved snapshot, in every case. */
  ghost function Outcome(s: Snapshot): Result<Snapshot> {
    if s.version != VERSION then Err(BAD_VERSION)
    else if |s.rules| > MAX_RECORDS || |s.trails| > MAX_RECORDS then Err(TOO_MANY)
    else if WithinLimits(s) then Ok(s)
    else Err(TOO_LARGE)
  }

  /**
    Loading a saved snapshot gives back exactly that snapshot if and only if it is of version 2 and within the
    size limits of the reader.
  */
  lemma LoadedSaved(s: Snapshot)
    requires MetadataMatches(s) && Fits(s)
    ensures Loaded(Saved(s).value) == Outcome(s)
    ensures Loaded(Saved(s).value) == Ok(s) <==> WithinLimits(s)
  {
    SavedOutcome(s);
    OutcomeOk(s);
  }

  lemma OutcomeOk(s: Snapshot)
    ensures Outcome(s) == Ok(s) <==> WithinLimits(s)
  {}

  lemma SavedOutcome(s: Snapshot)
    requires MetadataMatches(s) && Fits(s)
    ensures Loaded(Saved(s).value) == Outcome(s)
  {
    SealedIsIntact(PayloadThen(s, []));
    LoadedIntact(s, ToBytes(Integrity.AbsorbAll(Integrity.OFFSET, PayloadThen(s, [])), 8));
  }

  /** Whatever follows the trails, as long as the checksum agrees. */
  lemma LoadedIntact(s: Snapshot, rest: seq<Byte>)
    requires MetadataMatches(s) && Fits(s) && Intact(PayloadThen(s, []) + rest)
    ensures Loaded(PayloadThen(s, []) + rest) == Outcome(s)
  {
    PayloadAppends(s, rest);
    LoadedFrom(PayloadThen(s, []) + rest, s, rest);
  }

  lemma LoadedFrom(file: seq<Byte>, s: Snapshot, rest: seq<Byte>)
    requires MetadataMatches(s) && Fits(s) && Intact(file) && file == PayloadThen(s, rest)
    ensures Loaded(file) == Outcome(s)
  {
    HeaderWritten(s, rest);
    BodyWritten(s, rest);
    AssembledAgain(s);
  }

  /** A snapshot file with one damaged byte is never loaded. */
  lemma DamagedSnapshotRefused(s: Snapshot, i: nat, b: Byte)
    requires MetadataMatches(s) && i < |Saved(s).value| && b != Saved(s).value[i]
    ensures Loaded(Saved(s).value[i := b]) == Err(MISMATCH)
  {
    OneByteBreaksSeal(PayloadThen(s, []), i, b);
    assert |Saved(s).value| >= 8;
  }
}
