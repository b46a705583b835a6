/**
  Fingerprints of rules and trails: an FNV-1a shaped hash over little-endian bytes.

  The byte step is a bijection of the 64-bit state, so two byte strings that differ in one place never
  hash alike.
*/
module Integrity {
  import opened Words
  import opened Common

  const OFFSET: Word := 1469598103934665603
  const PRIME: Word := 1099511628211
  const PRIME_INVERSE: Word := 14886173955864302971

  // ---------- the hash ----------

  /** One byte enters the state. */
  function Absorb(h: Word, b: Byte): Word {
    (Xor(h, b) * PRIME) % WORD
  }

  function AbsorbAll(h: Word, s: seq<Byte>): Word
    decreases |s|
  {
    if s == [] then h else Absorb(AbsorbAll(h, s[..|s| - 1]), s[|s| - 1])
  }

  function RuleBytes(r: AdaptiveRule): seq<Byte> {
    ToBytes(r.id, 8) + ToBytes(r.left, 8) + ToBytes(r.right, 8) + ToBytes(r.frequency, 8)
  }

  function TrailBytes(trail: seq<SymbolId>): (s: seq<Byte>)
    ensures |s| == 8 * |trail|
  {
    if trail == [] then [] else TrailBytes(trail[..|trail| - 1]) + ToBytes(trail[|trail| - 1], 8)
  }

  function RuleHash(r: AdaptiveRule): Word {
    AbsorbAll(OFFSET, RuleBytes(r))
  }

  /** The length is hashed before the symbols. */
  function TrailHash(trail: seq<SymbolId>): Word {
    AbsorbAll(OFFSET, ToBytes(|trail|, 8) + TrailBytes(trail))
  }

  /** The bytes of symbol `i`, lowest first. */
  lemma {:induction false} TrailBytesAt(trail: seq<SymbolId>, i: nat, k: nat)
    requires i < |trail| && k < 8
    ensures TrailBytes(trail)[8 * i + k] == trail[i] / Pow256(k) % 256
  {
    if i < |trail| - 1 {
      TrailBytesAt(trail[..|trail| - 1], i, k);
    } else {
      ToBytesAt(trail[i], 8, k);
    }
  }

  /** The bytes of a rule: id, left, right and frequency, lowest byte first. */
  lemma RuleBytesAt(r: AdaptiveRule, k: nat)
    requires k < 8
    ensures |RuleBytes(r)| == 32
    ensures RuleBytes(r)[k] == r.id / Pow256(k) % 256 && RuleBytes(r)[8 + k] == r.left / Pow256(k) % 256
    ensures RuleBytes(r)[16 + k] == r.right / Pow256(k) % 256
    ensures RuleBytes(r)[24 + k] == r.frequency / Pow256(k) % 256
  {
    ToBytesAt(r.id, 8, k);
    ToBytesAt(r.left, 8, k);
    ToBytesAt(r.right, 8, k);
    ToBytesAt(r.frequency, 8, k);
  }

  /** A byte is added to the state before the multiplication. */
  lemma AddThenMultiply(h: Word, b: Byte)
    ensures Absorb(h, 0) == h * 1099511628211 % 0x1_0000_0000_0000_0000
    ensures Xor(h, b) < WORD && Absorb(h, b) == Absorb(Xor(h, b), 0)
  {
    XorWord(h, b);
    XorZero(h);
    XorZero(Xor(h, b));
  }

  lemma AbsorbZero(s: seq<Byte>, k: nat, h: Word, next: Word, carry: nat)
    requires k < |s| && s[k] == 0 && AbsorbAll(OFFSET, s[..k]) == h
    requires h * 1099511628211 == next + carry * 0x1_0000_0000_0000_0000
    ensures AbsorbAll(OFFSET, s[..k + 1]) == next
  {
    assert s[..k + 1][..k] == s[..k];
    XorZero(h);
    Reduce(h * PRIME, next, carry);
  }

  /** The fingerprint of an empty trail: its length, eight zero bytes. */
  lemma EmptyTrailHash()
    ensures TrailHash([]) == 5187598658539770339
  {
    forall k | 0 <= k < 8
      ensures ToBytes(0, 8)[k] == 0
    {
      ToBytesAt(0, 8, k);
    }
    EightZeros(ToBytes(0, 8));
    assert ToBytes(0, 8) + TrailBytes([]) == ToBytes(0, 8);
  }

  lemma EightZeros(s: seq<Byte>)
    requires |s| == 8 && forall k :: 0 <= k < 8 ==> s[k] == 0
    ensures AbsorbAll(OFFSET, s) == 5187598658539770339
  {
    assert s[..0] == [];
    AbsorbZero(s, 0, 1469598103934665603, 4953163356653287321, 87594872982);
    AbsorbZero(s, 1, 4953163356653287321, 11126445248426326267, 295231542504);
    AbsorbZero(s, 2, 11126445248426326267, 12196949897413546625, 663187816907);
    AbsorbZero(s, 3, 12196949897413546625, 3554543661169652019, 726994866266);
    AbsorbZero(s, 4, 3554543661169652019, 8387169000292456873, 211867312346);
    AbsorbZero(s, 5, 8387169000292456873, 7031251909432318507, 499914229131);
    AbsorbZero(s, 6, 7031251909432318507, 14889174069377005329, 419095272553);
    AbsorbZero(s, 7, 14889174069377005329, 5187598658539770339, 887463931755);
    assert s[..8] == s;
  }

  lemma {:induction false} AbsorbConcat(h: Word, s: seq<Byte>, t: seq<Byte>)
    ensures AbsorbAll(h, s + t) == AbsorbAll(AbsorbAll(h, s), t)
    decreases |t|
  {
    if t == [] {
      assert s + t == s;
    } else {
      var front := t[..|t| - 1];
      AbsorbConcat(h, s, front);
      assert (s + t)[..|s + t| - 1] == s + front;
    }
  }

  // ---------- the step is a bijection ----------

  /** Undoes Absorb. */
  function Unabsorb(h: Word, b: Byte): Word {
    XorWord((h * PRIME_INVERSE) % WORD, b);
    Xor((h * PRIME_INVERSE) % WORD, b)
  }

  /** Multiplying by an odd constant and by its inverse modulo 2^64 is the identity. */
  lemma MultiplyBack(x: Word, p: nat, q: nat, k: nat)
    requires p * q == 1 + k * WORD
    ensures ((x * p) % WORD) * q % WORD == x
  {
    var d := x * p / WORD;
    var r := (x * p) % WORD;
    calc {
      r * q;
      (x * p - d * WORD) * q;
      x * (p * q) - (d * q) * WORD;
      x * (1 + k * WORD) - (d * q) * WORD;
      x + (x * k - d * q) * WORD;
    }
    Reduce(r * q, x, x * k - d * q);
  }

  lemma Reduce(v: nat, x: Word, m: int)
    requires v == x + m * WORD
    ensures v % WORD == x
  {}

  lemma AbsorbBijective(h: Word, b: Byte)
    ensures Unabsorb(Absorb(h, b), b) == h
    ensures Absorb(Unabsorb(h, b), b) == h
  {
    XorWord(h, b);
    assert PRIME * PRIME_INVERSE == 1 + 887285111055 * WORD;
    MultiplyBack(Xor(h, b), PRIME, PRIME_INVERSE, 887285111055);
    XorCancel(h, b);
    XorCancel((h * PRIME_INVERSE) % WORD, b);
    MultiplyBack(h, PRIME_INVERSE, PRIME, 887285111055);
  }

  lemma AbsorbByteInjective(h: Word, b: Byte, c: Byte)
    requires Absorb(h, b) == Absorb(h, c)
    ensures b == c
  {
    AbsorbBijective(h, b);
    AbsorbBijective(h, c);
    var w := (Absorb(h, b) * PRIME_INVERSE) % WORD;
    XorCommutes(w, b);
    XorCommutes(w, c);
    XorCancel(b, w);
    XorCancel(c, w);
  }

  lemma {:induction false} AbsorbAllInjective(g: Word, h: Word, s: seq<Byte>)
    requires AbsorbAll(g, s) == AbsorbAll(h, s)
    ensures g == h
    decreases |s|
  {
    if s != [] {
      var front, last := s[..|s| - 1], s[|s| - 1];
      AbsorbBijective(AbsorbAll(g, front), last);
      AbsorbBijective(AbsorbAll(h, front), last);
      AbsorbAllInjective(g, h, front);
    }
  }

  /** Changing exactly one byte of any string changes its hash, from any starting state. */
  lemma OneByteChanges(h: Word, s: seq<Byte>, i: nat, b: Byte)
    requires i < |s| && b != s[i]
    ensures AbsorbAll(h, s[i := b]) != AbsorbAll(h, s)
  {
    var pre, post := s[..i], s[i + 1..];
    var g := AbsorbAll(h, pre);
    assert s == pre + [s[i]] + post;
    assert s[i := b] == pre + [b] + post;
    AbsorbConcat(h, pre + [s[i]], post);
    AbsorbConcat(h, pre + [b], post);
    assert (pre + [s[i]])[..i] == pre && (pre + [b])[..i] == pre;
    if AbsorbAll(h, s[i := b]) == AbsorbAll(h, s) {
      AbsorbAllInjective(Absorb(g, s[i]), Absorb(g, b), post);
      AbsorbByteInjective(g, s[i], b);
    }
  }

  // ---------- manifests ----------

  datatype IntegrityManifest = IntegrityManifest(
    ruleHashes: seq<Word>, trailHash: Word, trailBlockSize: nat, trailBlockHashes: seq<Word>)

  /** A block size of zero stands for the default. */
  function EffectiveBlockSize(size: nat): (bs: nat)
    ensures bs > 0
  {
    if size == 0 then 64 else size
  }

  /** `m` fingerprints exactly these rules and this trail. */
  ghost predicate Describes(m: IntegrityManifest, rules: seq<AdaptiveRule>, trail: seq<SymbolId>) {
    && m.trailBlockSize > 0
    && |m.ruleHashes| == |rules|
    && (forall i :: 0 <= i < |rules| ==> m.ruleHashes[i] == RuleHash(rules[i]))
    && m.trailHash == TrailHash(trail)
    && |m.trailBlockHashes| == BlockCount(|trail|, m.trailBlockSize)
    && (forall i :: 0 <= i < |m.trailBlockHashes| ==>
      m.trailBlockHashes[i] == TrailHash(Block(trail, i, m.trailBlockSize)))
  }

  method MixU64(h0: Word, v0: nat) returns (h: Word)
    ensures h == AbsorbAll(h0, ToBytes(v0, 8))
  {
    h := h0;
    var v := v0;
    ghost var bytes := ToBytes(v0, 8);
    for i := 0 to 8
      invariant bytes[i..] == ToBytes(v, 8 - i)
      invariant h == AbsorbAll(h0, bytes[..i])
    {
      assert bytes[i] == v % 256;
      assert bytes[i + 1..] == bytes[i..][1..];
      assert bytes[..i + 1][..i] == bytes[..i];
      h := (Xor(h, v % 256) * PRIME) % WORD;
      v := v / 256;
    }
    assert bytes[..8] == bytes;
  }

  method HashTrailRange(trail: seq<SymbolId>, begin: nat, end: nat) returns (h: Word)
    requires begin <= end <= |trail|
    ensures h == TrailHash(trail[begin..end])
  {
    h := MixU64(OFFSET, end - begin);
    ghost var head := ToBytes(end - begin, 8);
    h := HashSymbols(h, head, trail, begin, end);
  }

  /** The state after `head` and the symbols of `s`. */
  ghost function HashedTo(head: seq<Byte>, s: seq<SymbolId>): Word {
    AbsorbAll(OFFSET, head + TrailBytes(s))
  }

  method HashSymbols(h0: Word, ghost head: seq<Byte>, trail: seq<SymbolId>, begin: nat, end: nat)
    returns (h: Word)
    requires begin <= end <= |trail|
    requires h0 == AbsorbAll(OFFSET, head)
    ensures h == HashedTo(head, trail[begin..end])
  {
    h := h0;
    HashNone(head, trail[begin..begin]);
    for i := begin to end
      invariant h == HashedTo(head, trail[begin..i])
    {
      HashOneMore(head, trail[begin..i], trail[i], trail[begin..i + 1]);
      h := MixU64(h, trail[i]);
    }
  }

  lemma HashNone(head: seq<Byte>, none: seq<SymbolId>)
    requires none == []
    ensures HashedTo(head, none) == AbsorbAll(OFFSET, head)
  {
    assert head + TrailBytes([]) == head;
  }

  lemma HashOneMore(head: seq<Byte>, s: seq<SymbolId>, x: SymbolId, t: seq<SymbolId>)
    requires t == s + [x]
    ensures HashedTo(head, t) == AbsorbAll(HashedTo(head, s), ToBytes(x, 8))
  {
    TrailBytesPush(s, x, t);
    AbsorbJoined(OFFSET, head, TrailBytes(s), ToBytes(x, 8));
  }

  lemma TrailBytesPush(s: seq<SymbolId>, x: SymbolId, t: seq<SymbolId>)
    requires t == s + [x]
    ensures TrailBytes(t) == TrailBytes(s) + ToBytes(x, 8)
  {
    assert t[..|t| - 1] == s;
  }

  lemma AbsorbJoined(h: Word, a: seq<Byte>, b: seq<Byte>, c: seq<Byte>)
    ensures AbsorbAll(h, a + (b + c)) == AbsorbAll(AbsorbAll(h, a + b), c)
  {
    assert a + (b + c) == a + b + c;
    AbsorbConcat(h, a + b, c);
  }

  method HashRule(r: AdaptiveRule) returns (h: Word)
    ensures h == RuleHash(r)
  {
    h := MixU64(OFFSET, r.id);
    h := MixU64(h, r.left);
    h := MixU64(h, r.right);
    h := MixU64(h, r.frequency);
    AbsorbConcat(OFFSET, ToBytes(r.id, 8), ToBytes(r.left, 8));
    AbsorbConcat(OFFSET, ToBytes(r.id, 8) + ToBytes(r.left, 8), ToBytes(r.right, 8));
    AbsorbConcat(OFFSET, ToBytes(r.id, 8) + ToBytes(r.left, 8) + ToBytes(r.right, 8), ToBytes(r.frequency, 8));
  }

  method BuildIntegrityManifest(rules: seq<AdaptiveRule>, trail: seq<SymbolId>, blockSize: nat)
    returns (m: IntegrityManifest)
    ensures m.trailBlockSize == if blockSize == 0 then 64 else blockSize
    ensures Describes(m, rules, trail)
  {
    var bs := EffectiveBlockSize(blockSize);
    var ruleHashes: seq<Word> := [];
    for i := 0 to |rules|
      invariant |ruleHashes| == i
      invariant forall j :: 0 <= j < i ==> ruleHashes[j] == RuleHash(rules[j])
    {
      var h := HashRule(rules[i]);
      ruleHashes := ruleHashes + [h];
    }
    var trailHash := HashTrailRange(trail, 0, |trail|);
    assert trail[0..|trail|] == trail;
    var hashes: seq<Word> := [];
    var begin := 0;
    BlockRange(|trail|, 0, bs);
    while begin < |trail|
      invariant begin == |hashes| * bs
      invariant |hashes| <= BlockCount(|trail|, bs)
      invariant begin < |trail| <==> |hashes| < BlockCount(|trail|, bs)
      invariant forall i :: 0 <= i < |hashes| ==> hashes[i] == TrailHash(Block(trail, i, bs))
    {
      var end := Min(begin + bs, |trail|);
      var h := HashTrailRange(trail, begin, end);
      NextBlock(|trail|, |hashes|, bs);
      hashes := hashes + [h];
      begin := begin + bs;
    }
    m := IntegrityManifest(ruleHashes, trailHash, bs, hashes);
  }

  /** Positions reported when stored fingerprints are compared with fresh ones. */
  ghost predicate Increasing(s: seq<nat>, bound: nat) {
    && (forall i, j :: 0 <= i < j < |s| ==> s[i] < s[j])
    && (forall i :: 0 <= i < |s| ==> s[i] < bound)
  }

  ghost predicate Reports(bad: seq<nat>, stored: seq<Word>, actual: seq<Word>) {
    && Increasing(bad, Max(|stored|, |actual|))
    && (forall i: nat :: i in bad <==>
      ((i < |stored| && i < |actual| && stored[i] != actual[i])
       || Min(|stored|, |actual|) <= i < Max(|stored|, |actual|)))
  }

  function RuleHashes(rules: seq<AdaptiveRule>): (s: seq<Word>)
    ensures |s| == |rules|
  {
    seq(|rules|, i requires 0 <= i < |rules| => RuleHash(rules[i]))
  }

  function BlockHashes(trail: seq<SymbolId>, size: nat): seq<Word>
    requires size > 0
  {
    seq(BlockCount(|trail|, size), i requires 0 <= i => TrailHash(Block(trail, i, size)))
  }

  method FindCorruptedRules(m: IntegrityManifest, rules: seq<AdaptiveRule>) returns (bad: seq<nat>)
    ensures Reports(bad, m.ruleHashes, RuleHashes(rules))
  {
    bad := [];
    var common := Min(|rules|, |m.ruleHashes|);
    for i := 0 to common
      invariant Increasing(bad, i)
      invariant forall j: nat :: j in bad <==> j < i && m.ruleHashes[j] != RuleHash(rules[j])
    {
      var h := HashRule(rules[i]);
      if h != m.ruleHashes[i] {
        bad := bad + [i];
      }
    }
    if |rules| != |m.ruleHashes| {
      bad := AppendRange(bad, common, Max(|rules|, |m.ruleHashes|));
    }
  }

  method AppendRange(bad0: seq<nat>, lo: nat, hi: nat) returns (bad: seq<nat>)
    requires lo <= hi && Increasing(bad0, lo)
    ensures Increasing(bad, hi)
    ensures forall j: nat :: j in bad <==> j in bad0 || lo <= j < hi
  {
    bad := bad0;
    for i := lo to hi
      invariant Increasing(bad, i)
      invariant forall j: nat :: j in bad <==> j in bad0 || lo <= j < i
    {
      bad := bad + [i];
    }
  }

  method FindCorruptedTrailBlocks(m: IntegrityManifest, trail: seq<SymbolId>) returns (bad: seq<nat>)
    ensures Reports(bad, m.trailBlockHashes, BlockHashes(trail, EffectiveBlockSize(m.trailBlockSize)))
  {
    bad := [];
    var bs := EffectiveBlockSize(m.trailBlockSize);
    var blockCount := BlockCount(|trail|, bs);
    var common := Min(blockCount, |m.trailBlockHashes|);
    for b := 0 to common
      invariant Increasing(bad, b)
      invariant forall j: nat :: j in bad <==> j < b && m.trailBlockHashes[j] != TrailHash(Block(trail, j, bs))
    {
      var begin := b * bs;
      BlockRange(|trail|, b, bs);
      var h := HashTrailRange(trail, begin, Min(begin + bs, |trail|));
      if h != m.trailBlockHashes[b] {
        bad := bad + [b];
      }
    }
    if blockCount != |m.trailBlockHashes| {
      bad := AppendRange(bad, common, Max(blockCount, |m.trailBlockHashes|));
    }
  }

  // ---------- what the reports mean ----------

  /** Undamaged rules and blocks are never reported. */
  lemma UndamagedNotReported(m: IntegrityManifest, rules: seq<AdaptiveRule>, trail: seq<SymbolId>,
                             rules': seq<AdaptiveRule>, trail': seq<SymbolId>,
                             badRules: seq<nat>, badBlocks: seq<nat>, i: nat)
    requires Describes(m, rules, trail) && |rules'| == |rules| && |trail'| == |trail|
    requires Reports(badRules, m.ruleHashes, RuleHashes(rules'))
    requires Reports(badBlocks, m.trailBlockHashes, BlockHashes(trail', m.trailBlockSize))
    ensures i < |rules| && rules'[i] == rules[i] ==> i !in badRules
    ensures Block(trail', i, m.trailBlockSize) == Block(trail, i, m.trailBlockSize) ==> i !in badBlocks
  {}

  /** `v` and `w` differ in exactly one of their eight bytes. */
  ghost predicate DifferInOneByte(v: nat, w: nat) {
    OneByteApart(ToBytes(v, 8), ToBytes(w, 8))
  }

  ghost predicate OneByteApart(s: seq<Byte>, t: seq<Byte>) {
    |s| == |t| && exists k :: 0 <= k < |s| && s[k] != t[k] && t == s[k := t[k]]
  }

  lemma OneByteApartHash(h: Word, s: seq<Byte>, t: seq<Byte>)
    requires OneByteApart(s, t)
    ensures AbsorbAll(h, s) != AbsorbAll(h, t)
  {
    var k :| 0 <= k < |s| && s[k] != t[k] && t == s[k := t[k]];
    OneByteChanges(h, s, k, t[k]);
  }

  lemma OneByteApartConcat(pre: seq<Byte>, s: seq<Byte>, t: seq<Byte>, post: seq<Byte>)
    requires OneByteApart(s, t)
    ensures OneByteApart(pre + s + post, pre + t + post)
  {
    var k :| 0 <= k < |s| && s[k] != t[k] && t == s[k := t[k]];
    var u, v := pre + s + post, pre + t + post;
    assert u[|pre| + k] == s[k] && v[|pre| + k] == t[k];
    assert v == u[|pre| + k := v[|pre| + k]];
  }

  /** A rule with one damaged byte, in whichever field, is reported. */
  lemma DamagedRuleReported(m: IntegrityManifest, rules: seq<AdaptiveRule>, trail: seq<SymbolId>,
                            rules': seq<AdaptiveRule>, bad: seq<nat>, i: nat)
    requires Describes(m, rules, trail) && |rules'| == |rules| && i < |rules|
    requires Reports(bad, m.ruleHashes, RuleHashes(rules'))
    requires OneByteApart(RuleBytes(rules[i]), RuleBytes(rules'[i]))
    ensures i in bad
  {
    OneByteApartHash(OFFSET, RuleBytes(rules[i]), RuleBytes(rules'[i]));
  }

  lemma {:induction false} TrailBytesUpdate(s: seq<SymbolId>, i: nat, w: SymbolId)
    requires i < |s|
    ensures TrailBytes(s) == TrailBytes(s)[..8 * i] + ToBytes(s[i], 8) + TrailBytes(s)[8 * i + 8..]
    ensures TrailBytes(s[i := w]) == TrailBytes(s)[..8 * i] + ToBytes(w, 8) + TrailBytes(s)[8 * i + 8..]
    decreases |s|
  {
    var n := |s| - 1;
    var front, last := TrailBytes(s[..n]), ToBytes(s[n], 8);
    if i == n {
      assert s[i := w][..n] == s[..n];
    } else {
      TrailBytesUpdate(s[..n], i, w);
      assert s[i := w][..n] == s[..n][i := w];
      SplitGrows(front, last, 8 * i, 8);
      Regroup(front[..8 * i] + ToBytes(s[i], 8), front[8 * i + 8..], last);
      Regroup(front[..8 * i] + ToBytes(w, 8), front[8 * i + 8..], last);
    }
  }

  lemma SplitGrows(front: seq<Byte>, last: seq<Byte>, i: nat, n: nat)
    requires i + n <= |front|
    ensures (front + last)[..i] == front[..i]
    ensures (front + last)[i + n..] == front[i + n..] + last
  {}

  lemma TrailBytesOneApart(s: seq<SymbolId>, i: nat, w: SymbolId)
    requires i < |s| && DifferInOneByte(s[i], w)
    ensures OneByteApart(TrailBytes(s), TrailBytes(s[i := w]))
  {
    TrailBytesUpdate(s, i, w);
    OneByteApartConcat(TrailBytes(s)[..8 * i], ToBytes(s[i], 8), ToBytes(w, 8), TrailBytes(s)[8 * i + 8..]);
  }

  /** One damaged byte in one symbol changes the fingerprint of the block that holds the symbol. */
  lemma DamagedSymbolDetected(s: seq<SymbolId>, i: nat, w: SymbolId)
    requires i < |s| && DifferInOneByte(s[i], w)
    ensures TrailHash(s[i := w]) != TrailHash(s)
  {
    var head, u, v := ToBytes(|s|, 8), TrailBytes(s), TrailBytes(s[i := w]);
    TrailBytesOneApart(s, i, w);
    OneByteApartConcat(head, u, v, []);
    assert head + u + [] == head + u && head + v + [] == head + v;
    OneByteApartHash(OFFSET, head + u, head + v);
  }

  /** A single damaged symbol byte is reported as exactly the block that contains it. */
  lemma DamagedBlockReported(m: IntegrityManifest, rules: seq<AdaptiveRule>, trail: seq<SymbolId>,
                             p: nat, w: SymbolId, bad: seq<nat>)
    requires Describes(m, rules, trail) && p < |trail| && DifferInOneByte(trail[p], w)
    requires Reports(bad, m.trailBlockHashes, BlockHashes(trail[p := w], m.trailBlockSize))
    ensures forall b: nat :: b in bad <==> b == p / m.trailBlockSize
  {
    var bs := m.trailBlockSize;
    BlockOf(|trail|, p, bs);
    forall b: nat | b < BlockCount(|trail|, bs)
      ensures TrailHash(Block(trail[p := w], b, bs)) != TrailHash(Block(trail, b, bs)) <==> b == p / bs
    {
      DamagedBlockHash(trail, p, w, b, bs);
    }
  }

  lemma DamagedBlockHash(trail: seq<SymbolId>, p: nat, w: SymbolId, b: nat, bs: nat)
    requires bs > 0 && p < |trail| && DifferInOneByte(trail[p], w) && b < BlockCount(|trail|, bs)
    ensures TrailHash(Block(trail[p := w], b, bs)) != TrailHash(Block(trail, b, bs)) <==> b == p / bs
  {
    BlockRange(|trail|, b, bs);
    BlockOf(|trail|, p, bs);
    var block := Block(trail, b, bs);
    if b == p / bs {
      DamagedSymbolDetected(block, p - b * bs, w);
      assert Block(trail[p := w], b, bs) == block[p - b * bs := w];
    } else {
      BlocksDisjoint(p, b, bs);
      assert Block(trail[p := w], b, bs) == block;
    }
  }

  lemma BlocksDisjoint(p: nat, b: nat, bs: nat)
    requires bs > 0 && b != p / bs
    ensures p < b * bs || b * bs + bs <= p
  {
    var c := p / bs;
    assert p == c * bs + p % bs;
    if b < c {
      MulMonotone(b + 1, c, bs);
    } else {
      MulMonotone(c + 1, b, bs);
    }
  }
}
