/**
  Repair of damaged trail symbols inside one block.

  The damaged block is known, the damaged positions are not: every candidate position (or pair) is repaired
  from the parity and the repair is accepted when it restores the stored block fingerprint.
*/
module TrailRecovery {
  import opened Words
  import opened Common
  import opened Integrity
  import opened ParityEquations

  datatype TrailParityBlock = TrailParityBlock(beginIndex: nat, count: nat, xorSymbol: Word)

  datatype TrailDualParityBlock = TrailDualParityBlock(beginIndex: nat, count: nat, p: Lanes, q: Lanes)

  type Trail = seq<Word>

  // ---------- building parity ----------

  ghost predicate IsXorParity(b: TrailParityBlock, trail: Trail, i: nat, size: nat)
    requires size > 0
  {
    b.beginIndex == i * size && b.count == |Block(trail, i, size)| && b.xorSymbol == XorAll(Block(trail, i, size))
  }

  ghost predicate IsDualParity(b: TrailDualParityBlock, trail: Trail, i: nat, size: nat)
    requires 0 < size <= 255
  {
    b.beginIndex == i * size && b.count == |Block(trail, i, size)| && Balanced(Block(trail, i, size), b.p, b.q)
  }

  method BuildTrailParity(trail: Trail, size: nat) returns (out: seq<TrailParityBlock>)
    ensures size == 0 ==> out == []
    ensures size > 0 ==> |out| == BlockCount(|trail|, size)
    ensures size > 0 ==> forall i :: 0 <= i < |out| ==> IsXorParity(out[i], trail, i, size)
  {
    out := [];
    if size == 0 {
      return;
    }
    var begin := 0;
    BlockRange(|trail|, 0, size);
    while begin < |trail|
      invariant begin == |out| * size && |out| <= BlockCount(|trail|, size)
      invariant begin < |trail| <==> |out| < BlockCount(|trail|, size)
      invariant forall i :: 0 <= i < |out| ==> IsXorParity(out[i], trail, i, size)
    {
      var count := Min(size, |trail| - begin);
      var x := XorSymbols(trail[begin..begin + count]);
      NextBlock(|trail|, |out|, size);
      out := out + [TrailParityBlock(begin, count, x)];
      begin := begin + size;
    }
  }

  method XorSymbols(block: Trail) returns (x: Word)
    ensures x == XorAll(block)
  {
    x := 0;
    for i := 0 to |block|
      invariant x == XorAll(block[..i])
    {
      assert block[..i + 1][..i] == block[..i];
      XorWord(x, block[i]);
      x := Xor(x, block[i]);
    }
    assert block[..|block|] == block;
  }

  method BuildTrailDualParity(trail: Trail, size: nat) returns (out: seq<TrailDualParityBlock>)
    ensures size == 0 || size > 255 ==> out == []
    ensures 0 < size <= 255 ==> |out| == BlockCount(|trail|, size)
    ensures 0 < size <= 255 ==> forall i :: 0 <= i < |out| ==> IsDualParity(out[i], trail, i, size)
  {
    out := [];
    if size == 0 || size > 255 {
      return;
    }
    var begin := 0;
    BlockRange(|trail|, 0, size);
    while begin < |trail|
      invariant begin == |out| * size && |out| <= BlockCount(|trail|, size)
      invariant begin < |trail| <==> |out| < BlockCount(|trail|, size)
      invariant forall i :: 0 <= i < |out| ==> IsDualParity(out[i], trail, i, size)
    {
      var count := Min(size, |trail| - begin);
      var p, q := DualParity(trail[begin..begin + count]);
      NextBlock(|trail|, |out|, size);
      out := out + [TrailDualParityBlock(begin, count, p, q)];
      begin := begin + size;
    }
  }

  // ---------- fingerprints of repaired blocks ----------

  ghost predicate BlockHashMatches(m: IntegrityManifest, trail: Trail, i: nat) {
    && i < |m.trailBlockHashes|
    && TrailHash(Block(trail, i, EffectiveBlockSize(m.trailBlockSize))) == m.trailBlockHashes[i]
  }

  method CheckBlockHash(m: IntegrityManifest, trail: Trail, i: nat) returns (ok: bool)
    ensures ok <==> BlockHashMatches(m, trail, i)
  {
    if i >= |m.trailBlockHashes| {
      return false;
    }
    var bs := EffectiveBlockSize(m.trailBlockSize);
    var begin := i * bs;
    var block := if begin > |trail| then [] else trail[begin..Min(begin + bs, |trail|)];
    var h := HashTrailRange(block, 0, |block|);
    assert block[0..|block|] == block;
    ok := h == m.trailBlockHashes[i];
  }

  // ---------- the bookkeeping of a search ----------

  /** The only element of a set of accepted repairs, or nothing if the set is empty. */
  ghost predicate Unique(accepted: iset<Trail>, unique: Option<Trail>) {
    match unique
    case None => accepted == iset{}
    case Some(u) => accepted == iset{u}
  }

  /** The result of a search that gives up when two accepted repairs differ. */
  ghost predicate Outcome(accepted: iset<Trail>, r: Option<Trail>) {
    if r.Some? then accepted == iset{r.value}
    else accepted == iset{} || exists u, v :: u != v && u in accepted && v in accepted
  }

  // ---------- two symbols ----------

  /** `t` is the damaged trail with new symbols at `a` and `b` of the block, and satisfies both parities. */
  ghost predicate IsPairRepair(parity: TrailDualParityBlock, damaged: Trail, a: nat, b: nat, t: Trail) {
    var begin, end := parity.beginIndex, parity.beginIndex + parity.count;
    && a < b < parity.count <= 255 && end <= |damaged|
    && AgreeOutside(damaged, t, begin + a, begin + b)
    && Balanced(t[begin..end], parity.p, parity.q)
  }

  /** Repairs that restore the stored fingerprint. */
  ghost function AcceptedPairs(m: IntegrityManifest, parity: TrailDualParityBlock, damaged: Trail, i: nat)
    : iset<Trail>
  {
    iset t: Trail | BlockHashMatches(m, t, i) && exists a: nat, b: nat :: IsPairRepair(parity, damaged, a, b, t)
  }

  /** A repair is returned exactly when it is the only accepted one. */
  ghost predicate PairOutcome(m: IntegrityManifest, parity: TrailDualParityBlock, damaged: Trail, i: nat,
                              r: Option<Trail>)
  {
    if parity.beginIndex + parity.count > |damaged| || parity.count < 2 || parity.count > 255 then r == None
    else Outcome(AcceptedPairs(m, parity, damaged, i), r)
  }

  method RepairPair(parity: TrailDualParityBlock, damaged: Trail, a: nat, b: nat) returns (t: Trail)
    requires a < b < parity.count <= 255 && parity.beginIndex + parity.count <= |damaged|
    ensures IsPairRepair(parity, damaged, a, b, t)
  {
    var begin, end := parity.beginIndex, parity.beginIndex + parity.count;
    var va, vb := SolvePair(damaged[begin..end], parity.p, parity.q, a, b);
    t := damaged[begin + a := va][begin + b := vb];
    assert t[begin..end] == damaged[begin..end][a := va][b := vb];
  }

  /** A pair of positions has only one repair. */
  lemma PairRepairUnique(parity: TrailDualParityBlock, damaged: Trail, a: nat, b: nat, t: Trail, u: Trail)
    requires IsPairRepair(parity, damaged, a, b, t) && IsPairRepair(parity, damaged, a, b, u)
    ensures t == u
  {
    RepairedSlicesEqual(parity, damaged, a, b, t, u);
    EqualSlices(damaged, t, u, parity.beginIndex, parity.beginIndex + parity.count, a, b);
  }

  lemma RepairedSlicesEqual(parity: TrailDualParityBlock, damaged: Trail, a: nat, b: nat, t: Trail, u: Trail)
    requires IsPairRepair(parity, damaged, a, b, t) && IsPairRepair(parity, damaged, a, b, u)
    ensures var begin, end := parity.beginIndex, parity.beginIndex + parity.count;
            t[begin..end] == u[begin..end]
  {
    var begin, end := parity.beginIndex, parity.beginIndex + parity.count;
    AgreeingSlices(damaged, t, u, begin, end, a, b);
    var x: Trail, y: Trail := t[begin..end], u[begin..end];
    assert x == y by {
      RepairBalances(parity, damaged, a, b, t, x);
      RepairBalances(parity, damaged, a, b, u, y);
      BlocksEqual(x, y, parity.p, parity.q, a, b);
    }
  }

  lemma RepairBalances(parity: TrailDualParityBlock, damaged: Trail, a: nat, b: nat, t: Trail, block: Trail)
    requires IsPairRepair(parity, damaged, a, b, t)
    requires block == t[parity.beginIndex..parity.beginIndex + parity.count]
    ensures Balanced(block, parity.p, parity.q)
  {}

  lemma BlocksEqual(x: Trail, y: Trail, p: Lanes, q: Lanes, a: nat, b: nat)
    requires a < b < |x| <= 255 && AgreeOutside(x, y, a, b) && Balanced(x, p, q) && Balanced(y, p, q)
    ensures x == y
  {
    TwoUnknownsDetermined(x, y, p, q, a, b);
  }

  lemma AgreeingSlices(damaged: Trail, t: Trail, u: Trail, begin: nat, end: nat, a: nat, b: nat)
    requires begin <= end <= |damaged| && a < end - begin && b < end - begin
    requires AgreeOutside(damaged, t, begin + a, begin + b) && AgreeOutside(damaged, u, begin + a, begin + b)
    ensures AgreeOutside(t[begin..end], u[begin..end], a, b)
  {
    forall k | 0 <= k < end - begin && k != a && k != b
      ensures t[begin..end][k] == u[begin..end][k]
    {
      assert damaged[begin + k] == t[begin + k] && damaged[begin + k] == u[begin + k];
    }
  }

  lemma EqualSlices(damaged: Trail, t: Trail, u: Trail, begin: nat, end: nat, a: nat, b: nat)
    requires begin <= end <= |damaged| && a < end - begin && b < end - begin
    requires AgreeOutside(damaged, t, begin + a, begin + b) && AgreeOutside(damaged, u, begin + a, begin + b)
    requires t[begin..end] == u[begin..end]
    ensures t == u
  {
    assert t[begin + a] == t[begin..end][a] && u[begin + a] == u[begin..end][a];
    assert t[begin + b] == t[begin..end][b] && u[begin + b] == u[begin..end][b];
  }

  /** `(a, b)` comes before `(c, d)` in the order of the search. */
  predicate Before(a: nat, b: nat, c: nat, d: nat) {
    a < c || (a == c && b < d)
  }

  /** Accepted repairs among the pairs before `(c, d)`. */
  ghost function AcceptedBefore(m: IntegrityManifest, parity: TrailDualParityBlock, damaged: Trail, i: nat,
                                c: nat, d: nat): iset<Trail>
  {
    iset t: Trail | BlockHashMatches(m, t, i)
                    && exists a: nat, b: nat :: Before(a, b, c, d) && IsPairRepair(parity, damaged, a, b, t)
  }

  lemma AcceptedStep(m: IntegrityManifest, parity: TrailDualParityBlock, damaged: Trail, i: nat,
                     c: nat, d: nat, t: Trail)
    requires IsPairRepair(parity, damaged, c, d, t)
    ensures AcceptedBefore(m, parity, damaged, i, c, d + 1)
         == AcceptedBefore(m, parity, damaged, i, c, d) + (if BlockHashMatches(m, t, i) then iset{t} else iset{})
  {
    forall u: Trail
      ensures u in AcceptedBefore(m, parity, damaged, i, c, d + 1)
         <==> u in AcceptedBefore(m, parity, damaged, i, c, d) || (u == t && BlockHashMatches(m, t, i))
    {
      AcceptedStepMember(m, parity, damaged, i, c, d, t, u);
    }
  }

  lemma AcceptedStepMember(m: IntegrityManifest, parity: TrailDualParityBlock, damaged: Trail, i: nat,
                           c: nat, d: nat, t: Trail, u: Trail)
    requires IsPairRepair(parity, damaged, c, d, t)
    ensures u in AcceptedBefore(m, parity, damaged, i, c, d + 1)
       <==> u in AcceptedBefore(m, parity, damaged, i, c, d) || (u == t && BlockHashMatches(m, t, i))
  {
    if u in AcceptedBefore(m, parity, damaged, i, c, d + 1) {
      var a: nat, b: nat :| Before(a, b, c, d + 1) && IsPairRepair(parity, damaged, a, b, u);
      if !Before(a, b, c, d) {
        PairRepairUnique(parity, damaged, c, d, t, u);
      }
    }
    if u in AcceptedBefore(m, parity, damaged, i, c, d) {
      var a: nat, b: nat :| Before(a, b, c, d) && IsPairRepair(parity, damaged, a, b, u);
      assert Before(a, b, c, d + 1);
    }
    assert Before(c, d, c, d + 1);
  }

  /** The end of a row of pairs is the start of the next one. */
  lemma AcceptedRow(m: IntegrityManifest, parity: TrailDualParityBlock, damaged: Trail, i: nat, c: nat)
    ensures AcceptedBefore(m, parity, damaged, i, c, parity.count)
         == AcceptedBefore(m, parity, damaged, i, c + 1, c + 2)
  {
    forall u: Trail, a: nat, b: nat | IsPairRepair(parity, damaged, a, b, u)
      ensures Before(a, b, c, parity.count) <==> Before(a, b, c + 1, c + 2)
    {}
  }

  lemma AcceptedAll(m: IntegrityManifest, parity: TrailDualParityBlock, damaged: Trail, i: nat)
    ensures AcceptedBefore(m, parity, damaged, i, 0, 1) == iset{}
    ensures AcceptedBefore(m, parity, damaged, i, parity.count, parity.count + 1)
         == AcceptedPairs(m, parity, damaged, i)
  {
    forall u: Trail, a: nat, b: nat | IsPairRepair(parity, damaged, a, b, u)
      ensures Before(a, b, parity.count, parity.count + 1)
      ensures !Before(a, b, 0, 1)
    {}
  }

  lemma TwoDiffer(m: IntegrityManifest, parity: TrailDualParityBlock, damaged: Trail, i: nat, c: nat, d: nat,
                  t: Trail, u: Trail)
    requires t != u && t in AcceptedBefore(m, parity, damaged, i, c, d + 1)
    requires u in AcceptedBefore(m, parity, damaged, i, c, d + 1)
    ensures Outcome(AcceptedPairs(m, parity, damaged, i), None)
  {
    assert t in AcceptedPairs(m, parity, damaged, i);
    assert u in AcceptedPairs(m, parity, damaged, i);
  }

  method RecoverTwoSymbolsInBlock(m: IntegrityManifest, parity: TrailDualParityBlock, damaged: Trail, i: nat)
    returns (r: Option<Trail>)
    ensures PairOutcome(m, parity, damaged, i, r)
  {
    if parity.beginIndex + parity.count > |damaged| {
      return None;
    }
    if parity.count < 2 || parity.count > 255 {
      return None;
    }
    var unique: Option<Trail> := None;
    AcceptedAll(m, parity, damaged, i);
    for a := 0 to parity.count
      invariant Unique(AcceptedBefore(m, parity, damaged, i, a, a + 1), unique)
    {
      var conflict;
      conflict, unique := TryRow(m, parity, damaged, i, a, unique);
      if conflict {
        return None;
      }
      AcceptedRow(m, parity, damaged, i, a);
    }
    r := unique;
  }

  /** The inner loop: all pairs whose first position is `a`. */
  method TryRow(m: IntegrityManifest, parity: TrailDualParityBlock, damaged: Trail, i: nat, a: nat,
                unique0: Option<Trail>)
    returns (conflict: bool, unique: Option<Trail>)
    requires a < parity.count <= 255 && parity.beginIndex + parity.count <= |damaged|
    requires Unique(AcceptedBefore(m, parity, damaged, i, a, a + 1), unique0)
    ensures conflict ==> Outcome(AcceptedPairs(m, parity, damaged, i), None)
    ensures !conflict ==> Unique(AcceptedBefore(m, parity, damaged, i, a, parity.count), unique)
  {
    conflict, unique := false, unique0;
    for b := a + 1 to parity.count
      invariant Unique(AcceptedBefore(m, parity, damaged, i, a, b), unique)
    {
      conflict, unique := TryNext(m, parity, damaged, i, a, b, unique);
      if conflict {
        return;
      }
    }
  }

  /** One more pair: a second, different repair is a conflict. */
  method TryNext(m: IntegrityManifest, parity: TrailDualParityBlock, damaged: Trail, i: nat, a: nat, b: nat,
                 unique0: Option<Trail>)
    returns (conflict: bool, unique: Option<Trail>)
    requires a < b < parity.count <= 255 && parity.beginIndex + parity.count <= |damaged|
    requires Unique(AcceptedBefore(m, parity, damaged, i, a, b), unique0)
    ensures conflict ==> Outcome(AcceptedPairs(m, parity, damaged, i), None)
    ensures !conflict ==> Unique(AcceptedBefore(m, parity, damaged, i, a, b + 1), unique)
  {
    conflict, unique := false, unique0;
    var repaired, matches := TryPair(m, parity, damaged, i, a, b);
    if matches {
      if unique.Some? && unique.value != repaired {
        TwoDiffer(m, parity, damaged, i, a, b, repaired, unique.value);
        return true, unique;
      }
      unique := Some(repaired);
    }
  }

  method TryPair(m: IntegrityManifest, parity: TrailDualParityBlock, damaged: Trail, i: nat, a: nat, b: nat)
    returns (repaired: Trail, matches: bool)
    requires a < b < parity.count <= 255 && parity.beginIndex + parity.count <= |damaged|
    ensures AcceptedBefore(m, parity, damaged, i, a, b + 1)
         == AcceptedBefore(m, parity, damaged, i, a, b) + (if matches then iset{repaired} else iset{})
  {
    repaired := RepairPair(parity, damaged, a, b);
    matches := CheckBlockHash(m, repaired, i);
    AcceptedStep(m, parity, damaged, i, a, b, repaired);
  }

  // ---------- one symbol ----------

  ghost predicate IsSingleRepair(parity: TrailParityBlock, damaged: Trail, c: nat, t: Trail) {
    var begin, end := parity.beginIndex, parity.beginIndex + parity.count;
    && c < parity.count && end <= |damaged|
    && AgreeOutside(damaged, t, begin + c, begin + c)
    && XorAll(t[begin..end]) == parity.xorSymbol
  }

  ghost function AcceptedSingles(m: IntegrityManifest, parity: TrailParityBlock, damaged: Trail, i: nat, n: nat)
    : iset<Trail>
  {
    iset t: Trail | BlockHashMatches(m, t, i) && exists c: nat :: c < n && IsSingleRepair(parity, damaged, c, t)
  }

  ghost predicate SingleOutcome(m: IntegrityManifest, parity: TrailParityBlock, damaged: Trail, i: nat,
                                r: Option<Trail>)
  {
    if parity.beginIndex + parity.count > |damaged| then r == None
    else Outcome(AcceptedSingles(m, parity, damaged, i, parity.count), r)
  }

  method RepairSingle(parity: TrailParityBlock, damaged: Trail, c: nat) returns (t: Trail)
    requires c < parity.count && parity.beginIndex + parity.count <= |damaged|
    ensures IsSingleRepair(parity, damaged, c, t)
  {
    var begin, end := parity.beginIndex, parity.beginIndex + parity.count;
    var recovered := XorOthers(parity.xorSymbol, damaged[begin..end], c);
    FillIn(damaged[begin..end], c, parity.xorSymbol, recovered);
    t := damaged[begin + c := recovered];
    assert t[begin..end] == damaged[begin..end][c := recovered];
  }

  method XorOthers(x: Word, block: Trail, c: nat) returns (recovered: Word)
    requires c < |block|
    ensures recovered == Xor(x, XorAll(Cleared(block, c)))
  {
    recovered := x;
    XorZero(x);
    for local := 0 to |block|
      invariant recovered == Xor(x, XorAll(Cleared(block, c)[..local]))
    {
      XorPrefix(Cleared(block, c), local, x);
      XorZero(recovered);
      XorWord(recovered, block[local]);
      if local != c {
        recovered := Xor(recovered, block[local]);
      }
    }
    assert Cleared(block, c)[..|block|] == Cleared(block, c);
  }

  function Cleared(block: Trail, c: nat): (s: seq<nat>)
    requires c < |block|
    ensures |s| == |block|
  {
    block[c := 0]
  }

  /** The missing symbol makes the block add up to the parity. */
  lemma FillIn(block: Trail, c: nat, x: Word, v: Word)
    requires c < |block| && v == Xor(x, XorAll(Cleared(block, c)))
    ensures XorAll(block[c := v]) == x
  {
    var s: seq<nat> := Cleared(block, c);
    XorAllUpdate(s, c, v);
    assert s[c := v] == block[c := v];
    XorZero(v);
    XorCommutes(x, XorAll(s));
    XorAssociates(XorAll(s), XorAll(s), x);
    XorSelf(XorAll(s));
    XorZero(x);
  }

  lemma SingleRepairUnique(parity: TrailParityBlock, damaged: Trail, c: nat, t: Trail, u: Trail)
    requires IsSingleRepair(parity, damaged, c, t) && IsSingleRepair(parity, damaged, c, u)
    ensures t == u
  {
    var begin, end := parity.beginIndex, parity.beginIndex + parity.count;
    var tb: seq<nat>, ub: seq<nat> := t[begin..end], u[begin..end];
    assert ub == tb[c := ub[c]];
    SameSum(tb, c, ub[c]);
    assert t[begin + c] == tb[c] && u[begin + c] == ub[c];
  }

  /** An element that can be replaced without changing the exclusive or of all was not replaced. */
  lemma SameSum(s: seq<nat>, c: nat, v: nat)
    requires c < |s| && XorAll(s[c := v]) == XorAll(s)
    ensures v == s[c]
  {
    XorAllUpdate(s, c, v);
    XorCommutes(XorAll(s), Xor(s[c], v));
    XorInjective(Xor(s[c], v), 0, XorAll(s));
    XorSelf(v);
    XorInjective(s[c], v, v);
  }

  method RecoverOneSymbolInBlock(m: IntegrityManifest, parity: TrailParityBlock, damaged: Trail, i: nat)
    returns (r: Option<Trail>)
    ensures SingleOutcome(m, parity, damaged, i, r)
  {
    if parity.beginIndex + parity.count > |damaged| {
      return None;
    }
    var unique: Option<Trail> := None;
    assert AcceptedSingles(m, parity, damaged, i, 0) == iset{};
    for candidate := 0 to parity.count
      invariant Unique(AcceptedSingles(m, parity, damaged, i, candidate), unique)
    {
      var repaired, matches := TrySingle(m, parity, damaged, i, candidate);
      if matches {
        if unique.Some? && unique.value != repaired {
          assert AcceptedSingles(m, parity, damaged, i, candidate + 1)
              <= AcceptedSingles(m, parity, damaged, i, parity.count);
          assert unique.value in AcceptedSingles(m, parity, damaged, i, parity.count);
          return None;
        }
        unique := Some(repaired);
      }
    }
    r := unique;
  }

  method TrySingle(m: IntegrityManifest, parity: TrailParityBlock, damaged: Trail, i: nat, c: nat)
    returns (repaired: Trail, matches: bool)
    requires c < parity.count && parity.beginIndex + parity.count <= |damaged|
    ensures AcceptedSingles(m, parity, damaged, i, c + 1)
         == AcceptedSingles(m, parity, damaged, i, c) + (if matches then iset{repaired} else iset{})
  {
    repaired := RepairSingle(parity, damaged, c);
    matches := CheckBlockHash(m, repaired, i);
    AcceptedSingleStep(m, parity, damaged, i, c, repaired);
  }

  lemma AcceptedSingleStep(m: IntegrityManifest, parity: TrailParityBlock, damaged: Trail, i: nat, c: nat, t: Trail)
    requires IsSingleRepair(parity, damaged, c, t)
    ensures AcceptedSingles(m, parity, damaged, i, c + 1)
         == AcceptedSingles(m, parity, damaged, i, c) + (if BlockHashMatches(m, t, i) then iset{t} else iset{})
  {
    forall u: Trail
      ensures u in AcceptedSingles(m, parity, damaged, i, c + 1)
         <==> u in AcceptedSingles(m, parity, damaged, i, c) || (u == t && BlockHashMatches(m, t, i))
    {
      AcceptedSingleMember(m, parity, damaged, i, c, t, u);
    }
  }

  lemma AcceptedSingleMember(m: IntegrityManifest, parity: TrailParityBlock, damaged: Trail, i: nat, c: nat,
                             t: Trail, u: Trail)
    requires IsSingleRepair(parity, damaged, c, t)
    ensures u in AcceptedSingles(m, parity, damaged, i, c + 1)
       <==> u in AcceptedSingles(m, parity, damaged, i, c) || (u == t && BlockHashMatches(m, t, i))
  {
    if u in AcceptedSingles(m, parity, damaged, i, c + 1) {
      var d: nat :| d < c + 1 && IsSingleRepair(parity, damaged, d, u);
      if d == c {
        SingleRepairUnique(parity, damaged, c, t, u);
      }
    }
  }

  // ---------- what recovery promises ----------

  /** The damaged trail with block `i` put back to its original symbols. */
  function Restored(original: Trail, damaged: Trail, i: nat, size: nat): (t: Trail)
    requires size > 0 && |original| == |damaged|
    ensures |t| == |damaged|
  {
    if i * size <= |damaged| then
      damaged[..i * size] + Block(original, i, size) + damaged[Min(i * size + size, |damaged|)..]
    else damaged
  }

  lemma RestoredBlock(original: Trail, damaged: Trail, i: nat, size: nat)
    requires size > 0 && |original| == |damaged| && i * size <= |damaged|
    ensures Block(Restored(original, damaged, i, size), i, size) == Block(original, i, size)
  {}

  /** The original symbols are among the accepted repairs. */
  lemma OriginalAccepted(original: Trail, damaged: Trail, rules: seq<AdaptiveRule>, m: IntegrityManifest,
                         parity: TrailDualParityBlock, i: nat, x: nat, y: nat)
    requires 2 <= m.trailBlockSize <= 255 && Describes(m, rules, original)
    requires |damaged| == |original| && i < BlockCount(|original|, m.trailBlockSize)
    requires IsDualParity(parity, original, i, m.trailBlockSize) && parity.count >= 2
    requires AgreeOutside(Block(original, i, m.trailBlockSize), Block(damaged, i, m.trailBlockSize), x, y)
    ensures Restored(original, damaged, i, m.trailBlockSize) in AcceptedPairs(m, parity, damaged, i)
  {
    var size := m.trailBlockSize;
    BlockRange(|original|, i, size);
    RestoredHash(original, damaged, rules, m, i);
    var a, b := CoveringPair(x, y, parity.count);
    RestoredIsRepair(original, damaged, parity, i, size, x, y, a, b);
  }

  lemma RestoredHash(original: Trail, damaged: Trail, rules: seq<AdaptiveRule>, m: IntegrityManifest, i: nat)
    requires Describes(m, rules, original)
    requires |damaged| == |original| && i < BlockCount(|original|, m.trailBlockSize)
    ensures BlockHashMatches(m, Restored(original, damaged, i, m.trailBlockSize), i)
  {
    BlockRange(|original|, i, m.trailBlockSize);
    RestoredBlock(original, damaged, i, m.trailBlockSize);
  }

  /** An ordered pair of positions that contains every damaged position of the block. */
  lemma CoveringPair(x: nat, y: nat, count: nat) returns (a: nat, b: nat)
    requires count >= 2
    ensures a < b < count
    ensures (x < count ==> x == a || x == b) && (y < count ==> y == a || y == b)
  {
    var u := if x < count then x else if y < count then y else 0;
    var v := if y < count && y != u then y else if u == 0 then 1 else 0;
    a, b := Min(u, v), Max(u, v);
  }

  lemma RestoredOutside(original: Trail, damaged: Trail, i: nat, size: nat, x: nat, y: nat, k: nat)
    requires size > 0 && |damaged| == |original| && i * size < |original| && k < |original|
    requires AgreeOutside(Block(original, i, size), Block(damaged, i, size), x, y)
    requires k != i * size + x && k != i * size + y
    ensures damaged[k] == Restored(original, damaged, i, size)[k]
  {
    var begin := i * size;
    if begin <= k < begin + |Block(original, i, size)| {
      assert Block(damaged, i, size)[k - begin] == damaged[k];
      assert Block(original, i, size)[k - begin] == Restored(original, damaged, i, size)[k];
    }
  }

  lemma RestoredIsRepair(original: Trail, damaged: Trail, parity: TrailDualParityBlock, i: nat, size: nat,
                         x: nat, y: nat, a: nat, b: nat)
    requires 2 <= size <= 255 && |damaged| == |original| && i * size < |original|
    requires IsDualParity(parity, original, i, size) && a < b < parity.count
    requires AgreeOutside(Block(original, i, size), Block(damaged, i, size), x, y)
    requires (x < parity.count ==> x == a || x == b) && (y < parity.count ==> y == a || y == b)
    ensures IsPairRepair(parity, damaged, a, b, Restored(original, damaged, i, size))
  {
    var t := Restored(original, damaged, i, size);
    var begin, end := parity.beginIndex, parity.beginIndex + parity.count;
    assert t[begin..end] == Block(original, i, size);
    forall k | 0 <= k < |t| && k != begin + a && k != begin + b
      ensures damaged[k] == t[k]
    {
      if begin <= k < end {
        RestoredOutside(original, damaged, i, size, x, y, k);
      }
    }
  }

  /**
    At most two damaged symbols at unknown positions of one block: the result is nothing, or exactly the
    restored trail, whatever fingerprints collide.  It is the restored trail precisely when no other repair
    carries the stored fingerprint.
  */
  lemma TwoSymbolRecovery(original: Trail, damaged: Trail, rules: seq<AdaptiveRule>, m: IntegrityManifest,
                          parity: TrailDualParityBlock, i: nat, x: nat, y: nat, r: Option<Trail>)
    requires 2 <= m.trailBlockSize <= 255 && Describes(m, rules, original)
    requires |damaged| == |original| && i < BlockCount(|original|, m.trailBlockSize)
    requires IsDualParity(parity, original, i, m.trailBlockSize) && parity.count >= 2
    requires AgreeOutside(Block(original, i, m.trailBlockSize), Block(damaged, i, m.trailBlockSize), x, y)
    requires PairOutcome(m, parity, damaged, i, r)
    ensures r == None || r == Some(Restored(original, damaged, i, m.trailBlockSize))
    ensures r.Some? <==>
      AcceptedPairs(m, parity, damaged, i) == iset{Restored(original, damaged, i, m.trailBlockSize)}
  {
    OriginalAccepted(original, damaged, rules, m, parity, i, x, y);
    BlockRange(|original|, i, m.trailBlockSize);
  }

  /** Blocks of a single symbol are outside the reach of two-symbol recovery. */
  lemma ShortBlockNotRecovered(m: IntegrityManifest, parity: TrailDualParityBlock, damaged: Trail, i: nat,
                               r: Option<Trail>)
    requires parity.count < 2 && PairOutcome(m, parity, damaged, i, r)
    ensures r == None
  {}

  /** A returned trail always satisfies the stored fingerprint and both parity equations. */
  lemma ReturnedIsConsistent(m: IntegrityManifest, parity: TrailDualParityBlock, damaged: Trail, i: nat, t: Trail)
    requires PairOutcome(m, parity, damaged, i, Some(t))
    ensures BlockHashMatches(m, t, i) && |t| == |damaged|
    ensures parity.beginIndex + parity.count <= |t| && parity.count <= 255
    ensures Balanced(t[parity.beginIndex..parity.beginIndex + parity.count], parity.p, parity.q)
    ensures forall k :: 0 <= k < |t| && !(parity.beginIndex <= k < parity.beginIndex + parity.count) ==>
      t[k] == damaged[k]
  {
    assert t in AcceptedPairs(m, parity, damaged, i);
    var a: nat, b: nat :| IsPairRepair(parity, damaged, a, b, t);
    RepairIsConsistent(parity, damaged, a, b, t);
  }

  lemma RepairIsConsistent(parity: TrailDualParityBlock, damaged: Trail, a: nat, b: nat, t: Trail)
    requires IsPairRepair(parity, damaged, a, b, t)
    ensures |t| == |damaged| && parity.beginIndex + parity.count <= |t| && parity.count <= 255
    ensures Balanced(t[parity.beginIndex..parity.beginIndex + parity.count], parity.p, parity.q)
    ensures forall k :: 0 <= k < |t| && !(parity.beginIndex <= k < parity.beginIndex + parity.count) ==>
      t[k] == damaged[k]
  {}

  /** The same promise for one damaged symbol and exclusive-or parity. */
  lemma OneSymbolRecovery(original: Trail, damaged: Trail, rules: seq<AdaptiveRule>, m: IntegrityManifest,
                          parity: TrailParityBlock, i: nat, x: nat, r: Option<Trail>)
    requires Describes(m, rules, original)
    requires |damaged| == |original| && i < BlockCount(|original|, m.trailBlockSize)
    requires IsXorParity(parity, original, i, m.trailBlockSize)
    requires AgreeOutside(Block(original, i, m.trailBlockSize), Block(damaged, i, m.trailBlockSize), x, x)
    requires SingleOutcome(m, parity, damaged, i, r)
    ensures r == None || r == Some(Restored(original, damaged, i, m.trailBlockSize))
    ensures r.Some? <==> AcceptedSingles(m, parity, damaged, i, parity.count)
                         == iset{Restored(original, damaged, i, m.trailBlockSize)}
  {
    var size := m.trailBlockSize;
    BlockRange(|original|, i, size);
    RestoredBlock(original, damaged, i, size);
    var c := if x < parity.count then x else 0;
    RestoredIsSingleRepair(original, damaged, parity, i, size, x, c);
    RestoredHash(original, damaged, rules, m, i);
    assert Restored(original, damaged, i, size) in AcceptedSingles(m, parity, damaged, i, parity.count);
  }

  lemma RestoredIsSingleRepair(original: Trail, damaged: Trail, parity: TrailParityBlock, i: nat, size: nat,
                               x: nat, c: nat)
    requires size > 0 && |damaged| == |original| && i * size < |original|
    requires IsXorParity(parity, original, i, size) && c == (if x < parity.count then x else 0)
    requires AgreeOutside(Block(original, i, size), Block(damaged, i, size), x, x)
    ensures IsSingleRepair(parity, damaged, c, Restored(original, damaged, i, size))
  {
    var t := Restored(original, damaged, i, size);
    var begin, end := parity.beginIndex, parity.beginIndex + parity.count;
    assert t[begin..end] == Block(original, i, size);
    forall k | 0 <= k < |t| && k != begin + c
      ensures damaged[k] == t[k]
    {
      if begin <= k < end {
        RestoredOutside(original, damaged, i, size, x, x, k);
      }
    }
  }
}
