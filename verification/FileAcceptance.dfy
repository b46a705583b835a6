/**
  Which files the two readers accept: exactly those with an agreeing checksum that begin with the bytes of something
  valid within the limits, and they return that.
*/
module FileAcceptance {
  import opened Words
  import opened Common
  import opened ByteFormat
  import opened HierarchicalMemory
  import opened TrailRecovery
  import opened RuleRecovery
  import Hierarchical = HierarchicalPersistence
  import opened ProtectedPersistence

  // ---------- the hierarchical state ----------

  lemma NodeReadsBack(s: seq<Byte>)
    ensures var r := Hierarchical.TakeNode(s);
            r.Ok? ==> s == Hierarchical.NodeThen(r.value.value, r.value.rest) && Hierarchical.NodeFits(r.value.value)
  {
    if Hierarchical.TakeNode(s).Ok? {
      var e := Hierarchical.TRUNCATED;
      Pow256Values();
      var s1 := Take(s, 8, e).value.rest;
      var s2 := Take(s1, 8, e).value.rest;
      var s3 := Take(s2, 8, e).value.rest;
      var s4 := Take(s3, 4, e).value.rest;
      TakeReadsBack(s, 8, e);
      TakeReadsBack(s1, 8, e);
      TakeReadsBack(s2, 8, e);
      TakeReadsBack(s3, 4, e);
      TakeReadsBack(s4, 8, e);
    }
  }

  lemma NodesReadBack()
    ensures ReadsBack(Hierarchical.TakeNode, Hierarchical.NodeThen, Hierarchical.NodeFits)
  {
    forall s: seq<Byte> | Hierarchical.TakeNode(s).Ok?
      ensures Hierarchical.NodeFits(Hierarchical.TakeNode(s).value.value)
      ensures s == Hierarchical.NodeThen(Hierarchical.TakeNode(s).value.value, Hierarchical.TakeNode(s).value.rest)
    {
      NodeReadsBack(s);
    }
  }

  /** What an accepted file begins with. */
  lemma ParsedBegins(file: seq<Byte>) returns (rest: seq<Byte>)
    requires Hierarchical.Parsed(file).Ok?
    ensures var rels := Hierarchical.Parsed(file).value;
            && file == Hierarchical.Payload(rels) + rest && Intact(file) && Hierarchical.Fits(rels)
            && |rels| <= Hierarchical.MAX_RELATIONS
  {
    var rels, e := Hierarchical.Parsed(file).value, Hierarchical.TRUNCATED;
    var s1 := TakeBytes(file, 8, Hierarchical.BAD_MAGIC).value.rest;
    var s2 := Take(s1, 4, e).value.rest;
    var s3 := Take(s2, 8, e).value.rest;
    BytesReadBack(file, 8, Hierarchical.BAD_MAGIC);
    TakeReadsBack(s1, 4, e);
    TakeReadsBack(s2, 8, e);
    NodesReadBack();
    ManyReadBack(Hierarchical.TakeNode, Hierarchical.NodeThen, Hierarchical.NodeFits, s3, |rels|);
    rest := TakeMany(Hierarchical.TakeNode, s3, |rels|).value.rest;
    Hierarchical.PayloadThen(rels, rest);
    WithinWord(|rels|);
  }

  lemma WithinWord(n: nat)
    requires n <= Hierarchical.MAX_RELATIONS
    ensures n < WORD
  {}

  /**
    A state file is loaded exactly if its checksum agrees and it begins with the bytes of relations that can be
    installed, no more than the limit; it gives these relations.
  */
  lemma StateAcceptedExactly(file: seq<Byte>, rels: Relations)
    ensures Hierarchical.Loaded(file) == Ok(rels) <==>
      && Intact(file) && Hierarchical.Payload(rels) <= file && |rels| <= Hierarchical.MAX_RELATIONS
      && Hierarchical.Fits(rels) && Restorable(rels)
  {
    if Hierarchical.Loaded(file) == Ok(rels) {
      var rest := ParsedBegins(file);
    } else if Intact(file) && Hierarchical.Payload(rels) <= file && Hierarchical.Fits(rels) {
      PayloadParsed(file, rels);
    }
  }

  lemma PayloadParsed(file: seq<Byte>, rels: Relations)
    requires Intact(file) && Hierarchical.Payload(rels) <= file && Hierarchical.Fits(rels)
    ensures |rels| <= Hierarchical.MAX_RELATIONS ==> Hierarchical.Parsed(file) == Ok(rels)
  {
    var rest := file[|Hierarchical.Payload(rels)|..];
    assert file == Hierarchical.Payload(rels) + rest;
    Hierarchical.ParsedIntact(rels, rest);
  }

  // ---------- the records of a snapshot ----------

  lemma NextReadsBack(s: seq<Byte>)
    ensures var r := TakeNext(s); r.Ok? ==> s == ToBytes(r.value.value, 8) + r.value.rest
  {
    TakeReadsBack(s, 8, TRUNCATED);
  }

  lemma WordsReadBack()
    ensures ReadsBack(TakeNext, WordThen, AnyWord)
  {
    forall s: seq<Byte> | TakeNext(s).Ok?
      ensures s == WordThen(TakeNext(s).value.value, TakeNext(s).value.rest)
    {
      NextReadsBack(s);
    }
  }

  lemma ProfileReadsBack(s: seq<Byte>)
    ensures var r := TakeProfile(s); r.Ok? ==> s == ProfileThen(r.value.value, r.value.rest)
  {
    TakeReadsBack(s, 1, TRUNCATED);
  }

  lemma LanesReadBack(s: seq<Byte>)
    ensures var r := TakeLanes(s); r.Ok? ==> s == LanesThen(r.value.value.0, r.value.value.1, r.value.rest)
  {
    BytesReadBack(s, 8, TRUNCATED_PARITY);
    if TakeBytes(s, 8, TRUNCATED_PARITY).Ok? {
      BytesReadBack(TakeBytes(s, 8, TRUNCATED_PARITY).value.rest, 8, TRUNCATED_PARITY);
    }
  }

  lemma RuleReadsBack(s: seq<Byte>)
    ensures var r := TakeRule(s); r.Ok? ==> s == RuleThen(r.value.value, r.value.rest) && RecordFits(r.value.value)
  {
    if TakeRule(s).Ok? {
      var s1 := TakeNext(s).value.rest;
      var s2 := TakeNext(s1).value.rest;
      var s3 := TakeNext(s2).value.rest;
      var s4 := TakeNext(s3).value.rest;
      var s5 := TakeProfile(s4).value.rest;
      NextReadsBack(s);
      NextReadsBack(s1);
      NextReadsBack(s2);
      NextReadsBack(s3);
      ProfileReadsBack(s4);
      NextReadsBack(s5);
    }
  }

  lemma GroupReadsBack(s: seq<Byte>)
    ensures var r := TakeGroup(s); r.Ok? ==> s == GroupThen(r.value.value, r.value.rest) && GroupFits(r.value.value)
  {
    if TakeGroup(s).Ok? {
      var s1 := TakeNext(s).value.rest;
      var s2 := TakeNext(s1).value.rest;
      var s3 := TakeLanes(s2).value.rest;
      var s4 := TakeLanes(s3).value.rest;
      var s5 := TakeLanes(s4).value.rest;
      NextReadsBack(s);
      NextReadsBack(s1);
      LanesReadBack(s2);
      LanesReadBack(s3);
      LanesReadBack(s4);
      LanesReadBack(s5);
    }
  }

  lemma BlockReadsBack(s: seq<Byte>)
    ensures var r := TakeBlock(s); r.Ok? ==> s == BlockThen(r.value.value, r.value.rest) && BlockFits(r.value.value)
  {
    if TakeBlock(s).Ok? {
      var s1 := TakeNext(s).value.rest;
      var s2 := TakeNext(s1).value.rest;
      NextReadsBack(s);
      NextReadsBack(s1);
      LanesReadBack(s2);
    }
  }

  lemma RecordsReadBack()
    ensures ReadsBack(TakeRule, RuleThen, RecordFits) && ReadsBack(TakeGroup, GroupThen, GroupFits)
    ensures ReadsBack(TakeBlock, BlockThen, BlockFits)
  {
    forall s: seq<Byte>
      ensures TakeRule(s).Ok? ==> RecordFits(TakeRule(s).value.value)
                                  && s == RuleThen(TakeRule(s).value.value, TakeRule(s).value.rest)
      ensures TakeGroup(s).Ok? ==> GroupFits(TakeGroup(s).value.value)
                                   && s == GroupThen(TakeGroup(s).value.value, TakeGroup(s).value.rest)
      ensures TakeBlock(s).Ok? ==> BlockFits(TakeBlock(s).value.value)
                                   && s == BlockThen(TakeBlock(s).value.value, TakeBlock(s).value.rest)
    {
      RuleReadsBack(s);
      GroupReadsBack(s);
      BlockReadsBack(s);
    }
  }

  lemma TrailHeadReadsBack(s: seq<Byte>)
    ensures var r := TakeTrailHead(s);
            r.Ok? ==> var h := r.value.value;
                      && h.blockSize < WORD
                      && s == ProfileThen(h.profile, ToBytes(h.blockSize, 8) + WordThen(h.hash, r.value.rest))
  {
    if TakeTrailHead(s).Ok? {
      var s1 := TakeProfile(s).value.rest;
      var s2 := TakeNext(s1).value.rest;
      ProfileReadsBack(s);
      NextReadsBack(s1);
      NextReadsBack(s2);
    }
  }

  lemma SymbolsReadBack(s: seq<Byte>)
    ensures var r := TakeSymbols(s);
            r.Ok? ==> s == ListThen(WordThen, r.value.value, r.value.rest) && |r.value.value| <= MAX_TRAIL
  {
    if TakeSymbols(s).Ok? {
      var n := TakeNext(s).value;
      NextReadsBack(s);
      WordsReadBack();
      ManyReadBack(TakeNext, WordThen, AnyWord, n.rest, n.value);
    }
  }

  lemma HashesReadBack(s: seq<Byte>)
    ensures var r := TakeList(TakeNext, s);
            r.Ok? ==> s == ListThen(WordThen, r.value.value, r.value.rest) && |r.value.value| < WORD
  {
    if TakeList(TakeNext, s).Ok? {
      var n := TakeNext(s).value;
      NextReadsBack(s);
      WordsReadBack();
      ManyReadBack(TakeNext, WordThen, AnyWord, n.rest, n.value);
    }
  }

  lemma BlocksReadBack(s: seq<Byte>)
    ensures var r := TakeList(TakeBlock, s);
            r.Ok? ==> s == ListThen(BlockThen, r.value.value, r.value.rest) && |r.value.value| < WORD
                      && forall i :: 0 <= i < |r.value.value| ==> BlockFits(r.value.value[i])
  {
    if TakeList(TakeBlock, s).Ok? {
      var n := TakeNext(s).value;
      NextReadsBack(s);
      RecordsReadBack();
      ManyReadBack(TakeBlock, BlockThen, BlockFits, n.rest, n.value);
    }
  }

  lemma TrailReadsBack(s: seq<Byte>)
    ensures var r := TakeTrail(s); r.Ok? ==> s == TrailThen(r.value.value, r.value.rest) && TrailFits(r.value.value)
  {
    if TakeTrail(s).Ok? {
      var s1 := TakeTrailHead(s).value.rest;
      var s2 := TakeSymbols(s1).value.rest;
      var s3 := TakeList(TakeNext, s2).value.rest;
      TrailHeadReadsBack(s);
      SymbolsReadBack(s1);
      HashesReadBack(s2);
      BlocksReadBack(s3);
    }
  }

  lemma TrailsReadBack()
    ensures ReadsBack(TakeTrail, TrailThen, TrailFits)
  {
    forall s: seq<Byte> | TakeTrail(s).Ok?
      ensures TrailFits(TakeTrail(s).value.value) && s == TrailThen(TakeTrail(s).value.value, TakeTrail(s).value.rest)
    {
      TrailReadsBack(s);
    }
  }

  // ---------- the protected snapshot ----------

  /** The head of a snapshot, before its records. */
  function HeaderThen(h: Header, rest: seq<Byte>): seq<Byte> {
    MAGIC + (ToBytes(h.version, 4) + (ToBytes(h.lanes, 8) + (ToBytes(h.rules, 8)
      + (ToBytes(h.groups, 8) + (ToBytes(h.trails, 8) + rest)))))
  }

  lemma VersionReadsBack(s: seq<Byte>)
    ensures var r := TakeVersion(s);
            r.Ok? ==> s == MAGIC + (ToBytes(r.value.value, 4) + r.value.rest) && r.value.value == VERSION
  {
    if TakeVersion(s).Ok? {
      BytesReadBack(s, 8, BAD_MAGIC);
      TakeReadsBack(TakeBytes(s, 8, BAD_MAGIC).value.rest, 4, TRUNCATED);
    }
  }

  lemma HeaderReadsBack(s: seq<Byte>)
    requires TakeHeader(s).Ok?
    ensures var h := TakeHeader(s).value.value;
            && s == HeaderThen(h, TakeHeader(s).value.rest) && h.version == VERSION && h.lanes < WORD
            && h.rules <= MAX_RECORDS && h.groups < WORD && h.trails <= MAX_RECORDS
  {
    var s1 := TakeVersion(s).value.rest;
    var s2 := TakeNext(s1).value.rest;
    var s3 := TakeNext(s2).value.rest;
    var s4 := TakeNext(s3).value.rest;
    VersionReadsBack(s);
    NextReadsBack(s1);
    NextReadsBack(s2);
    NextReadsBack(s3);
    NextReadsBack(s4);
  }

  lemma AssembledFits(h: Header, records: seq<RuleRecord>, groups: seq<RuleDualParityGroup>,
                      trails: seq<ProtectedTrail>)
    requires h.version == VERSION && h.lanes < WORD && h.rules == |records| <= MAX_RECORDS
    requires h.groups == |groups| < WORD && h.trails == |trails| <= MAX_RECORDS
    requires forall i :: 0 <= i < |records| ==> RecordFits(records[i])
    requires forall i :: 0 <= i < |groups| ==> GroupFits(groups[i])
    requires forall i :: 0 <= i < |trails| ==> TrailFits(trails[i])
    ensures var s := Assembled(h, records, groups, trails);
            && MetadataMatches(s) && Fits(s) && WithinLimits(s) && Records(s) == records && HeaderOf(s) == h
  {
    var s := Assembled(h, records, groups, trails);
    forall i | 0 <= i < |s.rules|
      ensures RuleFits(s.rules[i])
    {
      assert RecordFits(records[i]);
      FourFields(s.rules[i]);
    }
  }

  lemma FourFields(r: AdaptiveRule)
    requires r.id < WORD && r.left < WORD && r.right < WORD && r.frequency < WORD
    ensures RuleFits(r)
  {}

  /** What an accepted snapshot begins with. */
  lemma LoadedBegins(file: seq<Byte>) returns (rest: seq<Byte>)
    requires Loaded(file).Ok?
    ensures var s := Loaded(file).value;
            && MetadataMatches(s) && Fits(s) && WithinLimits(s) && Intact(file) && file == PayloadThen(s, rest)
  {
    var h := TakeHeader(file).value;
    HeaderReadsBack(file);
    rest := BodyReadsBack(h.value, h.rest);
  }

  lemma BodyReadsBack(h: Header, body: seq<Byte>) returns (rest: seq<Byte>)
    requires TakeBody(h, body).Ok? && h.version == VERSION && h.lanes < WORD && h.rules <= MAX_RECORDS
    requires h.groups < WORD && h.trails <= MAX_RECORDS
    ensures var s := TakeBody(h, body).value;
            && MetadataMatches(s) && Fits(s) && WithinLimits(s) && HeaderOf(s) == h && body == BodyThen(s, rest)
  {
    var rules := TakeMany(TakeRule, body, h.rules).value;
    var groups := TakeMany(TakeGroup, rules.rest, h.groups).value;
    var trails := TakeMany(TakeTrail, groups.rest, h.trails).value;
    RecordsReadBack();
    TrailsReadBack();
    ManyReadBack(TakeRule, RuleThen, RecordFits, body, h.rules);
    ManyReadBack(TakeGroup, GroupThen, GroupFits, rules.rest, h.groups);
    ManyReadBack(TakeTrail, TrailThen, TrailFits, groups.rest, h.trails);
    AssembledFits(h, rules.value, groups.value, trails.value);
    rest := trails.rest;
  }

  lemma AcceptedBegins(file: seq<Byte>, s: Snapshot)
    requires Loaded(file) == Ok(s)
    ensures Intact(file) && MetadataMatches(s) && Fits(s) && WithinLimits(s) && PayloadThen(s, []) <= file
  {
    var rest := LoadedBegins(file);
    PayloadAppends(s, rest);
  }

  lemma BeginningAccepted(file: seq<Byte>, s: Snapshot)
    requires Intact(file) && MetadataMatches(s) && Fits(s) && WithinLimits(s) && PayloadThen(s, []) <= file
    ensures Loaded(file) == Ok(s)
  {
    var rest := file[|PayloadThen(s, [])|..];
    assert file == PayloadThen(s, []) + rest;
    LoadedIntact(s, rest);
    OutcomeOk(s);
  }

  /**
    A snapshot file is loaded exactly if its checksum agrees and it begins with the bytes of a snapshot of version 2
    within the limits; it gives that snapshot.
  */
  lemma SnapshotAcceptedExactly(file: seq<Byte>, s: Snapshot)
    ensures Loaded(file) == Ok(s) <==>
      Intact(file) && MetadataMatches(s) && Fits(s) && WithinLimits(s) && PayloadThen(s, []) <= file
  {
    if Loaded(file) == Ok(s) {
      AcceptedBegins(file, s);
    } else if Intact(file) && MetadataMatches(s) && Fits(s) && WithinLimits(s) && PayloadThen(s, []) <= file {
      BeginningAccepted(file, s);
    }
  }
}
