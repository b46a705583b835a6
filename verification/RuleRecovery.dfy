/**
  Recovery of damaged or missing rules of a group, from exclusive-or parity (one rule) and from the two
  parity equations (two rules).  The four fields of a rule are protected separately.
*/
module RuleRecovery {
  import opened Words
  import opened Common
  import opened ParityEquations

  datatype RuleParityGroup = RuleParityGroup(
    beginIndex: nat, count: nat, xorId: nat, xorLeft: nat, xorRight: nat, xorFrequency: nat)

  datatype RuleDualParityGroup = RuleDualParityGroup(
    beginIndex: nat, count: nat,
    pId: Lanes, qId: Lanes, pLeft: Lanes, qLeft: Lanes,
    pRight: Lanes, qRight: Lanes, pFrequency: Lanes, qFrequency: Lanes)

  datatype Field = Id | Left | Right | Frequency

  function Get(r: AdaptiveRule, f: Field): nat {
    match f
    case Id => r.id
    case Left => r.left
    case Right => r.right
    case Frequency => r.frequency
  }

  function Column(rules: seq<AdaptiveRule>, f: Field): (c: seq<nat>)
    ensures |c| == |rules|
  {
    seq(|rules|, i requires 0 <= i < |rules| => Get(rules[i], f))
  }

  function XorField(g: RuleParityGroup, f: Field): nat {
    match f
    case Id => g.xorId
    case Left => g.xorLeft
    case Right => g.xorRight
    case Frequency => g.xorFrequency
  }

  function PField(g: RuleDualParityGroup, f: Field): Lanes {
    match f
    case Id => g.pId
    case Left => g.pLeft
    case Right => g.pRight
    case Frequency => g.pFrequency
  }

  function QField(g: RuleDualParityGroup, f: Field): Lanes {
    match f
    case Id => g.qId
    case Left => g.qLeft
    case Right => g.qRight
    case Frequency => g.qFrequency
  }

  /** Every field of a rule is a 64-bit word. */
  ghost predicate RuleFits(r: AdaptiveRule) {
    forall f :: Get(r, f) < WORD
  }

  // ---------- building parity ----------

  ghost predicate IsXorGroup(g: RuleParityGroup, rules: seq<AdaptiveRule>, i: nat, size: nat)
    requires size > 0
  {
    && g.beginIndex == i * size && g.count == |Block(rules, i, size)|
    && forall f :: XorField(g, f) == XorAll(Column(Block(rules, i, size), f))
  }

  ghost predicate IsDualGroup(g: RuleDualParityGroup, rules: seq<AdaptiveRule>, i: nat, size: nat)
    requires 0 < size <= 255
  {
    && g.beginIndex == i * size && g.count == |Block(rules, i, size)|
    && forall f :: Balanced(Column(Block(rules, i, size), f), PField(g, f), QField(g, f))
  }

  method BuildRuleParity(rules: seq<AdaptiveRule>, size: nat) returns (groups: seq<RuleParityGroup>)
    ensures size == 0 ==> groups == []
    ensures size > 0 ==> |groups| == BlockCount(|rules|, size)
    ensures size > 0 ==> forall i :: 0 <= i < |groups| ==> IsXorGroup(groups[i], rules, i, size)
  {
    groups := [];
    if size == 0 {
      return;
    }
    var begin := 0;
    BlockRange(|rules|, 0, size);
    while begin < |rules|
      invariant begin == |groups| * size && |groups| <= BlockCount(|rules|, size)
      invariant begin < |rules| <==> |groups| < BlockCount(|rules|, size)
      invariant forall i :: 0 <= i < |groups| ==> IsXorGroup(groups[i], rules, i, size)
    {
      var g := XorGroup(rules[begin..begin + Min(size, |rules| - begin)], begin);
      NextBlock(|rules|, |groups|, size);
      groups := groups + [g];
      begin := begin + size;
    }
  }

  method XorGroup(members: seq<AdaptiveRule>, begin: nat) returns (g: RuleParityGroup)
    ensures g.beginIndex == begin && g.count == |members|
    ensures forall f :: XorField(g, f) == XorAll(Column(members, f))
  {
    g := RuleParityGroup(begin, |members|, 0, 0, 0, 0);
    for i := 0 to |members|
      invariant g.beginIndex == begin && g.count == |members|
      invariant forall f :: XorField(g, f) == XorAll(Column(members[..i], f))
    {
      var r := members[i];
      forall f: Field
        ensures XorAll(Column(members[..i + 1], f)) == Xor(XorAll(Column(members[..i], f)), Get(r, f))
      {
        assert Column(members[..i + 1], f)[..i] == Column(members[..i], f);
      }
      g := RuleParityGroup(begin, |members|, Xor(g.xorId, r.id), Xor(g.xorLeft, r.left),
                           Xor(g.xorRight, r.right), Xor(g.xorFrequency, r.frequency));
    }
    assert members[..|members|] == members;
  }

  method BuildRuleDualParity(rules: seq<AdaptiveRule>, size: nat) returns (groups: seq<RuleDualParityGroup>)
    ensures size == 0 || size > 255 ==> groups == []
    ensures 0 < size <= 255 ==> |groups| == BlockCount(|rules|, size)
    ensures 0 < size <= 255 ==> forall i :: 0 <= i < |groups| ==> IsDualGroup(groups[i], rules, i, size)
  {
    groups := [];
    if size == 0 || size > 255 {
      return;
    }
    var begin := 0;
    BlockRange(|rules|, 0, size);
    while begin < |rules|
      invariant begin == |groups| * size && |groups| <= BlockCount(|rules|, size)
      invariant begin < |rules| <==> |groups| < BlockCount(|rules|, size)
      invariant forall i :: 0 <= i < |groups| ==> IsDualGroup(groups[i], rules, i, size)
    {
      var g := DualGroup(rules[begin..begin + Min(size, |rules| - begin)], begin);
      NextBlock(|rules|, |groups|, size);
      groups := groups + [g];
      begin := begin + size;
    }
  }

  method DualGroup(members: seq<AdaptiveRule>, begin: nat) returns (g: RuleDualParityGroup)
    ensures g.beginIndex == begin && g.count == |members|
    ensures forall f :: Balanced(Column(members, f), PField(g, f), QField(g, f))
  {
    var pId, qId := DualParity(Column(members, Id));
    var pLeft, qLeft := DualParity(Column(members, Left));
    var pRight, qRight := DualParity(Column(members, Right));
    var pFrequency, qFrequency := DualParity(Column(members, Frequency));
    g := RuleDualParityGroup(begin, |members|, pId, qId, pLeft, qLeft, pRight, qRight, pFrequency, qFrequency);
  }

  /** One field of all rules, by name. */
  function ColumnOf(rules: seq<AdaptiveRule>, get: AdaptiveRule -> nat): (c: seq<nat>)
    ensures |c| == |rules|
  {
    seq(|rules|, i requires 0 <= i < |rules| => get(rules[i]))
  }

  lemma ColumnsByName(rules: seq<AdaptiveRule>)
    ensures Column(rules, Id) == ColumnOf(rules, (r: AdaptiveRule) => r.id)
    ensures Column(rules, Left) == ColumnOf(rules, (r: AdaptiveRule) => r.left)
    ensures Column(rules, Right) == ColumnOf(rules, (r: AdaptiveRule) => r.right)
    ensures Column(rules, Frequency) == ColumnOf(rules, (r: AdaptiveRule) => r.frequency)
  {}

  /** The four exclusive-or parities of a group, each of its own field. */
  lemma XorGroupByName(g: RuleParityGroup, rules: seq<AdaptiveRule>, i: nat, size: nat)
    requires size > 0 && IsXorGroup(g, rules, i, size)
    ensures var members := Block(rules, i, size);
            && g.xorId == XorAll(ColumnOf(members, (r: AdaptiveRule) => r.id))
            && g.xorLeft == XorAll(ColumnOf(members, (r: AdaptiveRule) => r.left))
            && g.xorRight == XorAll(ColumnOf(members, (r: AdaptiveRule) => r.right))
            && g.xorFrequency == XorAll(ColumnOf(members, (r: AdaptiveRule) => r.frequency))
  {
    var members := Block(rules, i, size);
    ColumnsByName(members);
    assert XorField(g, Id) == XorAll(Column(members, Id)) && XorField(g, Left) == XorAll(Column(members, Left));
    assert XorField(g, Right) == XorAll(Column(members, Right));
    assert XorField(g, Frequency) == XorAll(Column(members, Frequency));
  }

  /** The four pairs of parities P and Q of a group, each of its own field. */
  lemma DualGroupByName(g: RuleDualParityGroup, rules: seq<AdaptiveRule>, i: nat, size: nat)
    requires 0 < size <= 255 && IsDualGroup(g, rules, i, size)
    ensures var members := Block(rules, i, size);
            && Balanced(ColumnOf(members, (r: AdaptiveRule) => r.id), g.pId, g.qId)
            && Balanced(ColumnOf(members, (r: AdaptiveRule) => r.left), g.pLeft, g.qLeft)
            && Balanced(ColumnOf(members, (r: AdaptiveRule) => r.right), g.pRight, g.qRight)
            && Balanced(ColumnOf(members, (r: AdaptiveRule) => r.frequency), g.pFrequency, g.qFrequency)
  {
    var members := Block(rules, i, size);
    ColumnsByName(members);
    assert Balanced(Column(members, Id), PField(g, Id), QField(g, Id));
    assert Balanced(Column(members, Left), PField(g, Left), QField(g, Left));
    assert Balanced(Column(members, Right), PField(g, Right), QField(g, Right));
    assert Balanced(Column(members, Frequency), PField(g, Frequency), QField(g, Frequency));
  }

  // ---------- one rule ----------

  /** `r` in place of the missing rule makes every field of the group add up to its parity. */
  ghost predicate CompletesGroup(parity: RuleParityGroup, rules: seq<AdaptiveRule>, missing: nat, r: AdaptiveRule)
    requires parity.beginIndex <= missing < parity.beginIndex + parity.count <= |rules|
  {
    var begin := parity.beginIndex;
    forall f :: XorAll(Column(rules[begin..begin + parity.count], f)[missing - begin := Get(r, f)])
                == XorField(parity, f)
  }

  method RecoverSingleRuleFromParity(parity: RuleParityGroup, rules: seq<AdaptiveRule>, missing: nat)
    returns (r: Option<AdaptiveRule>)
    ensures r.Some? <==> parity.beginIndex <= missing < parity.beginIndex + parity.count <= |rules|
    ensures r.Some? ==> CompletesGroup(parity, rules, missing, r.value)
  {
    var begin, end := parity.beginIndex, parity.beginIndex + parity.count;
    if missing < begin || missing >= end || end > |rules| {
      return None;
    }
    var members := rules[begin..end];
    var id := FillField(Column(members, Id), missing - begin, parity.xorId);
    var left := FillField(Column(members, Left), missing - begin, parity.xorLeft);
    var right := FillField(Column(members, Right), missing - begin, parity.xorRight);
    var frequency := FillField(Column(members, Frequency), missing - begin, parity.xorFrequency);
    FieldsComplete(parity, members, missing - begin, AdaptiveRule(id, left, right, frequency));
    r := Some(AdaptiveRule(id, left, right, frequency));
  }

  lemma FieldsComplete(parity: RuleParityGroup, members: seq<AdaptiveRule>, i: nat, r: AdaptiveRule)
    requires i < |members|
    requires XorAll(Column(members, Id)[i := r.id]) == parity.xorId
    requires XorAll(Column(members, Left)[i := r.left]) == parity.xorLeft
    requires XorAll(Column(members, Right)[i := r.right]) == parity.xorRight
    requires XorAll(Column(members, Frequency)[i := r.frequency]) == parity.xorFrequency
    ensures forall f :: XorAll(Column(members, f)[i := Get(r, f)]) == XorField(parity, f)
  {}

  /** Takes every other member out of the parity. */
  method FillField(c: seq<nat>, missing: nat, parity: nat) returns (v: nat)
    requires missing < |c|
    ensures XorAll(c[missing := v]) == parity
  {
    ghost var masked := c[missing := 0];
    v := parity;
    XorZero(parity);
    for i := 0 to |c|
      invariant v == Xor(parity, XorAll(masked[..i]))
    {
      XorPrefix(masked, i, parity);
      XorZero(v);
      if i != missing {
        v := Xor(v, c[i]);
      }
    }
    assert masked[..|c|] == masked;
    FieldFilled(c, missing, parity, v);
  }

  lemma FieldFilled(c: seq<nat>, missing: nat, parity: nat, v: nat)
    requires missing < |c| && v == Xor(parity, XorAll(c[missing := 0]))
    ensures XorAll(c[missing := v]) == parity
  {
    var s := c[missing := 0];
    XorAllUpdate(s, missing, v);
    assert s[missing := v] == c[missing := v];
    XorZero(v);
    XorCommutes(parity, XorAll(s));
    XorAssociates(XorAll(s), XorAll(s), parity);
    XorSelf(XorAll(s));
    XorZero(parity);
  }

  /** Only one value completes a field. */
  lemma FieldDetermined(c: seq<nat>, i: nat, v: nat, w: nat)
    requires i < |c| && XorAll(c[i := v]) == XorAll(c[i := w])
    ensures v == w
  {
    XorAllUpdate(c, i, v);
    XorAllUpdate(c, i, w);
    XorCommutes(XorAll(c), Xor(c[i], v));
    XorCommutes(XorAll(c), Xor(c[i], w));
    XorInjective(Xor(c[i], v), Xor(c[i], w), XorAll(c));
    XorCommutes(c[i], v);
    XorCommutes(c[i], w);
    XorInjective(v, w, c[i]);
  }

  /** Two groups of rules agree except at positions `x` and `y`. */
  ghost predicate SameMembers(o: seq<AdaptiveRule>, d: seq<AdaptiveRule>, x: nat, y: nat) {
    |o| == |d| && forall k :: 0 <= k < |o| && k != x && k != y ==> o[k] == d[k]
  }

  lemma SameRule(r: AdaptiveRule, t: AdaptiveRule)
    requires forall f :: Get(r, f) == Get(t, f)
    ensures r == t
  {
    assert Get(r, Id) == Get(t, Id) && Get(r, Left) == Get(t, Left);
    assert Get(r, Right) == Get(t, Right) && Get(r, Frequency) == Get(t, Frequency);
  }

  /** One missing rule, with arbitrary contents in its place, is rebuilt exactly. */
  lemma SingleRuleRecovery(original: seq<AdaptiveRule>, rules: seq<AdaptiveRule>, parity: RuleParityGroup,
                           i: nat, size: nat, missing: nat, r: AdaptiveRule)
    requires size > 0 && IsXorGroup(parity, original, i, size)
    requires parity.beginIndex <= missing < parity.beginIndex + parity.count <= |rules|
    requires SameMembers(Block(original, i, size), rules[parity.beginIndex..parity.beginIndex + parity.count],
                         missing - parity.beginIndex, missing - parity.beginIndex)
    requires CompletesGroup(parity, rules, missing, r)
    ensures r == original[missing]
  {
    var begin := parity.beginIndex;
    var o, d := Block(original, i, size), rules[begin..begin + parity.count];
    assert original[missing] == o[missing - begin];
    forall f: Field
      ensures Get(r, f) == Get(o[missing - begin], f)
    {
      SingleField(o, d, missing - begin, Get(r, f), XorField(parity, f), f);
    }
    SameRule(r, o[missing - begin]);
  }

  lemma SingleField(o: seq<AdaptiveRule>, d: seq<AdaptiveRule>, x: nat, v: nat, parity: nat, f: Field)
    requires x < |o| && SameMembers(o, d, x, x)
    requires XorAll(Column(o, f)) == parity && XorAll(Column(d, f)[x := v]) == parity
    ensures v == Get(o[x], f)
  {
    var c := Column(d, f);
    var w := Get(o[x], f);
    assert c[x := w] == Column(o, f);
    FieldDetermined(c, x, v, w);
  }

  // ---------- two rules ----------

  ghost predicate SolvesField(c: seq<nat>, x: nat, y: nat, vx: nat, vy: nat, p: Lanes, q: Lanes)
    requires x < |c| && y < |c|
  {
    vx < WORD && vy < WORD && Balanced(c[x := vx][y := vy], p, q)
  }

  /** The two rules in their places satisfy both equations of every field. */
  ghost predicate SolvesGroup(parity: RuleDualParityGroup, members: seq<AdaptiveRule>, x: nat, y: nat,
                              rx: AdaptiveRule, ry: AdaptiveRule)
    requires x < |members| && y < |members|
  {
    forall f :: SolvesField(Column(members, f), x, y, Get(rx, f), Get(ry, f), PField(parity, f), QField(parity, f))
  }

  method RecoverPairField(c: seq<nat>, x: nat, y: nat, p: Lanes, q: Lanes) returns (vx: nat, vy: nat)
    requires x < |c| && y < |c| && Apart(x, y)
    ensures SolvesField(c, x, y, vx, vy, p, q)
  {
    vx, vy := SolvePair(c, p, q, x, y);
  }

  /** Whether both rules can be recovered: members of a group that is present, with different coefficients. */
  predicate PairInGroup(parity: RuleDualParityGroup, rules: seq<AdaptiveRule>, a: nat, b: nat) {
    && a != b && parity.beginIndex <= a < parity.beginIndex + parity.count <= |rules|
    && parity.beginIndex <= b < parity.beginIndex + parity.count
    && Apart(a - parity.beginIndex, b - parity.beginIndex)
  }

  function Members(parity: RuleDualParityGroup, rules: seq<AdaptiveRule>): seq<AdaptiveRule>
    requires parity.beginIndex + parity.count <= |rules|
  {
    rules[parity.beginIndex..parity.beginIndex + parity.count]
  }

  /** The two rules solve the group in the places asked for. */
  ghost predicate SolvesPair(parity: RuleDualParityGroup, rules: seq<AdaptiveRule>, a: nat, b: nat,
                             pair: (AdaptiveRule, AdaptiveRule))
    requires PairInGroup(parity, rules, a, b)
  {
    SolvesGroup(parity, Members(parity, rules), a - parity.beginIndex, b - parity.beginIndex, pair.0, pair.1)
  }

  method RecoverTwoRulesFromDualParity(parity: RuleDualParityGroup, rules: seq<AdaptiveRule>, a: nat, b: nat)
    returns (r: Option<(AdaptiveRule, AdaptiveRule)>)
    ensures r.Some? <==> PairInGroup(parity, rules, a, b)
    ensures r.Some? ==> SolvesPair(parity, rules, a, b, r.value)
  {
    if !PairInGroup(parity, rules, a, b) {
      return None;
    }
    var pair := RecoverMembers(parity, Members(parity, rules), a - parity.beginIndex, b - parity.beginIndex);
    assert SolvesPair(parity, rules, a, b, pair);
    r := Some(pair);
  }

  method RecoverMembers(parity: RuleDualParityGroup, members: seq<AdaptiveRule>, x: nat, y: nat)
    returns (pair: (AdaptiveRule, AdaptiveRule))
    requires x < |members| && y < |members| && Apart(x, y)
    ensures SolvesGroup(parity, members, x, y, pair.0, pair.1)
  {
    var idX, idY := RecoverPairField(Column(members, Id), x, y, parity.pId, parity.qId);
    var leftX, leftY := RecoverPairField(Column(members, Left), x, y, parity.pLeft, parity.qLeft);
    var rightX, rightY := RecoverPairField(Column(members, Right), x, y, parity.pRight, parity.qRight);
    var freqX, freqY := RecoverPairField(Column(members, Frequency), x, y, parity.pFrequency, parity.qFrequency);
    var rx, ry := AdaptiveRule(idX, leftX, rightX, freqX), AdaptiveRule(idY, leftY, rightY, freqY);
    forall f: Field
      ensures SolvesField(Column(members, f), x, y, Get(rx, f), Get(ry, f), PField(parity, f), QField(parity, f))
    {
      match f
      case Id =>
      case Left =>
      case Right =>
      case Frequency =>
    }
    pair := (rx, ry);
  }

  /** Two missing rules of a group are rebuilt exactly, in the order asked, whatever stands in their places. */
  lemma TwoRuleRecovery(original: seq<AdaptiveRule>, rules: seq<AdaptiveRule>, parity: RuleDualParityGroup,
                        i: nat, size: nat, a: nat, b: nat, ra: AdaptiveRule, rb: AdaptiveRule)
    requires 2 <= size <= 255 && IsDualGroup(parity, original, i, size)
    requires PairInGroup(parity, rules, a, b)
    requires SameMembers(Block(original, i, size), Members(parity, rules),
                         a - parity.beginIndex, b - parity.beginIndex)
    requires forall k :: 0 <= k < |Block(original, i, size)| ==> RuleFits(Block(original, i, size)[k])
    requires SolvesPair(parity, rules, a, b, (ra, rb))
    ensures ra == original[a] && rb == original[b]
  {
    var o, d := Block(original, i, size), Members(parity, rules);
    var x, y := a - parity.beginIndex, b - parity.beginIndex;
    assert original[a] == o[x] && original[b] == o[y];
    forall f: Field
      ensures Get(ra, f) == Get(o[x], f) && Get(rb, f) == Get(o[y], f)
    {
      TwoField(o, d, x, y, Get(ra, f), Get(rb, f), PField(parity, f), QField(parity, f), f);
    }
    SameRule(ra, o[x]);
    SameRule(rb, o[y]);
  }

  lemma TwoField(o: seq<AdaptiveRule>, d: seq<AdaptiveRule>, x: nat, y: nat, vx: nat, vy: nat,
                 p: Lanes, q: Lanes, f: Field)
    requires x < |o| && y < |o| && Apart(x, y) && SameMembers(o, d, x, y)
    requires forall k :: 0 <= k < |o| ==> RuleFits(o[k])
    requires Balanced(Column(o, f), p, q) && SolvesField(Column(d, f), x, y, vx, vy, p, q)
    ensures vx == Get(o[x], f) && vy == Get(o[y], f)
  {
    var c := Column(d, f)[x := vx][y := vy];
    ColumnFits(o, d, x, y, vx, vy, f);
    TwoUnknownsDetermined(Column(o, f), c, p, q, x, y);
    assert c[x] == vx && c[y] == vy;
  }

  lemma ColumnFits(o: seq<AdaptiveRule>, d: seq<AdaptiveRule>, x: nat, y: nat, vx: Word, vy: Word, f: Field)
    requires x < |o| && y < |o| && SameMembers(o, d, x, y)
    requires forall k :: 0 <= k < |o| ==> RuleFits(o[k])
    ensures Fits(Column(o, f)) && Fits(Column(d, f)[x := vx][y := vy])
    ensures AgreeOutside(Column(o, f), Column(d, f)[x := vx][y := vy], x, y)
  {
    forall k | 0 <= k < |o|
      ensures Get(o[k], f) < WORD
    {
      assert RuleFits(o[k]);
    }
  }
}
