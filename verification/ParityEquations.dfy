/**
  The two parity equations of a block of words.

  Word number i of a block has the coefficient i + 1, modulo 256.  In each of the eight byte lanes, P is the exclusive
  or of the bytes and Q the exclusive or of coefficient times byte.  Two unknown words of a block are
  determined by P, Q and the other words.
*/
module ParityEquations {
  import opened Words
  import opened GaloisField

  /** One parity byte per byte lane of a word. */
  type Lanes = s: seq<Byte> | |s| == 8 witness [0, 0, 0, 0, 0, 0, 0, 0]

  /** Lane `k` of a word. */
  function LaneByte(v: nat, k: nat): Byte
    requires k < 8
  {
    ToBytes(v, 8)[k]
  }

  function Lane(block: seq<nat>, k: nat): (c: seq<Byte>)
    requires k < 8
    ensures |c| == |block|
  {
    seq(|block|, i requires 0 <= i < |block| => LaneByte(block[i], k))
  }

  /** The coefficient of word `i`, one byte wide. */
  function Coefficient(i: nat): Byte {
    (i + 1) % 256
  }

  /** Two words can be told apart when their coefficients differ. */
  predicate Apart(a: nat, b: nat) {
    Coefficient(a) != Coefficient(b)
  }

  function Weighted(c: seq<Byte>): (w: seq<Byte>)
    ensures |w| == |c|
  {
    seq(|c|, i requires 0 <= i < |c| => Times(Coefficient(i), c[i]))
  }

  /** `p` and `q` are the parities of one lane. */
  predicate LaneBalanced(c: seq<Byte>, p: Byte, q: Byte) {
    XorAll(c) == p && XorAll(Weighted(c)) == q
  }

  predicate Balanced(block: seq<nat>, p: Lanes, q: Lanes) {
    forall k :: 0 <= k < 8 ==> LaneBalanced(Lane(block, k), p[k], q[k])
  }

  // ---------- the coefficients ----------

  lemma {:induction false} XorAllOne(s: seq<nat>, i: nat)
    requires i < |s| && forall j :: 0 <= j < |s| && j != i ==> s[j] == 0
    ensures XorAll(s) == s[i]
  {
    var front, last := s[..|s| - 1], s[|s| - 1];
    if i < |front| {
      XorAllOne(front, i);
      XorZero(s[i]);
    } else {
      XorAllNone(front);
      XorZero(last);
    }
  }

  lemma {:induction false} XorAllNone(s: seq<nat>)
    requires forall j :: 0 <= j < |s| ==> s[j] == 0
    ensures XorAll(s) == 0
  {
    if s != [] {
      XorAllNone(s[..|s| - 1]);
    }
  }

  /** A lane with a single byte, at place `i`: P is the byte and Q is i + 1 times the byte. */
  lemma OneByteLane(c: seq<Byte>, i: nat, p: Byte, q: Byte)
    requires i < |c| && forall j :: 0 <= j < |c| && j != i ==> c[j] == 0
    ensures LaneBalanced(c, p, q) <==> p == c[i] && q == Times((i + 1) % 256, c[i])
  {
    var w := Weighted(c);
    forall j | 0 <= j < |w| && j != i
      ensures w[j] == 0
    {
      TimesZero(Coefficient(j));
    }
    XorAllOne(c, i);
    XorAllOne(w, i);
  }

  /** The parities of a block with a single word that is not zero tell its place: Q is i + 1 times P in every lane. */
  lemma OneWordParity(block: seq<nat>, i: nat, p: Lanes, q: Lanes)
    requires i < |block| && forall j :: 0 <= j < |block| && j != i ==> block[j] == 0
    ensures Balanced(block, p, q) <==>
      forall k :: 0 <= k < 8 ==> p[k] == ToBytes(block[i], 8)[k] && q[k] == Times((i + 1) % 256, p[k])
  {
    forall k | 0 <= k < 8
      ensures LaneBalanced(Lane(block, k), p[k], q[k])
         <==> p[k] == ToBytes(block[i], 8)[k] && q[k] == Times((i + 1) % 256, p[k])
    {
      forall j | 0 <= j < |block| && j != i
        ensures Lane(block, k)[j] == 0
      {
        ZeroBytes(8, k);
      }
      OneByteLane(Lane(block, k), i, p[k], q[k]);
    }
  }

  lemma {:induction false} ZeroBytes(n: nat, k: nat)
    requires k < n
    ensures ToBytes(0, n)[k] == 0
  {
    if k > 0 {
      ZeroBytes(n - 1, k - 1);
    }
  }

  // ---------- one lane ----------

  /** The lane with positions `a` and `b` cleared. */
  function Masked(c: seq<Byte>, a: nat, b: nat): (m: seq<Byte>)
    requires a < |c| && b < |c| && a != b
    ensures |m| == |c|
  {
    c[a := 0][b := 0]
  }

  lemma XorAllTwo(s: seq<nat>, a: nat, b: nat, x: nat, y: nat)
    requires a < |s| && b < |s| && a != b && s[a] == 0 && s[b] == 0
    ensures XorAll(s[a := x][b := y]) == Xor(XorAll(s), Xor(x, y))
  {
    var t := s[a := x];
    XorAllUpdate(s, a, x);
    XorAllUpdate(t, b, y);
    XorZero(x);
    XorZero(y);
    XorAssociates(XorAll(s), x, y);
  }

  lemma MaskedSum(c: seq<Byte>, a: nat, b: nat)
    requires a < |c| && b < |c| && a != b
    ensures XorAll(c) == Xor(XorAll(Masked(c, a, b)), Xor(c[a], c[b]))
  {
    RestoreMasked(c, a, b);
    XorAllTwo(Masked(c, a, b), a, b, c[a], c[b]);
  }

  lemma RestoreMasked(c: seq<nat>, a: nat, b: nat)
    requires a < |c| && b < |c| && a != b
    ensures c[a := 0][b := 0][a := c[a]][b := c[b]] == c
  {}

  lemma WeightedMasked(c: seq<Byte>, a: nat, b: nat)
    requires a < |c| && b < |c| && a != b
    ensures Weighted(Masked(c, a, b)) == Masked(Weighted(c), a, b)
  {
    TimesZero(Coefficient(a));
    TimesZero(Coefficient(b));
  }

  lemma MaskedWeightedSum(c: seq<Byte>, a: nat, b: nat, wa: Byte, wb: Byte)
    requires a < |c| && b < |c| && a != b
    requires wa == Weighted(c)[a] && wb == Weighted(c)[b]
    ensures XorAll(Weighted(c)) == Xor(XorAll(Weighted(Masked(c, a, b))), Xor(wa, wb))
  {
    WeightedMasked(c, a, b);
    MaskedSum(Weighted(c), a, b);
  }

  /** The distance of two coefficients is not zero. */
  lemma CoefficientsDiffer(ca: Byte, cb: Byte)
    requires ca != cb
    ensures 0 < Xor(ca, cb) < 256
  {
    XorByte(ca, cb);
    if Xor(ca, cb) == 0 {
      XorSelf(cb);
      XorInjective(ca, cb, cb);
    }
  }

  /** The value of the first unknown byte, from the remainders `s` of P and `t` of Q. */
  function FirstUnknown(s: Byte, t: Byte, ca: Byte, cb: Byte): Byte
    requires ca != cb
  {
    CoefficientsDiffer(ca, cb);
    XorByte(t, Times(cb, s));
    Times(Inverse(Xor(ca, cb)), Xor(t, Times(cb, s)))
  }

  /** Two bytes satisfy both remainders exactly when they are the computed ones. */
  lemma PairIff(s: Byte, t: Byte, ca: Byte, cb: Byte, x: Byte, y: Byte)
    requires ca != cb
    ensures (s == Xor(x, y) && t == Xor(Times(ca, x), Times(cb, y)))
        <==> (x == FirstUnknown(s, t, ca, cb) && y == Xor(s, x))
  {
    if s == Xor(x, y) && t == Xor(Times(ca, x), Times(cb, y)) {
      PairForced(s, t, ca, cb, x, y);
    }
    if x == FirstUnknown(s, t, ca, cb) && y == Xor(s, x) {
      PairSolves(s, t, ca, cb, x, y);
    }
  }

  lemma PairForced(s: Byte, t: Byte, ca: Byte, cb: Byte, x: Byte, y: Byte)
    requires ca != cb
    requires s == Xor(x, y) && t == Xor(Times(ca, x), Times(cb, y))
    ensures x == FirstUnknown(s, t, ca, cb) && y == Xor(s, x)
  {
    CoefficientsDiffer(ca, cb);
    var d := Xor(ca, cb);
    // t + cb*s is (ca + cb) * x
    DistributesRight(cb, x, y);
    XorCancel(Times(ca, x), Times(cb, y));
    XorExchange(Times(ca, x), Times(cb, y), Times(cb, x), Times(cb, y));
    XorSelf(Times(cb, y));
    XorZero(Xor(Times(ca, x), Times(cb, x)));
    DistributesLeft(ca, cb, x);
    InverseLaw(d);
    TimesAssociates(Inverse(d), d, x);
    TimesOne(x);
    XorCommutes(x, y);
    XorCancel(y, x);
  }

  lemma PairSolves(s: Byte, t: Byte, ca: Byte, cb: Byte, x: Byte, y: Byte)
    requires ca != cb
    requires x == FirstUnknown(s, t, ca, cb) && y == Xor(s, x)
    ensures s == Xor(x, y) && t == Xor(Times(ca, x), Times(cb, y))
  {
    CoefficientsDiffer(ca, cb);
    var d := Xor(ca, cb);
    var rhs := Xor(t, Times(cb, s));
    XorByte(t, Times(cb, s));
    // d * x is rhs
    InverseLaw(d);
    TimesAssociates(d, Inverse(d), rhs);
    TimesOne(rhs);
    DistributesLeft(ca, cb, x);
    XorCancel(s, x);
    XorCommutes(x, y);
    DistributesRight(cb, s, x);
    SolveSum(Times(ca, x), Times(cb, x), t, Times(cb, s));
  }

  lemma SolveSum(p: nat, q: nat, t: nat, r: nat)
    requires Xor(p, q) == Xor(t, r)
    ensures Xor(p, Xor(r, q)) == t
  {
    XorCommutes(r, q);
    XorAssociates(p, q, r);
    XorCancel(t, r);
  }

  /** What is left of the parity of a lane once every word except `a` and `b` is taken out. */
  function RestP(c: seq<Byte>, p: Byte, a: nat, b: nat): Byte
    requires a < |c| && b < |c| && a != b
  {
    XorAllByte(Masked(c, a, b));
    XorByte(p, XorAll(Masked(c, a, b)));
    Xor(p, XorAll(Masked(c, a, b)))
  }

  function RestQ(c: seq<Byte>, q: Byte, a: nat, b: nat): Byte
    requires a < |c| && b < |c| && a != b
  {
    XorAllByte(Weighted(Masked(c, a, b)));
    XorByte(q, XorAll(Weighted(Masked(c, a, b))));
    Xor(q, XorAll(Weighted(Masked(c, a, b))))
  }

  lemma XorMoves(m: nat, v: nat, p: nat)
    ensures Xor(m, v) == p <==> Xor(p, m) == v
  {
    XorCommutes(m, v);
    XorCancel(v, m);
    XorCancel(p, m);
  }

  lemma BothMoved(mp: nat, mq: nat, p: nat, q: nat, s: nat, t: nat, e: nat, f: nat)
    requires s == Xor(p, mp) && t == Xor(q, mq)
    ensures (Xor(mp, e) == p && Xor(mq, f) == q) <==> (s == e && t == f)
  {
    XorMoves(mp, e, p);
    XorMoves(mq, f, q);
  }

  /** The two equations of a lane, solved for its two unknown bytes. */
  lemma EquationsIff(mp: Byte, mq: Byte, p: Byte, q: Byte, ca: Byte, cb: Byte, x: Byte, y: Byte, s: Byte, t: Byte,
                     wx: Byte, wy: Byte, e: nat, f: nat)
    requires ca != cb && s == Xor(p, mp) && t == Xor(q, mq) && wx == Times(ca, x) && wy == Times(cb, y)
    requires e == Xor(x, y) && f == Xor(wx, wy)
    ensures (Xor(mp, e) == p && Xor(mq, f) == q) <==> (x == FirstUnknown(s, t, ca, cb) && y == Xor(s, x))
  {
    BothMoved(mp, mq, p, q, s, t, e, f);
    WeightedPairIff(s, t, ca, cb, x, y, wx, wy);
  }

  lemma WeightedPairIff(s: Byte, t: Byte, ca: Byte, cb: Byte, x: Byte, y: Byte, wx: Byte, wy: Byte)
    requires ca != cb && wx == Times(ca, x) && wy == Times(cb, y)
    ensures (s == Xor(x, y) && t == Xor(wx, wy)) <==> (x == FirstUnknown(s, t, ca, cb) && y == Xor(s, x))
  {
    PairIff(s, t, ca, cb, x, y);
  }

  /** A lane is balanced exactly when its two chosen bytes are the solution of the remainders. */
  lemma LaneBalancedIff(c: seq<Byte>, p: Byte, q: Byte, a: nat, b: nat, s: Byte, t: Byte)
    requires a < |c| && b < |c| && Apart(a, b)
    requires s == RestP(c, p, a, b) && t == RestQ(c, q, a, b)
    ensures LaneBalanced(c, p, q) <==> (c[a] == FirstUnknown(s, t, Coefficient(a), Coefficient(b)) && c[b] == Xor(s, c[a]))
  {
    var m := Masked(c, a, b);
    var wa, wb := Times(Coefficient(a), c[a]), Times(Coefficient(b), c[b]);
    XorAllByte(m);
    XorAllByte(Weighted(m));
    MaskedSum(c, a, b);
    MaskedWeightedSum(c, a, b, wa, wb);
    EquationsIff(XorAll(m), XorAll(Weighted(m)), p, q, Coefficient(a), Coefficient(b), c[a], c[b], s, t, wa, wb,
                 Xor(c[a], c[b]), Xor(wa, wb));
  }

  // ---------- blocks of words ----------

  ghost predicate Fits(block: seq<nat>) {
    forall i :: 0 <= i < |block| ==> block[i] < WORD
  }

  ghost predicate AgreeOutside(block: seq<nat>, other: seq<nat>, a: nat, b: nat) {
    |block| == |other| && forall i :: 0 <= i < |block| && i != a && i != b ==> block[i] == other[i]
  }

  lemma AgreeingLanes(block: seq<nat>, other: seq<nat>, a: nat, b: nat, k: nat)
    requires a < |block| && b < |block| && a != b && k < 8 && AgreeOutside(block, other, a, b)
    ensures Masked(Lane(block, k), a, b) == Masked(Lane(other, k), a, b)
  {}

  /** Two blocks with the same parities that differ in at most two known places are equal. */
  lemma TwoUnknownsDetermined(block: seq<nat>, other: seq<nat>, p: Lanes, q: Lanes, a: nat, b: nat)
    requires a < |block| && b < |block| && Apart(a, b)
    requires Fits(block) && Fits(other) && AgreeOutside(block, other, a, b)
    requires Balanced(block, p, q) && Balanced(other, p, q)
    ensures block == other
  {
    forall k | 0 <= k < 8
      ensures ToBytes(block[a], 8)[k] == ToBytes(other[a], 8)[k]
      ensures ToBytes(block[b], 8)[k] == ToBytes(other[b], 8)[k]
    {
      AgreeingLanes(block, other, a, b, k);
      var c, d := Lane(block, k), Lane(other, k);
      var s, t := RestP(c, p[k], a, b), RestQ(c, q[k], a, b);
      LaneBalancedIff(c, p[k], q[k], a, b, s, t);
      LaneBalancedIff(d, p[k], q[k], a, b, s, t);
      assert LaneBalanced(c, p[k], q[k]) && LaneBalanced(d, p[k], q[k]);
    }
    SameBytes(block[a], other[a]);
    SameBytes(block[b], other[b]);
  }

  /** Parity detects every change of one or two words of a block. */
  lemma TwoChangesDetected(block: seq<nat>, other: seq<nat>, p: Lanes, q: Lanes, a: nat, b: nat)
    requires a < |block| && b < |block| <= 255
    requires Fits(block) && Fits(other) && AgreeOutside(block, other, a, b) && block != other
    requires Balanced(block, p, q)
    ensures !Balanced(other, p, q)
  {
    if |block| == 1 {
      OneWordDetermined(block, other, p, q);
    } else if Balanced(other, p, q) {
      var y := if a != b then b else if a == 0 then 1 else 0;
      TwoUnknownsDetermined(block, other, p, q, a, y);
    }
  }

  lemma OneWordDetermined(block: seq<nat>, other: seq<nat>, p: Lanes, q: Lanes)
    requires |block| == |other| == 1 && Fits(block) && Fits(other) && Balanced(block, p, q) && block != other
    ensures !Balanced(other, p, q)
  {
    if Balanced(other, p, q) {
      forall k | 0 <= k < 8
        ensures ToBytes(block[0], 8)[k] == ToBytes(other[0], 8)[k]
      {
        SingleLane(Lane(block, k));
        SingleLane(Lane(other, k));
        assert LaneBalanced(Lane(block, k), p[k], q[k]) && LaneBalanced(Lane(other, k), p[k], q[k]);
      }
      SameBytes(block[0], other[0]);
    }
  }

  lemma SingleLane(c: seq<Byte>)
    requires |c| == 1
    ensures XorAll(c) == c[0]
  {
    assert c[..0] == [];
    XorZero(c[0]);
  }

  /** Filling in the solution of every lane makes the block balanced. */
  lemma SolutionBalances(block: seq<nat>, p: Lanes, q: Lanes, a: nat, b: nat,
                         xa: Lanes, xb: Lanes, solved: seq<nat>)
    requires a < |block| && b < |block| && Apart(a, b)
    requires forall k :: 0 <= k < 8 ==> LaneSolution(block, p, q, a, b, xa[k], xb[k], k)
    requires solved == block[a := FromBytes(xa)][b := FromBytes(xb)]
    ensures Balanced(solved, p, q)
    ensures FromBytes(xa) < WORD && FromBytes(xb) < WORD
  {
    LanesWord(xa);
    LanesWord(xb);
    forall k | 0 <= k < 8
      ensures LaneBalanced(Lane(solved, k), p[k], q[k])
    {
      assert LaneSolution(block, p, q, a, b, xa[k], xb[k], k);
      LaneSolutionBalances(block, p, q, a, b, xa[k], xb[k], k, solved);
    }
  }

  lemma LanesWord(x: Lanes)
    ensures FromBytes(x) < WORD && ToBytes(FromBytes(x), 8) == x
  {
    Pow256Values();
    FromBytesBound(x);
    ToFromBytes(x);
  }

  lemma LaneSolutionBalances(block: seq<nat>, p: Lanes, q: Lanes, a: nat, b: nat,
                             x: Byte, y: Byte, k: nat, solved: seq<nat>)
    requires a < |block| && b < |block| && Apart(a, b) && k < 8 && LaneSolution(block, p, q, a, b, x, y, k)
    requires AgreeOutside(block, solved, a, b)
    requires ToBytes(solved[a], 8)[k] == x && ToBytes(solved[b], 8)[k] == y
    ensures LaneBalanced(Lane(solved, k), p[k], q[k])
  {
    var c, d := Lane(block, k), Lane(solved, k);
    var s, t := RestP(c, p[k], a, b), RestQ(c, q[k], a, b);
    AgreeingLanes(block, solved, a, b, k);
    LaneBalancedIff(d, p[k], q[k], a, b, s, t);
  }

  ghost predicate LaneSolution(block: seq<nat>, p: Lanes, q: Lanes, a: nat, b: nat, x: Byte, y: Byte, k: nat)
    requires a < |block| && b < |block| && Apart(a, b) && k < 8
  {
    var c := Lane(block, k);
    && x == FirstUnknown(RestP(c, p[k], a, b), RestQ(c, q[k], a, b), Coefficient(a), Coefficient(b))
    && y == Xor(RestP(c, p[k], a, b), x)
  }

  // ---------- the loops shared by trail and rule recovery ----------

  /** Adds one word with its coefficient to both parities. */
  ghost predicate Accumulated(p0: Lanes, q0: Lanes, v: nat, coeff: Byte, p: Lanes, q: Lanes) {
    forall k :: 0 <= k < 8 ==>
      p[k] == Xor(p0[k], LaneByte(v, k)) && q[k] == Xor(q0[k], Times(coeff, LaneByte(v, k)))
  }

  method ParityAccumulate(p0: Lanes, q0: Lanes, v: nat, coeff: Byte) returns (p: Lanes, q: Lanes)
    ensures Accumulated(p0, q0, v, coeff, p, q)
  {
    p, q := p0, q0;
    var bytes := ToBytes(v, 8);
    for k := 0 to 8
      invariant forall j :: 0 <= j < k ==>
        p[j] == Xor(p0[j], bytes[j]) && q[j] == Xor(q0[j], Times(coeff, bytes[j]))
      invariant forall j :: k <= j < 8 ==> p[j] == p0[j] && q[j] == q0[j]
    {
      var product := GfMul(coeff, bytes[k]);
      XorByte(p[k], bytes[k]);
      XorByte(q[k], product);
      p := p[k := Xor(p[k], bytes[k])];
      q := q[k := Xor(q[k], product)];
    }
  }

  const NO_PARITY: Lanes := [0, 0, 0, 0, 0, 0, 0, 0]

  method DualParity(block: seq<nat>) returns (p: Lanes, q: Lanes)
    ensures Balanced(block, p, q)
  {
    p, q := NO_PARITY, NO_PARITY;
    EmptyBalanced();
    assert block[..0] == [];
    for local := 0 to |block|
      invariant Balanced(block[..local], p, q)
    {
      ghost var p0, q0 := p, q;
      p, q := ParityAccumulate(p, q, block[local], Coefficient(local));
      BalancedGrows(block, local, p0, q0, p, q);
    }
    assert block[..|block|] == block;
  }

  lemma EmptyBalanced()
    ensures Balanced([], NO_PARITY, NO_PARITY)
  {
    forall k | 0 <= k < 8
      ensures LaneBalanced(Lane([], k), NO_PARITY[k], NO_PARITY[k])
    {
      assert Weighted(Lane([], k)) == [];
    }
  }

  lemma BalancedGrows(block: seq<nat>, n: nat, p0: Lanes, q0: Lanes, p: Lanes, q: Lanes)
    requires n < |block| && Balanced(block[..n], p0, q0)
    requires Accumulated(p0, q0, block[n], Coefficient(n), p, q)
    ensures Balanced(block[..n + 1], p, q)
  {
    forall k | 0 <= k < 8
      ensures LaneBalanced(Lane(block[..n + 1], k), p[k], q[k])
    {
      LanePush(block, n, k);
      LaneGrows(Lane(block[..n], k), LaneByte(block[n], k), p0[k], q0[k]);
    }
  }

  lemma LanePush(block: seq<nat>, n: nat, k: nat)
    requires n < |block| && k < 8
    ensures Lane(block[..n + 1], k) == Lane(block[..n], k) + [LaneByte(block[n], k)]
  {}

  lemma WeightedPush(c: seq<Byte>, v: Byte)
    ensures Weighted(c + [v]) == Weighted(c) + [Times(Coefficient(|c|), v)]
  {}

  lemma LaneGrows(c: seq<Byte>, v: Byte, p: Byte, q: Byte)
    requires LaneBalanced(c, p, q)
    ensures XorAll(c + [v]) == Xor(p, v)
    ensures XorAll(Weighted(c + [v])) == Xor(q, Times(Coefficient(|c|), v))
  {
    WeightedPush(c, v);
    XorAllPush(c, v);
    XorAllPush(Weighted(c), Times(Coefficient(|c|), v));
  }

  lemma XorAllPush(s: seq<nat>, v: nat)
    ensures XorAll(s + [v]) == Xor(XorAll(s), v)
  {
    assert (s + [v])[..|s|] == s;
  }

  /** The parities of the first `n` words, leaving out `a` and `b`, have been taken out of `p` and `q`. */
  ghost predicate TakenOut(block: seq<nat>, p: Lanes, q: Lanes, a: nat, b: nat, n: nat, s: Lanes, t: Lanes)
    requires a < |block| && b < |block| && a != b && n <= |block|
  {
    forall k :: 0 <= k < 8 ==>
      var m := Masked(Lane(block, k), a, b);
      s[k] == Xor(p[k], XorAll(m[..n])) && t[k] == Xor(q[k], XorAll(Weighted(m)[..n]))
  }

  lemma TakeOutOne(block: seq<nat>, p: Lanes, q: Lanes, a: nat, b: nat, n: nat,
                   s0: Lanes, t0: Lanes, s: Lanes, t: Lanes)
    requires a < |block| && b < |block| && a != b && n < |block|
    requires TakenOut(block, p, q, a, b, n, s0, t0)
    requires if n == a || n == b then s == s0 && t == t0 else Accumulated(s0, t0, block[n], Coefficient(n), s, t)
    ensures TakenOut(block, p, q, a, b, n + 1, s, t)
  {
    forall k | 0 <= k < 8
      ensures s[k] == Xor(p[k], XorAll(Masked(Lane(block, k), a, b)[..n + 1]))
      ensures t[k] == Xor(q[k], XorAll(Weighted(Masked(Lane(block, k), a, b))[..n + 1]))
    {
      var m := Masked(Lane(block, k), a, b);
      var w := Weighted(m);
      TimesZero(Coefficient(n));
      XorPrefix(m, n, p[k]);
      XorPrefix(w, n, q[k]);
      XorZero(Xor(p[k], XorAll(m[..n])));
      XorZero(Xor(q[k], XorAll(w[..n])));
    }
  }

  lemma XorPrefix(m: seq<nat>, n: nat, p: nat)
    requires n < |m|
    ensures Xor(p, XorAll(m[..n + 1])) == Xor(Xor(p, XorAll(m[..n])), m[n])
  {
    assert m[..n + 1][..n] == m[..n];
    XorAssociates(p, XorAll(m[..n]), m[n]);
  }

  /** Solves both equations for words `a` and `b` of a block, whatever values stand there now. */
  method SolvePair(block: seq<nat>, p: Lanes, q: Lanes, a: nat, b: nat) returns (va: Word, vb: Word)
    requires a < |block| && b < |block| && Apart(a, b)
    ensures Balanced(block[a := va][b := vb], p, q)
  {
    var s, t := p, q;
    NothingTakenOut(block, p, q, a, b);
    for local := 0 to |block|
      invariant TakenOut(block, p, q, a, b, local, s, t)
    {
      ghost var s0, t0 := s, t;
      if local != a && local != b {
        s, t := ParityAccumulate(s, t, block[local], Coefficient(local));
      }
      TakeOutOne(block, p, q, a, b, local, s0, t0, s, t);
    }
    var xa, xb := SolveLanes(s, t, Coefficient(a), Coefficient(b));
    AllTakenOut(block, p, q, a, b, s, t, xa, xb);
    SolutionBalances(block, p, q, a, b, xa, xb, block[a := FromBytes(xa)][b := FromBytes(xb)]);
    va, vb := FromBytes(xa), FromBytes(xb);
  }

  lemma NothingTakenOut(block: seq<nat>, p: Lanes, q: Lanes, a: nat, b: nat)
    requires a < |block| && b < |block| && a != b
    ensures TakenOut(block, p, q, a, b, 0, p, q)
  {
    forall k | 0 <= k < 8
      ensures p[k] == Xor(p[k], XorAll(Masked(Lane(block, k), a, b)[..0]))
      ensures q[k] == Xor(q[k], XorAll(Weighted(Masked(Lane(block, k), a, b))[..0]))
    {
      XorZero(p[k]);
      XorZero(q[k]);
    }
  }

  /** Both unknown bytes of every lane.  The coefficients differ, so the inverse exists. */
  method SolveLanes(s: Lanes, t: Lanes, ca: Byte, cb: Byte) returns (xa: Lanes, xb: Lanes)
    requires ca != cb
    ensures forall k :: 0 <= k < 8 ==> xa[k] == FirstUnknown(s[k], t[k], ca, cb) && xb[k] == Xor(s[k], xa[k])
  {
    CoefficientsDiffer(ca, cb);
    var inverse := GfInv(Xor(ca, cb));
    var inv := inverse.value;
    xa, xb := NO_PARITY, NO_PARITY;
    for k := 0 to 8
      invariant forall j :: 0 <= j < k ==> xa[j] == FirstUnknown(s[j], t[j], ca, cb) && xb[j] == Xor(s[j], xa[j])
    {
      var x, y := SolveLane(s[k], t[k], ca, cb, inv);
      xa := xa[k := x];
      xb := xb[k := y];
    }
  }

  method SolveLane(s: Byte, t: Byte, ca: Byte, cb: Byte, inv: Byte) returns (x: Byte, y: Byte)
    requires ca != cb && Xor(ca, cb) < 256 && inv == Inverse(Xor(ca, cb))
    ensures x == FirstUnknown(s, t, ca, cb) && y == Xor(s, x)
  {
    var product := GfMul(cb, s);
    XorByte(t, product);
    x := GfMul(inv, Xor(t, product));
    XorByte(s, x);
    y := Xor(s, x);
  }

  lemma AllTakenOut(block: seq<nat>, p: Lanes, q: Lanes, a: nat, b: nat, s: Lanes, t: Lanes, xa: Lanes, xb: Lanes)
    requires a < |block| && b < |block| && Apart(a, b)
    requires TakenOut(block, p, q, a, b, |block|, s, t)
    requires forall k :: 0 <= k < 8 ==>
      xa[k] == FirstUnknown(s[k], t[k], Coefficient(a), Coefficient(b)) && xb[k] == Xor(s[k], xa[k])
    ensures forall k :: 0 <= k < 8 ==> LaneSolution(block, p, q, a, b, xa[k], xb[k], k)
  {
    forall k | 0 <= k < 8
      ensures LaneSolution(block, p, q, a, b, xa[k], xb[k], k)
    {
      var m := Masked(Lane(block, k), a, b);
      assert m[..|block|] == m && Weighted(m)[..|block|] == Weighted(m);
    }
  }
}
