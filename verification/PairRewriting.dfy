/**
  Rewriting trails with pair rules: the replacement of one pair, the encoder that applies a whole rule
  table in order, and the normal form that it reaches.
*/
module PairRewriting {
  import opened Words
  import opened Common
  import opened Expansion

  // ---------- one pair ----------

  /** Left to right, every occurrence of the pair that does not overlap the previous one is replaced. */
  function Replaced(input: seq<SymbolId>, left: SymbolId, right: SymbolId, x: SymbolId): seq<SymbolId>
    decreases |input|
  {
    if |input| >= 2 && input[0] == left && input[1] == right then [x] + Replaced(input[2..], left, right, x)
    else if input == [] then []
    else [input[0]] + Replaced(input[1..], left, right, x)
  }

  /** How many replacements that makes. */
  function Replacements(input: seq<SymbolId>, left: SymbolId, right: SymbolId): nat
    decreases |input|
  {
    if |input| >= 2 && input[0] == left && input[1] == right then 1 + Replacements(input[2..], left, right)
    else if input == [] then 0
    else Replacements(input[1..], left, right)
  }

  /** No two adjacent symbols are the pair. */
  ghost predicate Free(trail: seq<SymbolId>, left: SymbolId, right: SymbolId) {
    forall i :: 0 <= i < |trail| - 1 ==> !(trail[i] == left && trail[i + 1] == right)
  }

  method ReplacePair(input: seq<SymbolId>, left: SymbolId, right: SymbolId, x: SymbolId)
    returns (out: seq<SymbolId>, count: nat)
    ensures out == Replaced(input, left, right, x) && count == Replacements(input, left, right)
  {
    out, count := [], 0;
    var i := 0;
    assert input[0..] == input;
    while i < |input|
      invariant i <= |input|
      invariant Replaced(input, left, right, x) == out + Replaced(input[i..], left, right, x)
      invariant Replacements(input, left, right) == count + Replacements(input[i..], left, right)
    {
      var rest := input[i..];
      if i + 1 < |input| && input[i] == left && input[i + 1] == right {
        assert rest[2..] == input[i + 2..];
        out := out + [x];
        i := i + 2;
        count := count + 1;
      } else {
        assert rest[1..] == input[i + 1..];
        out := out + [input[i]];
        i := i + 1;
      }
    }
  }

  lemma {:induction false} ReplacedLength(input: seq<SymbolId>, left: SymbolId, right: SymbolId, x: SymbolId)
    ensures |Replaced(input, left, right, x)| + Replacements(input, left, right) == |input|
    decreases |input|
  {
    if |input| >= 2 && input[0] == left && input[1] == right {
      ReplacedLength(input[2..], left, right, x);
    } else if input != [] {
      ReplacedLength(input[1..], left, right, x);
    }
  }

  ghost predicate PairAt(input: seq<SymbolId>, i: nat, left: SymbolId, right: SymbolId) {
    i + 1 < |input| && input[i] == left && input[i + 1] == right
  }

  /** Output symbol `j` begins at `from[j]`: the pair if it stands there, otherwise the one symbol. */
  ghost predicate ScanAt(input: seq<SymbolId>, left: SymbolId, right: SymbolId, x: SymbolId, out: seq<SymbolId>,
                         from: seq<nat>, j: nat)
    requires j < |out| && |from| == |out| + 1
  {
    && from[j] < |input|
    && (if PairAt(input, from[j], left, right) then out[j] == x && from[j + 1] == from[j] + 2
        else out[j] == input[from[j]] && from[j + 1] == from[j] + 1)
  }

  /** `out` is read off the input in one scan from left to right. */
  ghost predicate IsScan(input: seq<SymbolId>, left: SymbolId, right: SymbolId, x: SymbolId, out: seq<SymbolId>,
                         from: seq<nat>)
  {
    && |from| == |out| + 1 && from[0] == 0 && from[|out|] == |input|
    && forall j :: 0 <= j < |out| ==> ScanAt(input, left, right, x, out, from, j)
  }

  function Shifted(from: seq<nat>, n: nat): (r: seq<nat>)
    ensures |r| == |from|
  {
    seq(|from|, j requires 0 <= j < |from| => from[j] + n)
  }

  lemma ScanCons(input: seq<SymbolId>, left: SymbolId, right: SymbolId, x: SymbolId, n: nat, first: SymbolId,
                 out: seq<SymbolId>, from: seq<nat>)
    requires n <= |input| && IsScan(input[n..], left, right, x, out, from) && input != []
    requires if PairAt(input, 0, left, right) then first == x && n == 2 else first == input[0] && n == 1
    ensures IsScan(input, left, right, x, [first] + out, [0] + Shifted(from, n))
  {
    var all, at := [first] + out, [0] + Shifted(from, n);
    forall j | 0 <= j < |all|
      ensures ScanAt(input, left, right, x, all, at, j)
    {
      if j > 0 {
        assert ScanAt(input[n..], left, right, x, out, from, j - 1);
        assert at[j] == from[j - 1] + n && at[j + 1] == from[j] + n;
        assert input[n..][from[j - 1]] == input[at[j]];
        assert PairAt(input[n..], from[j - 1], left, right) <==> PairAt(input, at[j], left, right);
      }
    }
  }

  /** Replacing scans from the left: where the pair stands it is taken, and the next symbol is read behind it. */
  lemma {:induction false} ReplacedScans(input: seq<SymbolId>, left: SymbolId, right: SymbolId, x: SymbolId)
      returns (from: seq<nat>)
    ensures IsScan(input, left, right, x, Replaced(input, left, right, x), from)
    decreases |input|
  {
    if input == [] {
      from := [0];
    } else {
      var n := if PairAt(input, 0, left, right) then 2 else 1;
      var rest := ReplacedScans(input[n..], left, right, x);
      ScanCons(input, left, right, x, n, if n == 2 then x else input[0], Replaced(input[n..], left, right, x), rest);
      from := [0] + Shifted(rest, n);
    }
  }

  /** Where the pair does not occur nothing changes. */
  lemma {:induction false} ReplacedFree(input: seq<SymbolId>, left: SymbolId, right: SymbolId, x: SymbolId)
    requires Free(input, left, right)
    ensures Replaced(input, left, right, x) == input
    decreases |input|
  {
    if input != [] {
      FreeTail(input, left, right, 1);
      ReplacedFree(input[1..], left, right, x);
    }
  }

  lemma FreeTail(trail: seq<SymbolId>, left: SymbolId, right: SymbolId, n: nat)
    requires Free(trail, left, right) && n <= |trail|
    ensures Free(trail[n..], left, right)
  {
    var t := trail[n..];
    forall i | 0 <= i < |t| - 1
      ensures !(t[i] == left && t[i + 1] == right)
    {
      assert t[i] == trail[n + i] && t[i + 1] == trail[n + i + 1];
    }
  }

  lemma FreeCons(head: SymbolId, trail: seq<SymbolId>, left: SymbolId, right: SymbolId)
    requires Free(trail, left, right)
    requires trail != [] ==> !(head == left && trail[0] == right)
    ensures Free([head] + trail, left, right)
  {
    var t := [head] + trail;
    forall i | 0 <= i < |t| - 1
      ensures !(t[i] == left && t[i + 1] == right)
    {
      if i > 0 {
        assert t[i] == trail[i - 1] && t[i + 1] == trail[i];
      }
    }
  }

  /** A rewritten sequence starts with the new symbol or with the old first symbol. */
  lemma ReplacedHead(input: seq<SymbolId>, left: SymbolId, right: SymbolId, x: SymbolId)
    ensures Replaced(input, left, right, x) == [] <==> input == []
    ensures input != [] ==> Replaced(input, left, right, x)[0] == x || Replaced(input, left, right, x)[0] == input[0]
  {}

  /** Replacing a pair by a new symbol leaves no occurrence of the pair. */
  lemma {:induction false} ReplacedIsFree(input: seq<SymbolId>, left: SymbolId, right: SymbolId, x: SymbolId)
    requires x != left && x != right
    ensures Free(Replaced(input, left, right, x), left, right)
    decreases |input|
  {
    if |input| >= 2 && input[0] == left && input[1] == right {
      ReplacedIsFree(input[2..], left, right, x);
      FreeCons(x, Replaced(input[2..], left, right, x), left, right);
    } else if input != [] {
      var rest := input[1..];
      ReplacedIsFree(rest, left, right, x);
      ReplacedHead(rest, left, right, x);
      FreeCons(input[0], Replaced(rest, left, right, x), left, right);
    }
  }

  /** Replacing one pair by a newer symbol brings no other pair back. */
  lemma {:induction false} ReplacedKeepsFree(input: seq<SymbolId>, left: SymbolId, right: SymbolId, x: SymbolId,
                                             a: SymbolId, b: SymbolId)
    requires Free(input, a, b) && x != a && x != b
    ensures Free(Replaced(input, left, right, x), a, b)
    decreases |input|
  {
    if |input| >= 2 && input[0] == left && input[1] == right {
      FreeTail(input, a, b, 2);
      ReplacedKeepsFree(input[2..], left, right, x, a, b);
      FreeCons(x, Replaced(input[2..], left, right, x), a, b);
    } else if input != [] {
      var rest := input[1..];
      FreeTail(input, a, b, 1);
      ReplacedKeepsFree(rest, left, right, x, a, b);
      ReplacedHead(rest, left, right, x);
      assert rest != [] ==> !(input[0] == a && input[1] == b);
      FreeCons(input[0], Replaced(rest, left, right, x), a, b);
    }
  }

  /** Replacing a pair by the symbol that names it does not change the meaning. */
  lemma {:induction false} ReplacedExpands(pairs: seq<Pair>, input: seq<SymbolId>, x: SymbolId)
    requires WellFounded(pairs) && Known(pairs, input) && BASE <= x < BASE + |pairs|
    ensures var out := Replaced(input, pairs[x - BASE].0, pairs[x - BASE].1, x);
            Known(pairs, out) && ExpandAll(pairs, out) == ExpandAll(pairs, input)
    decreases |input|
  {
    var (left, right) := pairs[x - BASE];
    if |input| >= 2 && input[0] == left && input[1] == right {
      assert input[1..][1..] == input[2..];
      KnownTail(pairs, input, 2);
      ReplacedExpands(pairs, input[2..], x);
      KnownCons(pairs, x, Replaced(input[2..], left, right, x));
    } else if input != [] {
      KnownTail(pairs, input, 1);
      ReplacedExpands(pairs, input[1..], x);
      KnownCons(pairs, input[0], Replaced(input[1..], left, right, x));
    }
  }

  lemma KnownTail(pairs: seq<Pair>, trail: seq<SymbolId>, n: nat)
    requires Known(pairs, trail) && n <= |trail|
    ensures Known(pairs, trail[n..])
  {}

  lemma KnownCons(pairs: seq<Pair>, s: SymbolId, trail: seq<SymbolId>)
    requires WellFounded(pairs) && s < BASE + |pairs| && Known(pairs, trail)
    ensures Known(pairs, [s] + trail)
    ensures ExpandAll(pairs, [s] + trail) == Expand(pairs, s) + ExpandAll(pairs, trail)
  {
    assert ([s] + trail)[1..] == trail;
  }

  // ---------- rule tables ----------

  type Rules = seq<AdaptiveRule>

  function RulePairs(rules: Rules): (pairs: seq<Pair>)
    ensures |pairs| == |rules|
  {
    seq(|rules|, i requires 0 <= i < |rules| => (rules[i].left, rules[i].right))
  }

  /** Ids are contiguous from BASE and children come earlier: the layout that loading accepts. */
  predicate Ordered(rules: Rules) {
    forall i :: 0 <= i < |rules| ==>
      rules[i].id == BASE + i && rules[i].left < rules[i].id && rules[i].right < rules[i].id
  }

  lemma OrderedIsWellFounded(rules: Rules)
    requires Ordered(rules)
    ensures WellFounded(RulePairs(rules))
  {}

  /** All rules in order. */
  function Applied(rules: Rules, trail: seq<SymbolId>): seq<SymbolId>
    decreases |rules|
  {
    if rules == [] then trail
    else
      var last := rules[|rules| - 1];
      Replaced(Applied(rules[..|rules| - 1], trail), last.left, last.right, last.id)
  }

  function AppliedCount(rules: Rules, trail: seq<SymbolId>): nat
    decreases |rules|
  {
    if rules == [] then 0
    else
      var front, last := rules[..|rules| - 1], rules[|rules| - 1];
      AppliedCount(front, trail) + Replacements(Applied(front, trail), last.left, last.right)
  }

  /** No adjacent pair of the trail is the left and right side of any rule. */
  ghost predicate NormalForm(rules: Rules, trail: seq<SymbolId>) {
    forall i :: 0 <= i < |rules| ==> Free(trail, rules[i].left, rules[i].right)
  }

  lemma OrderedPrefix(rules: Rules, n: nat)
    requires Ordered(rules) && n <= |rules|
    ensures Ordered(rules[..n])
  {}

  /** Applying a rule table in order reaches a normal form. */
  lemma {:induction false} AppliedIsNormal(rules: Rules, trail: seq<SymbolId>)
    requires Ordered(rules)
    ensures NormalForm(rules, Applied(rules, trail))
    decreases |rules|
  {
    if rules != [] {
      var n := |rules| - 1;
      var front, last := rules[..n], rules[n];
      OrderedPrefix(rules, n);
      AppliedIsNormal(front, trail);
      var before := Applied(front, trail);
      forall i | 0 <= i < |rules|
        ensures Free(Applied(rules, trail), rules[i].left, rules[i].right)
      {
        if i < n {
          assert front[i] == rules[i];
          ReplacedKeepsFree(before, last.left, last.right, last.id, rules[i].left, rules[i].right);
        } else {
          ReplacedIsFree(before, last.left, last.right, last.id);
        }
      }
    }
  }

  /** A normal form is not changed by applying the rules once more. */
  lemma {:induction false} NormalIsStable(rules: Rules, trail: seq<SymbolId>)
    requires NormalForm(rules, trail)
    ensures Applied(rules, trail) == trail
    decreases |rules|
  {
    if rules != [] {
      var front, last := rules[..|rules| - 1], rules[|rules| - 1];
      forall i | 0 <= i < |front|
        ensures Free(trail, front[i].left, front[i].right)
      {
        assert front[i] == rules[i];
      }
      NormalIsStable(front, trail);
      ReplacedFree(trail, last.left, last.right, last.id);
    }
  }

  lemma {:induction false} AppliedLength(rules: Rules, trail: seq<SymbolId>)
    ensures |Applied(rules, trail)| + AppliedCount(rules, trail) == |trail|
    decreases |rules|
  {
    if rules != [] {
      var front, last := rules[..|rules| - 1], rules[|rules| - 1];
      AppliedLength(front, trail);
      ReplacedLength(Applied(front, trail), last.left, last.right, last.id);
    }
  }

  /** Rewriting with the first `n` rules keeps the meaning of a trail. */
  lemma {:induction false} AppliedExpands(rules: Rules, n: nat, trail: seq<SymbolId>)
    requires Ordered(rules) && n <= |rules| && Known(RulePairs(rules), trail)
    ensures WellFounded(RulePairs(rules)) && Known(RulePairs(rules), Applied(rules[..n], trail))
    ensures ExpandAll(RulePairs(rules), Applied(rules[..n], trail)) == ExpandAll(RulePairs(rules), trail)
    decreases n
  {
    OrderedIsWellFounded(rules);
    if n != 0 {
      AppliedExpands(rules, n - 1, trail);
      assert rules[..n][..n - 1] == rules[..n - 1];
      ReplacedExpands(RulePairs(rules), Applied(rules[..n - 1], trail), BASE + (n - 1));
    }
  }

  /** For every ordered table and every input the encoder is lossless. */
  lemma AdaptiveRoundTrip(rules: Rules, data: seq<Byte>)
    requires Ordered(rules)
    ensures WellFounded(RulePairs(rules))
    ensures Decoded(RulePairs(rules), Applied(rules, BytesAsSymbols(data))) == Ok(data)
  {
    OrderedIsWellFounded(rules);
    ExpandBytes(RulePairs(rules), data);
    AppliedExpands(rules, |rules|, BytesAsSymbols(data));
    assert rules[..|rules|] == rules;
  }
}
