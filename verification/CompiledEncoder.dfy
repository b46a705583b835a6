/**
  The compiled encoder: a trie of rule expansions and a greedy longest-match encoder over it.
*/
module CompiledEncoder {
  import opened Words
  import opened Common
  import opened Expansion
  import opened PairRewriting
  import AdaptiveMemory

  /** Absent edges of `next` stand for the source's -1. */
  datatype TrieNode = TrieNode(next: map<Byte, nat>, terminal: SymbolId, terminalLength: nat)

  datatype CompiledEncodeResult = CompiledEncodeResult(
    trail: seq<SymbolId>, inputBytes: nat, matchedBytes: nat, matchedRules: nat)

  const EMPTY_NODE := TrieNode(map[], 0, 0)

  /** The expansions of the rules, in rule order: entry k belongs to the symbol BASE + k. */
  type Expansions = seq<seq<Byte>>

  // ---------- longest match, without a trie ----------

  /** The latest rule whose expansion is `s`. */
  function Latest(words: Expansions, s: seq<Byte>): Option<SymbolId> {
    if words == [] then None
    else if words[|words| - 1] == s then Some(BASE + |words| - 1)
    else Latest(words[..|words| - 1], s)
  }

  /** The length of the longest expansion that is a prefix of `data` of at most `n` bytes; 0 if there is none. */
  function LongestUpTo(words: Expansions, data: seq<Byte>, n: nat): (len: nat)
    requires n <= |data|
    ensures len <= n
  {
    if n == 0 then 0
    else if Latest(words, data[..n]).Some? then n
    else LongestUpTo(words, data, n - 1)
  }

  function Longest(words: Expansions, data: seq<Byte>): (len: nat)
    ensures len <= |data|
  {
    LongestUpTo(words, data, |data|)
  }

  lemma {:induction false} LatestSound(words: Expansions, s: seq<Byte>)
    ensures match Latest(words, s)
            case Some(id) => && BASE <= id < BASE + |words| && words[id - BASE] == s
                             && forall k :: id - BASE < k < |words| ==> words[k] != s
            case None => forall k :: 0 <= k < |words| ==> words[k] != s
  {
    if words != [] {
      LatestSound(words[..|words| - 1], s);
    }
  }

  /** `len` is the greatest length of an expansion that the data start with. */
  lemma {:induction false} LongestIsLongest(words: Expansions, data: seq<Byte>, n: nat)
    requires n <= |data|
    ensures LongestUpTo(words, data, n) > 0 ==> Latest(words, data[..LongestUpTo(words, data, n)]).Some?
    ensures forall m :: LongestUpTo(words, data, n) < m <= n ==> Latest(words, data[..m]) == None
  {
    if n != 0 && Latest(words, data[..n]) == None {
      LongestIsLongest(words, data, n - 1);
    }
  }

  /** Greedy encoding: the longest matching rule, or one literal byte. */
  function Greedy(words: Expansions, data: seq<Byte>): seq<SymbolId>
    decreases |data|
  {
    if data == [] then []
    else
      var len := Longest(words, data);
      if len >= 2 && Latest(words, data[..len]).Some? then
        [Latest(words, data[..len]).value] + Greedy(words, data[len..])
      else [data[0]] + Greedy(words, data[1..])
  }

  // ---------- the trie ----------

  function Prefixes(s: seq<Byte>): set<seq<Byte>> {
    set n | 0 <= n <= |s| :: s[..n]
  }

  lemma PrefixMember(s: seq<Byte>, p: seq<Byte>)
    ensures p in Prefixes(s) <==> p <= s
  {
    if p <= s {
      assert p == s[..|p|];
    }
  }

  lemma PrefixesGrow(s: seq<Byte>, j: nat)
    requires j < |s|
    ensures Prefixes(s[..j + 1]) == Prefixes(s[..j]) + {s[..j + 1]}
  {
    var t, u := s[..j + 1], s[..j];
    forall p
      ensures p in Prefixes(t) <==> p in Prefixes(u) + {t}
    {
      PrefixMember(t, p);
      PrefixMember(u, p);
      if p <= t && p != t {
        assert p == t[..|p|] && p == u[..|p|];
      }
      if p <= u {
        assert p == t[..|p|];
      }
    }
  }

  /** All prefixes of the expansions, and the empty string for the root. */
  function AllPrefixes(words: Expansions): set<seq<Byte>> {
    if words == [] then {[]} else AllPrefixes(words[..|words| - 1]) + Prefixes(words[|words| - 1])
  }

  type Paths = seq<seq<Byte>>

  ghost predicate EdgeOk(trie: seq<TrieNode>, paths: Paths, n: nat, b: Byte)
    requires |trie| == |paths| && n < |trie|
  {
    if b in trie[n].next
    then 0 < trie[n].next[b] < |trie| && paths[trie[n].next[b]] == paths[n] + [b]
    else paths[n] + [b] !in paths
  }

  ghost predicate HasParent(paths: Paths, n: nat)
    requires n < |paths|
  {
    paths[n] != [] ==> paths[n][..|paths[n]| - 1] in paths
  }

  /** Node n is reached by the string paths[n]; different nodes by different strings; no edge is missing. */
  ghost predicate Shape(trie: seq<TrieNode>, paths: Paths) {
    && |trie| == |paths| > 0 && paths[0] == []
    && (forall i, j :: 0 <= i < j < |paths| ==> paths[i] != paths[j])
    && (forall n, b: Byte :: 0 <= n < |trie| ==> EdgeOk(trie, paths, n, b))
    && (forall n :: 0 <= n < |trie| ==> HasParent(paths, n))
  }

  ghost predicate TerminalOk(words: Expansions, node: TrieNode, path: seq<Byte>) {
    match Latest(words, path)
    case None => node.terminalLength == 0
    case Some(id) => node.terminalLength == |path| && node.terminal == id
  }

  ghost predicate TerminalsOk(words: Expansions, trie: seq<TrieNode>, paths: Paths)
    requires |trie| == |paths|
  {
    forall n :: 0 <= n < |trie| ==> TerminalOk(words, trie[n], paths[n])
  }

  ghost predicate PathsAre(paths: Paths, strings: set<seq<Byte>>) {
    forall s :: s in paths <==> s in strings
  }

  /** The trie of the expansions. */
  ghost predicate IsTrie(words: Expansions, trie: seq<TrieNode>, paths: Paths) {
    Shape(trie, paths) && TerminalsOk(words, trie, paths) && PathsAre(paths, AllPrefixes(words))
  }

  /** A new leaf below node `n`. */
  function WithLeaf(trie: seq<TrieNode>, n: nat, b: Byte): seq<TrieNode>
    requires n < |trie|
  {
    trie[n := trie[n].(next := trie[n].next[b := |trie|])] + [EMPTY_NODE]
  }

  lemma LeafKeepsShape(trie: seq<TrieNode>, paths: Paths, n: nat, b: Byte)
    requires Shape(trie, paths) && n < |trie| && b !in trie[n].next
    ensures Shape(WithLeaf(trie, n, b), paths + [paths[n] + [b]])
  {
    var after, longer, leaf := WithLeaf(trie, n, b), paths + [paths[n] + [b]], paths[n] + [b];
    assert EdgeOk(trie, paths, n, b);
    forall m, c: Byte | 0 <= m < |after|
      ensures EdgeOk(after, longer, m, c)
    {
      if m < |trie| {
        OldEdge(trie, paths, n, b, m, c);
      } else {
        LeafHasNoChild(trie, paths, n, b, c);
      }
    }
    forall m | 0 <= m < |longer|
      ensures HasParent(longer, m)
    {
      if m < |paths| {
        assert HasParent(paths, m);
      } else {
        assert leaf[..|leaf| - 1] == paths[n];
      }
    }
  }

  lemma OldEdge(trie: seq<TrieNode>, paths: Paths, n: nat, b: Byte, m: nat, c: Byte)
    requires Shape(trie, paths) && n < |trie| && b !in trie[n].next && m < |trie|
    ensures EdgeOk(WithLeaf(trie, n, b), paths + [paths[n] + [b]], m, c)
  {
    var leaf := paths[n] + [b];
    assert EdgeOk(trie, paths, m, c);
    if paths[m] + [c] == leaf {
      assert paths[m] == leaf[..|leaf| - 1] && paths[n] == leaf[..|leaf| - 1];
      assert c == leaf[|leaf| - 1] && b == leaf[|leaf| - 1];
    }
  }

  lemma LeafHasNoChild(trie: seq<TrieNode>, paths: Paths, n: nat, b: Byte, c: Byte)
    requires Shape(trie, paths) && n < |trie| && b !in trie[n].next
    ensures EdgeOk(WithLeaf(trie, n, b), paths + [paths[n] + [b]], |trie|, c)
  {
    var leaf := paths[n] + [b];
    var child := leaf + [c];
    assert EdgeOk(trie, paths, n, b);
    assert child[..|child| - 1] == leaf;
    if child in paths {
      ParentIsPath(trie, paths, child);
    }
  }

  lemma ParentIsPath(trie: seq<TrieNode>, paths: Paths, s: seq<Byte>)
    requires Shape(trie, paths) && s in paths && s != []
    ensures s[..|s| - 1] in paths
  {
    var k :| 0 <= k < |paths| && paths[k] == s;
    assert HasParent(paths, k);
  }

  // ---------- inserting a rule ----------

  /** While `word` is being inserted its first `j` bytes are already paths. */
  ghost predicate Inserting(words: Expansions, trie: seq<TrieNode>, paths: Paths, word: seq<Byte>, j: nat, node: nat)
    requires j <= |word|
  {
    && Shape(trie, paths) && TerminalsOk(words, trie, paths)
    && node < |trie| && paths[node] == word[..j]
    && PathsAre(paths, AllPrefixes(words) + Prefixes(word[..j]))
  }

  lemma {:induction false} WordIsPath(words: Expansions, k: nat)
    requires k < |words|
    ensures words[k] in AllPrefixes(words)
    decreases |words|
  {
    PrefixMember(words[k], words[k]);
    if k < |words| - 1 {
      WordIsPath(words[..|words| - 1], k);
    }
  }

  lemma RootIsPath(words: Expansions)
    ensures [] in AllPrefixes(words)
    decreases |words|
  {
    if words != [] {
      RootIsPath(words[..|words| - 1]);
    }
  }

  /** Following or creating the edge for the next byte. */
  lemma InsertStep(words: Expansions, trie: seq<TrieNode>, paths: Paths, word: seq<Byte>, j: nat, node: nat)
    requires j < |word| && Inserting(words, trie, paths, word, j, node)
    ensures word[j] in trie[node].next ==> Inserting(words, trie, paths, word, j + 1, trie[node].next[word[j]])
    ensures word[j] !in trie[node].next ==>
      Inserting(words, WithLeaf(trie, node, word[j]), paths + [paths[node] + [word[j]]], word, j + 1, |trie|)
  {
    var b, longer := word[j], word[..j + 1];
    assert longer == paths[node] + [b] && longer[..j] == word[..j];
    assert EdgeOk(trie, paths, node, b);
    PrefixesGrow(word, j);
    if b !in trie[node].next {
      LeafKeepsShape(trie, paths, node, b);
      LeafTerminals(words, trie, paths, node, b);
    }
  }

  lemma LeafTerminals(words: Expansions, trie: seq<TrieNode>, paths: Paths, n: nat, b: Byte)
    requires Shape(trie, paths) && TerminalsOk(words, trie, paths) && n < |trie|
    requires forall s :: s in AllPrefixes(words) ==> s in paths
    requires b !in trie[n].next
    ensures TerminalsOk(words, WithLeaf(trie, n, b), paths + [paths[n] + [b]])
  {
    var leaf := paths[n] + [b];
    assert EdgeOk(trie, paths, n, b);
    LatestSound(words, leaf);
    if Latest(words, leaf).Some? {
      WordIsPath(words, Latest(words, leaf).value - BASE);
    }
    var after, longer := WithLeaf(trie, n, b), paths + [leaf];
    forall m | 0 <= m < |after|
      ensures TerminalOk(words, after[m], longer[m])
    {
      if m < |trie| {
        assert TerminalOk(words, trie[m], paths[m]);
      }
    }
  }

  /** Marking the last node as the terminal of the new word. */
  function WithTerminal(trie: seq<TrieNode>, n: nat, id: SymbolId, length: nat): seq<TrieNode>
    requires n < |trie|
  {
    trie[n := trie[n].(terminal := id, terminalLength := length)]
  }

  lemma InsertEnd(words: Expansions, trie: seq<TrieNode>, paths: Paths, word: seq<Byte>, node: nat)
    requires Inserting(words, trie, paths, word, |word|, node)
    ensures |word| >= trie[node].terminalLength
    ensures IsTrie(words + [word], WithTerminal(trie, node, BASE + |words|, |word|), paths)
  {
    var longer, after := words + [word], WithTerminal(trie, node, BASE + |words|, |word|);
    assert word[..|word|] == word && longer[..|longer| - 1] == words;
    assert TerminalOk(words, trie[node], paths[node]);
    forall n, b: Byte | 0 <= n < |after|
      ensures EdgeOk(after, paths, n, b)
    {
      assert EdgeOk(trie, paths, n, b);
    }
    forall m | 0 <= m < |after|
      ensures TerminalOk(longer, after[m], paths[m])
    {
      assert TerminalOk(words, trie[m], paths[m]);
    }
  }

  lemma EmptyTrie()
    ensures IsTrie([], [EMPTY_NODE], [[]])
  {
    var trie: seq<TrieNode>, paths: Paths := [EMPTY_NODE], [[]];
    forall n, b: Byte | 0 <= n < |trie|
      ensures EdgeOk(trie, paths, n, b)
    {
      assert |paths[n] + [b]| == 1;
    }
  }

  /** One node for the root and one for every distinct non-empty prefix of an expansion. */
  lemma NodeCount(words: Expansions, trie: seq<TrieNode>, paths: Paths)
    requires IsTrie(words, trie, paths)
    ensures |trie| == 1 + |AllPrefixes(words) - {[]}|
  {
    RootIsPath(words);
    assert ElementsOf(paths) == AllPrefixes(words);
    DistinctCount(paths);
    CountWithout(ElementsOf(paths), []);
  }

  lemma CountWithout<T>(s: set<T>, x: T)
    requires x in s
    ensures |s| == 1 + |s - {x}|
  {
    assert s == (s - {x}) + {x};
  }

  function ElementsOf<T>(s: seq<T>): set<T> {
    set x | x in s
  }

  lemma {:induction false} DistinctCount<T>(s: seq<T>)
    requires forall i, j :: 0 <= i < j < |s| ==> s[i] != s[j]
    ensures |ElementsOf(s)| == |s|
  {
    if s != [] {
      var front, last := s[..|s| - 1], s[|s| - 1];
      DistinctCount(front);
      assert ElementsOf(s) == ElementsOf(front) + {last};
    }
  }

  // ---------- the encoder ----------

  class Encoder {
    var trie: seq<TrieNode>
    ghost var paths: Paths
    ghost var words: Expansions

    ghost predicate Valid()
      reads this
    {
      IsTrie(words, trie, paths) && forall k :: 0 <= k < |words| ==> |words[k]| >= 2
    }

    /** Compiles the rules that the memory has now. */
    constructor (memory: AdaptiveMemory.Memory)
      requires Ordered(memory.rules)
      ensures Valid() && WellFounded(RulePairs(memory.rules)) && |words| == |memory.rules|
      ensures forall k :: 0 <= k < |words| ==> words[k] == Expand(RulePairs(memory.rules), BASE + k)
      ensures TrieNodeCount() == 1 + |AllPrefixes(words) - {[]}|
    {
      trie, paths, words := [EMPTY_NODE], [[]], [];
      new;
      EmptyTrie();
      OrderedIsWellFounded(memory.rules);
      for k := 0 to |memory.rules|
        invariant Valid() && |words| == k
        invariant forall j :: 0 <= j < k ==> words[j] == Expand(RulePairs(memory.rules), BASE + j)
      {
        var decoded := memory.Decode([BASE + k]);
        RuleDecodes(memory.rules, k);
        InsertRule(decoded.value, BASE + k);
      }
      NodeCount(words, trie, paths);
    }

    method InsertRule(bytes: seq<Byte>, id: SymbolId)
      requires Valid() && |bytes| >= 2 && id == BASE + |words|
      modifies this
      ensures Valid() && words == old(words) + [bytes]
    {
      var node: nat := 0;
      assert bytes[..0] == [];
      RootIsPath(words);
      for j := 0 to |bytes|
        invariant Inserting(words, trie, paths, bytes, j, node)
        invariant words == old(words)
      {
        var b := bytes[j];
        InsertStep(words, trie, paths, bytes, j, node);
        if b in trie[node].next {
          node := trie[node].next[b];
        } else {
          var next := |trie|;
          paths := paths + [paths[node] + [b]];
          trie := WithLeaf(trie, node, b);
          node := next;
        }
      }
      InsertEnd(words, trie, paths, bytes, node);
      if |bytes| >= trie[node].terminalLength {
        trie := WithTerminal(trie, node, id, |bytes|);
      }
      words := words + [bytes];
    }

    function TrieNodeCount(): nat
      reads this
    {
      |trie|
    }

    /** Walks the trie from the start of `data` and remembers the longest rule seen. */
    method LongestMatch(data: seq<Byte>) returns (symbol: SymbolId, length: nat)
      requires Valid()
      ensures length == Longest(words, data)
      ensures length > 0 ==> Latest(words, data[..length]) == Some(symbol)
    {
      var node, j := 0, 0;
      symbol, length := 0, 0;
      assert data[..0] == [];
      while j < |data|
        invariant j <= |data| && node < |trie| && paths[node] == data[..j]
        invariant length == LongestUpTo(words, data, j)
        invariant length > 0 ==> Latest(words, data[..length]) == Some(symbol)
      {
        assert EdgeOk(trie, paths, node, data[j]);
        assert data[..j + 1] == data[..j] + [data[j]];
        if data[j] !in trie[node].next {
          NoLongerMatch(words, trie, paths, data, j, |data|);
          return;
        }
        node := trie[node].next[data[j]];
        j := j + 1;
        var current := trie[node];
        assert TerminalOk(words, current, paths[node]);
        if current.terminalLength > length {
          length := current.terminalLength;
          symbol := current.terminal;
        }
      }
    }

    method Encode(data: seq<Byte>) returns (result: CompiledEncodeResult)
      requires Valid()
      ensures result.trail == Greedy(words, data) && result.inputBytes == |data|
      ensures result.matchedRules == RuleCount(result.trail)
      ensures result.matchedBytes == RuleBytes(words, result.trail) <= |data|
      ensures |result.trail| == result.matchedRules + (|data| - result.matchedBytes)
    {
      var trail, matchedBytes, matchedRules := [], 0, 0;
      var i := 0;
      ghost var w, whole := words, Greedy(words, data);
      RestStart(w, data);
      while i < |data|
        invariant i <= |data|
        invariant whole == trail + Rest(w, data, i)
        invariant matchedRules == RuleCount(trail) && matchedBytes == RuleBytes(w, trail)
        invariant matchedBytes <= i && |trail| == matchedRules + (i - matchedBytes)
      {
        var symbol, length := LongestMatch(data[i..]);
        RestStep(w, data, i, symbol, length, trail);
        RuleCounted(w, trail, data[i], symbol, data[i..][..length]);
        if length >= 2 {
          trail := trail + [symbol];
          matchedBytes := matchedBytes + length;
          matchedRules := matchedRules + 1;
          i := i + length;
        } else {
          trail := trail + [data[i]];
          i := i + 1;
        }
      }
      result := CompiledEncodeResult(trail, |data|, matchedBytes, matchedRules);
    }
  }

  /** The symbols of a trail that are rules. */
  function RuleCount(trail: seq<SymbolId>): nat {
    if trail == [] then 0
    else RuleCount(trail[..|trail| - 1]) + if trail[|trail| - 1] >= BASE then 1 else 0
  }

  /** The bytes those rules stand for. */
  function RuleBytes(words: Expansions, trail: seq<SymbolId>): nat {
    if trail == [] then 0
    else RuleBytes(words, trail[..|trail| - 1]) + WordLength(words, trail[|trail| - 1])
  }

  function WordLength(words: Expansions, symbol: SymbolId): nat {
    if BASE <= symbol < BASE + |words| then |words[symbol - BASE]| else 0
  }

  /** One more symbol: a literal byte, or the rule found for `match`. */
  lemma RuleCounted(words: Expansions, trail: seq<SymbolId>, b: Byte, symbol: SymbolId, found: seq<Byte>)
    requires found != [] ==> Latest(words, found) == Some(symbol)
    ensures RuleCount(trail + [b]) == RuleCount(trail) && RuleBytes(words, trail + [b]) == RuleBytes(words, trail)
    ensures found != [] ==>
      && RuleCount(trail + [symbol]) == RuleCount(trail) + 1
      && RuleBytes(words, trail + [symbol]) == RuleBytes(words, trail) + |found|
  {
    LatestSound(words, found);
    assert (trail + [b])[..|trail|] == trail && (trail + [symbol])[..|trail|] == trail;
  }

  /** The greedy encoding of what remains after `i` bytes. */
  function Rest(words: Expansions, data: seq<Byte>, i: nat): seq<SymbolId>
    requires i <= |data|
  {
    Greedy(words, data[i..])
  }

  lemma RestStart(words: Expansions, data: seq<Byte>)
    ensures Rest(words, data, 0) == Greedy(words, data)
    ensures Rest(words, data, |data|) == []
  {
    assert data[0..] == data;
  }

  lemma RestStep(words: Expansions, data: seq<Byte>, i: nat, symbol: SymbolId, length: nat, trail: seq<SymbolId>)
    requires i < |data| && length == Longest(words, data[i..])
    requires length > 0 ==> Latest(words, data[i..][..length]) == Some(symbol)
    ensures length >= 2 ==> trail + Rest(words, data, i) == trail + [symbol] + Rest(words, data, i + length)
    ensures length < 2 ==> trail + Rest(words, data, i) == trail + [data[i]] + Rest(words, data, i + 1)
  {
    var rest := data[i..];
    assert rest[length..] == data[i + length..] && rest[1..] == data[i + 1..];
  }

  lemma RuleDecodes(rules: Rules, k: nat)
    requires Ordered(rules) && k < |rules|
    ensures WellFounded(RulePairs(rules))
    ensures Decoded(RulePairs(rules), [BASE + k]) == Ok(Expand(RulePairs(rules), BASE + k))
    ensures |Expand(RulePairs(rules), BASE + k)| >= 2
  {
    OrderedIsWellFounded(rules);
    var pairs := RulePairs(rules);
    KnownCons(pairs, BASE + k, []);
    assert [BASE + k] + [] == [BASE + k];
    assert Expand(pairs, BASE + k) + [] == Expand(pairs, BASE + k);
  }

  /** Once the walk leaves the trie no longer expansion can match. */
  lemma {:induction false} NoLongerMatch(words: Expansions, trie: seq<TrieNode>, paths: Paths, data: seq<Byte>,
                                         j: nat, n: nat)
    requires IsTrie(words, trie, paths) && j < |data| && data[..j + 1] !in paths && j <= n <= |data|
    ensures LongestUpTo(words, data, n) == LongestUpTo(words, data, j)
    decreases n
  {
    if n > j {
      NoLongerMatch(words, trie, paths, data, j, n - 1);
      LatestSound(words, data[..n]);
      if Latest(words, data[..n]).Some? {
        WordPrefixes(words, Latest(words, data[..n]).value - BASE, data[..j + 1]);
      }
    }
  }

  lemma {:induction false} WordPrefixes(words: Expansions, k: nat, p: seq<Byte>)
    requires k < |words| && p <= words[k]
    ensures p in AllPrefixes(words)
    decreases |words|
  {
    PrefixMember(words[k], p);
    if k < |words| - 1 {
      WordPrefixes(words[..|words| - 1], k, p);
    }
  }

  // ---------- lossless ----------

  /** The encoder was compiled from the rules of `pairs`, or from an earlier state of them. */
  ghost predicate CompiledFrom(words: Expansions, pairs: seq<Pair>) {
    && WellFounded(pairs) && |words| <= |pairs|
    && forall k :: 0 <= k < |words| ==> words[k] == Expand(pairs, BASE + k)
  }

  /** Appending rules to the memory does not invalidate a compiled encoder. */
  lemma CompiledSurvives(words: Expansions, pairs: seq<Pair>, longer: seq<Pair>)
    requires CompiledFrom(words, pairs) && WellFounded(longer) && pairs <= longer
    ensures CompiledFrom(words, longer)
  {
    forall k | 0 <= k < |words|
      ensures words[k] == Expand(longer, BASE + k)
    {
      ExpandStable(pairs, longer, BASE + k);
    }
  }

  /** Greedy encoding decodes to the input. */
  lemma {:induction false} GreedyRoundTrip(words: Expansions, pairs: seq<Pair>, data: seq<Byte>)
    requires CompiledFrom(words, pairs)
    ensures Decoded(pairs, Greedy(words, data)) == Ok(data)
    decreases |data|
  {
    if data != [] {
      var len := Longest(words, data);
      if len >= 2 && Latest(words, data[..len]).Some? {
        var id := Latest(words, data[..len]).value;
        LatestSound(words, data[..len]);
        GreedyRoundTrip(words, pairs, data[len..]);
        GreedyCons(pairs, id, Greedy(words, data[len..]), data[..len], data[len..]);
        assert data == data[..len] + data[len..];
      } else {
        GreedyRoundTrip(words, pairs, data[1..]);
        GreedyCons(pairs, data[0], Greedy(words, data[1..]), [data[0]], data[1..]);
        assert data == [data[0]] + data[1..];
      }
    }
  }

  lemma GreedyCons(pairs: seq<Pair>, s: SymbolId, trail: seq<SymbolId>, head: seq<Byte>, tail: seq<Byte>)
    requires WellFounded(pairs) && s < BASE + |pairs| && Expand(pairs, s) == head
    requires Decoded(pairs, trail) == Ok(tail)
    ensures Decoded(pairs, [s] + trail) == Ok(head + tail)
  {
    KnownCons(pairs, s, trail);
  }

  /** What each greedy step emits: the latest of the longest matching rules, or one literal byte. */
  lemma GreedyStep(words: Expansions, data: seq<Byte>)
    requires data != []
    requires forall k :: 0 <= k < |words| ==> |words[k]| >= 2
    ensures var out := Greedy(words, data);
            if exists k :: 0 <= k < |words| && words[k] <= data then
              exists k :: 0 <= k < |words| && words[k] <= data && out == [BASE + k] + Greedy(words, data[|words[k]|..])
                && forall m :: 0 <= m < |words| && words[m] <= data ==>
                  |words[m]| < |words[k]| || (words[m] == words[k] && m <= k)
            else out == [data[0]] + Greedy(words, data[1..])
  {
    var len := Longest(words, data);
    LongestIsLongest(words, data, |data|);
    LatestSound(words, data[..len]);
    forall m | 0 <= m < |words| && words[m] <= data
      ensures |words[m]| <= len
    {
      LatestSound(words, data[..|words[m]|]);
      assert data[..|words[m]|] == words[m];
    }
    if len > 0 {
      var k := Latest(words, data[..len]).value - BASE;
      assert words[k] == data[..len] && words[k] <= data;
      forall m | 0 <= m < |words| && words[m] <= data
        ensures |words[m]| < |words[k]| || (words[m] == words[k] && m <= k)
      {
        assert words[m] == data[..|words[m]|];
      }
    }
  }
}
