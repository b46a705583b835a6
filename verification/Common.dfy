/** Values shared by the memories and by the code that protects and stores them. */
module Common {

  datatype Option<+T> = None | Some(value: T)

  /** A value or the reason there is none; `:-` passes failures on. */
  datatype Result<+T> = Ok(value: T) | Err(reason: string) {
    predicate IsFailure() {
      Err?
    }

    function PropagateFailure<U>(): Result<U>
      requires Err?
    {
      Err(reason)
    }

    function Extract(): T
      requires Ok?
    {
      value
    }
  }

  /** Symbols below this are bytes; the n-th relation of a table has the id BASE + n. */
  const BASE: nat := 256

  type SymbolId = nat

  datatype AdaptiveRule = AdaptiveRule(id: SymbolId, left: SymbolId, right: SymbolId, frequency: nat)

  function Min(a: nat, b: nat): nat {
    if a < b then a else b
  }

  function Max(a: nat, b: nat): nat {
    if a < b then b else a
  }

  // ---------- counters in a map ----------

  /** The counter of `k`; a key that is not there counts zero. */
  function At<K>(m: map<K, nat>, k: K): nat {
    if k in m then m[k] else 0
  }

  function Incremented<K(!new)>(m: map<K, nat>, k: K): (r: map<K, nat>)
    ensures forall j :: At(r, j) == At(m, j) + (if j == k then 1 else 0)
  {
    m[k := At(m, k) + 1]
  }

  // ---------- the elements of a sequence that are kept ----------

  function Kept<T, U>(s: seq<T>, keep: T -> bool, get: T -> U): seq<U> {
    if s == [] then []
    else Kept(s[..|s| - 1], keep, get) + if keep(s[|s| - 1]) then [get(s[|s| - 1])] else []
  }

  /** `at` lists, in increasing order, exactly the places of the elements kept. */
  ghost predicate KeptPlaces<T>(s: seq<T>, keep: T -> bool, at: seq<nat>) {
    && (forall j, k :: 0 <= j < k < |at| ==> at[j] < at[k])
    && (forall j :: 0 <= j < |at| ==> at[j] < |s|)
    && (forall i :: 0 <= i < |s| ==> (i in at <==> keep(s[i])))
  }

  /** `out` is what stands at these places. */
  ghost predicate ReadAt<T, U>(s: seq<T>, at: seq<nat>, get: T -> U, out: seq<U>) {
    |out| == |at| && forall j :: 0 <= j < |at| ==> at[j] < |s| && out[j] == get(s[at[j]])
  }

  lemma PlacesPush<T>(s: seq<T>, keep: T -> bool, at: seq<nat>, x: T)
    requires KeptPlaces(s, keep, at)
    ensures KeptPlaces(s + [x], keep, if keep(x) then at + [|s|] else at)
  {
    var all, more := s + [x], if keep(x) then at + [|s|] else at;
    forall i | 0 <= i < |all|
      ensures i in more <==> keep(all[i])
    {
      if i < |s| {
        assert i in more <==> i in at;
      } else if keep(x) {
        assert more[|at|] == i;
      }
    }
  }

  lemma ReadPush<T, U>(s: seq<T>, at: seq<nat>, get: T -> U, out: seq<U>, x: T)
    requires ReadAt(s, at, get, out)
    ensures ReadAt(s + [x], at, get, out) && ReadAt(s + [x], at + [|s|], get, out + [get(x)])
  {}

  lemma KeptPush<T, U>(s: seq<T>, keep: T -> bool, get: T -> U, x: T)
    ensures Kept(s + [x], keep, get) == if keep(x) then Kept(s, keep, get) + [get(x)] else Kept(s, keep, get)
  {
    assert (s + [x])[..|s|] == s;
  }

  lemma ListedPush<T, U>(s: seq<T>, keep: T -> bool, get: T -> U, x: T, before: seq<nat>) returns (at: seq<nat>)
    requires KeptPlaces(s, keep, before) && ReadAt(s, before, get, Kept(s, keep, get))
    ensures KeptPlaces(s + [x], keep, at) && ReadAt(s + [x], at, get, Kept(s + [x], keep, get))
  {
    PlacesPush(s, keep, before, x);
    ReadPush(s, before, get, Kept(s, keep, get), x);
    KeptPush(s, keep, get, x);
    at := if keep(x) then before + [|s|] else before;
  }

  /** The elements kept are those at these places, in their order. */
  lemma {:induction false} KeptListed<T, U>(s: seq<T>, keep: T -> bool, get: T -> U) returns (at: seq<nat>)
    ensures KeptPlaces(s, keep, at) && ReadAt(s, at, get, Kept(s, keep, get))
  {
    if s == [] {
      at := [];
    } else {
      var front, last := s[..|s| - 1], s[|s| - 1];
      assert s == front + [last];
      at := KeptListed(front, keep, get);
      at := ListedPush(front, keep, get, last, at);
    }
  }

  // ---------- images of sets ----------

  ghost function Image<A(!new), B>(f: A -> B, s: set<A>): set<B> {
    set x | x in s :: f(x)
  }

  lemma {:induction false} ImageSize<A(!new), B(!new)>(f: A -> B, s: set<A>)
    requires forall x, y :: x in s && y in s && f(x) == f(y) ==> x == y
    ensures |Image(f, s)| == |s|
  {
    if s != {} {
      var x :| x in s;
      ImageSize(f, s - {x});
      assert f(x) !in Image(f, s - {x});
      assert Image(f, s) == Image(f, s - {x}) + {f(x)};
    }
  }

  // ---------- cutting a sequence into blocks ----------

  /** How many blocks of `size` are needed for `n` elements. */
  function BlockCount(n: nat, size: nat): nat
    requires size > 0
  {
    (n + size - 1) / size
  }

  /** Block `i`; the last one may be shorter. */
  function Block<T>(s: seq<T>, i: nat, size: nat): seq<T>
    requires size > 0
  {
    if i * size <= |s| then s[i * size..Min(i * size + size, |s|)] else []
  }

  lemma BlockRange(n: nat, i: nat, size: nat)
    requires size > 0
    ensures i < BlockCount(n, size) <==> i * size < n
  {
    var c := BlockCount(n, size);
    var r := (n + size - 1) % size;
    assert n + size - 1 == c * size + r;
    if i < c {
      MulMonotone(i + 1, c, size);
      assert (i + 1) * size == i * size + size;
    } else {
      MulMonotone(c, i, size);
    }
  }

  lemma NextBlock(n: nat, i: nat, size: nat)
    requires size > 0 && i < BlockCount(n, size)
    ensures (i + 1) * size == i * size + size
    ensures (i + 1) * size < n <==> i + 1 < BlockCount(n, size)
  {
    BlockRange(n, i + 1, size);
  }

  lemma MulMonotone(a: nat, b: nat, c: nat)
    requires a <= b
    ensures a * c <= b * c
  {}

  /** Every index lies in exactly one block. */
  lemma BlockOf(n: nat, p: nat, size: nat)
    requires size > 0 && p < n
    ensures p / size < BlockCount(n, size)
    ensures p / size * size <= p < p / size * size + size
  {
    assert p == p / size * size + p % size;
    BlockRange(n, p / size, size);
  }
}
