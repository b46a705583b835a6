/**
  Machine words as natural numbers: bitwise exclusive or, and the little-endian byte view of a word.
*/
module Words {
  import opened Common

  type Byte = x: nat | x < 256

  /** Symbols and sizes are 64-bit words; a module that depends on the width bounds them by this. */
  const WORD: nat := 0x1_0000_0000_0000_0000

  type Word = x: nat | x < WORD

  // ---------- exclusive or ----------

  /** Bitwise exclusive or of two words of any width. */
  function Xor(a: nat, b: nat): nat {
    if a == 0 then b
    else if b == 0 then a
    else 2 * Xor(a / 2, b / 2) + (if a % 2 == b % 2 then 0 else 1)
  }

  lemma {:induction false} XorUnfold(a: nat, b: nat)
    ensures Xor(a, b) == 2 * Xor(a / 2, b / 2) + (if a % 2 == b % 2 then 0 else 1)
    ensures Xor(a, b) / 2 == Xor(a / 2, b / 2)
    ensures Xor(a, b) % 2 == (if a % 2 == b % 2 then 0 else 1)
  {}

  lemma XorZero(a: nat)
    ensures Xor(a, 0) == a && Xor(0, a) == a
  {}

  lemma {:induction false} XorCommutes(a: nat, b: nat)
    ensures Xor(a, b) == Xor(b, a)
  {
    if a != 0 && b != 0 {
      XorCommutes(a / 2, b / 2);
    }
  }

  lemma {:induction false} XorAssociates(a: nat, b: nat, c: nat)
    ensures Xor(Xor(a, b), c) == Xor(a, Xor(b, c))
  {
    if a != 0 && b != 0 && c != 0 {
      XorAssociates(a / 2, b / 2, c / 2);
      XorUnfold(a, b);
      XorUnfold(b, c);
      XorUnfold(Xor(a, b), c);
      XorUnfold(a, Xor(b, c));
    }
  }

  lemma {:induction false} XorSelf(a: nat)
    ensures Xor(a, a) == 0
  {
    if a != 0 {
      XorSelf(a / 2);
    }
  }

  /** Exclusive or with the same word twice is the identity. */
  lemma XorCancel(a: nat, b: nat)
    ensures Xor(Xor(a, b), b) == a
  {
    XorAssociates(a, b, b);
    XorSelf(b);
  }

  lemma XorInjective(a: nat, b: nat, c: nat)
    requires Xor(a, c) == Xor(b, c)
    ensures a == b
  {
    XorCancel(a, c);
    XorCancel(b, c);
  }

  /** The middle two of four words change places. */
  lemma XorExchange(a: nat, b: nat, c: nat, d: nat)
    ensures Xor(Xor(a, b), Xor(c, d)) == Xor(Xor(a, c), Xor(b, d))
  {
    XorAssociates(a, b, Xor(c, d));
    XorAssociates(b, c, d);
    XorCommutes(b, c);
    XorAssociates(c, b, d);
    XorAssociates(a, c, Xor(b, d));
  }

  /** Bit `k` of a word. */
  function Bit(a: nat, k: nat): nat
    decreases k
  {
    if k == 0 then a % 2 else Bit(a / 2, k - 1)
  }

  /** Every bit is the exclusive or of the two bits. */
  lemma {:induction false} XorBits(a: nat, b: nat, k: nat)
    ensures Bit(Xor(a, b), k) == if Bit(a, k) == Bit(b, k) then 0 else 1
    decreases k
  {
    XorUnfold(a, b);
    if k > 0 {
      XorBits(a / 2, b / 2, k - 1);
    }
  }

  function Pow2(n: nat): (p: nat)
    ensures p > 0
  {
    if n == 0 then 1 else 2 * Pow2(n - 1)
  }

  lemma {:induction false} XorBound(a: nat, b: nat, n: nat)
    requires a < Pow2(n) && b < Pow2(n)
    ensures Xor(a, b) < Pow2(n)
  {
    if a != 0 && b != 0 && n != 0 {
      XorBound(a / 2, b / 2, n - 1);
    }
  }

  lemma Pow2Byte()
    ensures Pow2(8) == 256
  {
    assert Pow2(4) == 16;
  }

  lemma {:induction false} Pow2Add(m: nat, n: nat)
    ensures Pow2(m + n) == Pow2(m) * Pow2(n)
  {
    if m != 0 {
      Pow2Add(m - 1, n);
    }
  }

  lemma Pow2Word()
    ensures Pow2(64) == WORD
  {
    Pow2Byte();
    Pow2Add(8, 8);
    assert Pow2(16) == 0x1_0000;
    Pow2Add(16, 16);
    assert Pow2(32) == 0x1_0000_0000;
    Pow2Add(32, 32);
  }

  lemma XorByte(a: nat, b: nat)
    requires a < 256 && b < 256
    ensures Xor(a, b) < 256
  {
    Pow2Byte();
    XorBound(a, b, 8);
  }

  lemma XorWord(a: nat, b: nat)
    requires a < WORD && b < WORD
    ensures Xor(a, b) < WORD
  {
    Pow2Word();
    XorBound(a, b, 64);
  }

  // ---------- exclusive or over a sequence ----------

  function XorAll(s: seq<nat>): nat {
    if s == [] then 0 else Xor(XorAll(s[..|s| - 1]), s[|s| - 1])
  }

  lemma {:induction false} XorAllByte(s: seq<nat>)
    requires forall i :: 0 <= i < |s| ==> s[i] < 256
    ensures XorAll(s) < 256
  {
    if s != [] {
      XorAllByte(s[..|s| - 1]);
      XorByte(XorAll(s[..|s| - 1]), s[|s| - 1]);
    }
  }

  /** Replacing one element changes the sum by the old and the new element. */
  lemma {:induction false} XorAllUpdate(s: seq<nat>, i: nat, v: nat)
    requires i < |s|
    ensures XorAll(s[i := v]) == Xor(XorAll(s), Xor(s[i], v))
  {
    var n := |s| - 1;
    var front := s[..n];
    if i == n {
      assert s[i := v][..n] == front;
      XorAssociates(XorAll(front), s[n], Xor(s[n], v));
      XorAssociates(s[n], s[n], v);
      XorSelf(s[n]);
    } else {
      assert s[i := v][..n] == front[i := v];
      XorAllUpdate(front, i, v);
      XorAssociates(XorAll(front), Xor(s[i], v), s[n]);
      XorCommutes(Xor(s[i], v), s[n]);
      XorAssociates(XorAll(front), s[n], Xor(s[i], v));
    }
  }

  // ---------- bytes of a word ----------

  lemma Regroup(a: seq<Byte>, b: seq<Byte>, c: seq<Byte>)
    ensures a + b + c == a + (b + c)
  {}

  /** The `n` low bytes of `v`, least significant first. */
  function ToBytes(v: nat, n: nat): (s: seq<Byte>)
    ensures |s| == n
    decreases n, v
  {
    if n == 0 then [] else [v % 256] + ToBytes(v / 256, n - 1)
  }

  /** The word whose bytes are `s`, least significant first. */
  function FromBytes(s: seq<Byte>): nat {
    if s == [] then 0 else s[0] + 256 * FromBytes(s[1..])
  }

  function Pow256(n: nat): (p: nat)
    ensures p > 0
  {
    if n == 0 then 1 else 256 * Pow256(n - 1)
  }

  lemma NestedQuotient(v: nat, a: nat, b: nat, q: nat, r: nat, s: nat, t: nat)
    requires v == q * a + r && r < a && q == s * b + t && t < b
    ensures s * (a * b) <= v < s * (a * b) + a * b
  {
    assert (s * b + t) * a == s * (a * b) + t * a;
    MulMonotone(t + 1, b, a);
    assert (t + 1) * a == t * a + a && b * a == a * b;
  }

  /** Dividing twice is dividing by the product. */
  lemma DivideTwice(v: nat, a: nat, b: nat)
    requires a > 0 && b > 0
    ensures a * b > 0 && v / a / b == v / (a * b)
  {
    NestedQuotient(v, a, b, v / a, v % a, v / a / b, v / a % b);
    DivideUnique(v, a * b, v / a / b);
  }

  lemma DivideUnique(v: nat, c: nat, q: nat)
    requires c > 0 && q * c <= v < q * c + c
    ensures v / c == q
  {
    var d, r := v / c, v % c;
    assert v == d * c + r;
    if d < q {
      MulMonotone(d + 1, q, c);
    } else if d > q {
      MulMonotone(q + 1, d, c);
    }
  }

  /** Byte `k` of a word is the quotient by 256^k, modulo 256. */
  lemma {:induction false} ToBytesAt(v: nat, n: nat, k: nat)
    requires k < n
    ensures ToBytes(v, n)[k] == v / Pow256(k) % 256
    decreases k
  {
    if k > 0 {
      ToBytesAt(v / 256, n - 1, k - 1);
      DivideTwice(v, 256, Pow256(k - 1));
    }
  }

  lemma Pow256Values()
    ensures Pow256(4) == 0x1_0000_0000
    ensures Pow256(8) == WORD
  {
    assert Pow256(2) == 65536;
    assert Pow256(3) == 256 * Pow256(2);
    assert Pow256(5) == 256 * Pow256(4);
    assert Pow256(6) == 256 * Pow256(5);
    assert Pow256(7) == 256 * Pow256(6);
  }

  lemma {:induction false} FromToBytes(v: nat, n: nat)
    requires v < Pow256(n)
    ensures FromBytes(ToBytes(v, n)) == v
    decreases n
  {
    if n != 0 {
      FromToBytes(v / 256, n - 1);
      assert ToBytes(v, n)[1..] == ToBytes(v / 256, n - 1);
    }
  }

  lemma {:induction false} FromBytesBound(s: seq<Byte>)
    ensures FromBytes(s) < Pow256(|s|)
  {
    if s != [] {
      FromBytesBound(s[1..]);
    }
  }

  lemma {:induction false} ToFromBytes(s: seq<Byte>)
    ensures ToBytes(FromBytes(s), |s|) == s
  {
    if s != [] {
      var v, rest := FromBytes(s), FromBytes(s[1..]);
      ToFromBytes(s[1..]);
      assert v % 256 == s[0] && v / 256 == rest;
      assert ToBytes(v, |s|) == [s[0]] + ToBytes(rest, |s[1..]|);
    }
  }

  lemma WordBytes(v: nat)
    requires v < WORD
    ensures FromBytes(ToBytes(v, 8)) == v
  {
    Pow256Values();
    FromToBytes(v, 8);
  }

  /** Two words with the same eight bytes are equal. */
  lemma SameBytes(v: nat, w: nat)
    requires v < WORD && w < WORD
    requires forall k :: 0 <= k < 8 ==> ToBytes(v, 8)[k] == ToBytes(w, 8)[k]
    ensures v == w
  {
    WordBytes(v);
    WordBytes(w);
    assert ToBytes(v, 8) == ToBytes(w, 8);
  }
}
