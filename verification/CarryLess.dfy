/**
  What the shift-and-add product is: the remainder of the carry-less product of two bytes by the polynomial 0x11d.
*/
module CarryLess {
  import opened Words
  import opened GaloisField

  const POLYNOMIAL: nat := 0x11d

  /** Lowest bit of `b` times `a`. */
  function Term(a: nat, b: nat): nat {
    if b % 2 == 1 then a else 0
  }

  /** The product of two polynomials over bits, without reduction: shifted copies of `a` added without carry. */
  function Product(a: nat, b: nat): nat
    decreases b, a
  {
    if b == 0 then 0 else Xor(Term(a, b), Product(2 * a, b / 2))
  }

  /** A multiple of the reduction polynomial. */
  ghost predicate IsMultiple(z: nat) {
    exists q: nat :: Product(POLYNOMIAL, q) == z
  }

  /** Two polynomials with the same remainder. */
  ghost predicate Congruent(x: nat, y: nat) {
    IsMultiple(Xor(x, y))
  }

  // ---------- the product is linear in both factors ----------

  lemma ProductUnfold(a: nat, b: nat)
    ensures Product(a, b) == Xor(Term(a, b), Product(2 * a, b / 2))
  {
    if b == 0 {
      assert Product(2 * a, b / 2) == 0;
      XorZero(0);
    }
  }

  lemma XorDouble(x: nat, y: nat)
    ensures Xor(2 * x, 2 * y) == 2 * Xor(x, y)
  {
    XorUnfold(2 * x, 2 * y);
    assert 2 * x / 2 == x && 2 * y / 2 == y;
  }

  lemma TermXor(x: nat, y: nat, b: nat)
    ensures Term(Xor(x, y), b) == Xor(Term(x, b), Term(y, b))
  {
    XorZero(0);
  }

  lemma {:induction false} ProductOfSum(x: nat, y: nat, b: nat)
    ensures Product(Xor(x, y), b) == Xor(Product(x, b), Product(y, b))
    decreases b
  {
    if b == 0 {
      XorZero(0);
    } else {
      ProductOfSum(2 * x, 2 * y, b / 2);
      XorDouble(x, y);
      TermXor(x, y, b);
      XorExchange(Term(x, b), Term(y, b), Product(2 * x, b / 2), Product(2 * y, b / 2));
    }
  }

  lemma {:induction false} ProductBySum(a: nat, q: nat, r: nat)
    ensures Product(a, Xor(q, r)) == Xor(Product(a, q), Product(a, r))
    decreases q + r
  {
    if q == 0 || r == 0 {
      XorZero(q);
      XorZero(r);
      XorZero(Product(a, q));
      XorZero(Product(a, r));
    } else {
      ProductBySum(2 * a, q / 2, r / 2);
      XorUnfold(q, r);
      ProductUnfold(a, Xor(q, r));
      TermBySum(a, q, r);
      XorExchange(Term(a, q), Term(a, r), Product(2 * a, q / 2), Product(2 * a, r / 2));
    }
  }

  lemma TermBySum(a: nat, q: nat, r: nat)
    ensures Term(a, Xor(q, r)) == Xor(Term(a, q), Term(a, r))
  {
    XorUnfold(q, r);
    XorZero(a);
    XorZero(0);
    XorSelf(a);
  }

  lemma {:induction false} ProductDouble(a: nat, q: nat)
    ensures Product(2 * a, q) == 2 * Product(a, q)
    decreases q
  {
    if q != 0 {
      ProductDouble(2 * a, q / 2);
      XorDouble(Term(a, q), Product(2 * a, q / 2));
    }
  }

  // ---------- multiples of the polynomial ----------

  lemma MultipleOf(q: nat)
    ensures IsMultiple(Product(POLYNOMIAL, q))
  {}

  lemma ZeroIsMultiple()
    ensures IsMultiple(0)
  {
    MultipleOf(0);
  }

  lemma MultiplesAdd(y: nat, z: nat)
    requires IsMultiple(y) && IsMultiple(z)
    ensures IsMultiple(Xor(y, z))
  {
    var q: nat :| Product(POLYNOMIAL, q) == y;
    var r: nat :| Product(POLYNOMIAL, r) == z;
    ProductBySum(POLYNOMIAL, q, r);
    MultipleOf(Xor(q, r));
  }

  lemma MultipleShifted(z: nat)
    requires IsMultiple(z)
    ensures IsMultiple(2 * z)
  {
    var q: nat :| Product(POLYNOMIAL, q) == z;
    ProductUnfold(POLYNOMIAL, 2 * q);
    XorZero(Product(2 * POLYNOMIAL, q));
    ProductDouble(POLYNOMIAL, q);
    MultipleOf(2 * q);
  }

  lemma {:induction false} MultipleTimes(z: nat, b: nat)
    requires IsMultiple(z)
    ensures IsMultiple(Product(z, b))
    decreases b
  {
    ZeroIsMultiple();
    if b != 0 {
      MultipleShifted(z);
      MultipleTimes(2 * z, b / 2);
      MultiplesAdd(Term(z, b), Product(2 * z, b / 2));
    }
  }

  /** A multiple other than zero has degree eight or more. */
  lemma {:induction false} MultipleIsLarge(q: nat)
    requires q > 0
    ensures Product(POLYNOMIAL, q) >= 256
    decreases q
  {
    ProductUnfold(POLYNOMIAL, q);
    ProductDouble(POLYNOMIAL, q / 2);
    if q == 1 {
      assert Product(2 * POLYNOMIAL, 0) == 0;
      XorZero(POLYNOMIAL);
    } else {
      MultipleIsLarge(q / 2);
      StaysLarge(Term(POLYNOMIAL, q), 2 * Product(POLYNOMIAL, q / 2));
    }
  }

  lemma StaysLarge(x: nat, y: nat)
    requires x < 512 && y >= 512
    ensures Xor(x, y) >= 512
  {
    Pow2Byte();
    assert Pow2(9) == 512;
    if Xor(x, y) < 512 {
      XorBound(x, Xor(x, y), 9);
      XorCommutes(x, y);
      XorCancel(y, x);
      XorCommutes(x, Xor(x, y));
    }
  }

  // ---------- congruence ----------

  lemma CongruentThrough(x: nat, y: nat, z: nat)
    requires Congruent(x, y) && Congruent(y, z)
    ensures Congruent(x, z)
  {
    MultiplesAdd(Xor(x, y), Xor(y, z));
    XorAssociates(x, y, Xor(y, z));
    XorAssociates(y, y, z);
    XorSelf(y);
    XorZero(z);
  }

  lemma CongruentProducts(x: nat, y: nat, b: nat)
    requires Congruent(x, y)
    ensures Congruent(Product(x, b), Product(y, b))
  {
    ProductOfSum(x, y, b);
    MultipleTimes(Xor(x, y), b);
  }

  lemma CongruentSums(t: nat, x: nat, y: nat)
    requires Congruent(x, y)
    ensures Congruent(Xor(t, x), Xor(t, y))
  {
    XorExchange(t, x, t, y);
    XorSelf(t);
    XorZero(Xor(x, y));
  }

  /** Shifting and reducing keeps the remainder. */
  lemma XTimeCongruent(a: Byte)
    ensures Congruent(2 * a, XTime(a))
  {
    if a < 128 {
      XorSelf(2 * a);
      ZeroIsMultiple();
    } else {
      var y := 2 * a - 256;
      assert 2 * a % 256 == y;
      Pow2Byte();
      XorByte(y, 0x1d);
      XorHighBit(y, Xor(y, 0x1d), 8);
      XorAssociates(y, y, 0x1d);
      XorSelf(y);
      XorZero(0x1d);
      ProductUnfold(POLYNOMIAL, 1);
      XorZero(POLYNOMIAL);
      MultipleOf(1);
    }
  }

  lemma {:induction false} TimesCongruent(a: Byte, b: Byte)
    ensures Congruent(Product(a, b), Times(a, b))
    decreases b
  {
    if b == 0 {
      XorZero(0);
      ZeroIsMultiple();
    } else {
      XTimeCongruent(a);
      CongruentProducts(2 * a, XTime(a), b / 2);
      TimesCongruent(XTime(a), b / 2);
      CongruentThrough(Product(2 * a, b / 2), Product(XTime(a), b / 2), Times(XTime(a), b / 2));
      CongruentSums(Sel(b, a), Product(2 * a, b / 2), Times(XTime(a), b / 2));
    }
  }

  lemma CongruentSymmetric(x: nat, y: nat)
    requires Congruent(x, y)
    ensures Congruent(y, x)
  {
    XorCommutes(x, y);
  }

  /** Two bytes with the same remainder are equal. */
  lemma RemainderUnique(r: Byte, s: Byte)
    requires Congruent(r, s)
    ensures r == s
  {
    var q: nat :| Product(POLYNOMIAL, q) == Xor(r, s);
    XorByte(r, s);
    if q > 0 {
      MultipleIsLarge(q);
    }
    XorSelf(s);
    XorInjective(r, s, s);
  }

  /** The field product of two bytes is the one byte congruent to their carry-less product. */
  lemma TimesIsRemainder(a: Byte, b: Byte, r: Byte)
    ensures r == Times(a, b) <==> Congruent(Product(a, b), r)
  {
    TimesCongruent(a, b);
    if Congruent(Product(a, b), r) {
      CongruentSymmetric(Product(a, b), r);
      CongruentThrough(r, Product(a, b), Times(a, b));
      RemainderUnique(r, Times(a, b));
    }
  }
}
