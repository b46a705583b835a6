/**
  Arithmetic of GF(256) with the reduction polynomial 0x11d, as used by the parity code.

  `Times` is the eight-step shift-and-add product; `GfMul`, `GfPow` and `GfInv` are the loops of the source.
  The lemmas establish the field laws and that the 254th power is the multiplicative inverse.
*/
module GaloisField {
  import opened Words
  import opened Common

  /** Multiplication by the polynomial x: shift left in eight bits, reduce when the high bit was set. */
  function XTime(a: Byte): Byte {
    if a >= 128 then
      XorByte((2 * a) % 256, 0x1d);
      Xor((2 * a) % 256, 0x1d)
    else
      2 * a
  }

  /** `a` if the lowest bit of `b` is set, otherwise zero. */
  function Sel(b: Byte, a: Byte): Byte {
    if b % 2 == 1 then a else 0
  }

  /** Shift-and-add product. */
  function Times(a: Byte, b: Byte): Byte
    decreases b, a
  {
    if b == 0 then 0 else
      var rest := Times(XTime(a), b / 2);
      XorByte(Sel(b, a), rest);
      Xor(Sel(b, a), rest)
  }

  function Power(a: Byte, n: nat): Byte
    decreases n, a
  {
    if n == 0 then 1 else Times(a, Power(a, n - 1))
  }

  // ---------- the loops of the source ----------

  method ShiftReduce(a: Byte) returns (r: Byte)
    ensures r == XTime(a)
  {
    var hi := a >= 128;
    r := (2 * a) % 256;
    if hi {
      XorByte(r, 0x1d);
      r := Xor(r, 0x1d);
    }
  }

  method GfMul(a0: Byte, b0: Byte) returns (p: Byte)
    ensures p == Times(a0, b0)
  {
    var a: Byte, b: Byte := a0, b0;
    p := 0;
    Pow2Byte();
    XorZero(Times(a, b));
    for i := 0 to 8
      invariant b < Pow2(8 - i)
      invariant Times(a0, b0) == Xor(p, Times(a, b))
    {
      TimesAccumulates(a, b, p);
      XorByte(p, a);
      if b % 2 == 1 {
        p := Xor(p, a);
      }
      a := ShiftReduce(a);
      b := b / 2;
    }
    XorZero(p);
  }

  method GfPow(a0: Byte, n0: nat) returns (r: Byte)
    ensures r == Power(a0, n0)
  {
    var a, n := a0, n0;
    r := 1;
    TimesOne(Power(a, n));
    while n > 0
      invariant Times(r, Power(a, n)) == Power(a0, n0)
    {
      PowerHalves(r, a, n);
      if n % 2 == 1 {
        r := GfMul(r, a);
      }
      a := GfMul(a, a);
      n := n / 2;
    }
    TimesOne(r);
  }

  /** Zero has no inverse. */
  method GfInv(a: Byte) returns (r: Result<Byte>)
    ensures a == 0 ==> r == Err("GF(256) inverse of zero")
    ensures a != 0 ==> r == Ok(Inverse(a)) && Times(a, r.value) == 1
  {
    if a == 0 {
      return Err("GF(256) inverse of zero");
    }
    var inverse := GfPow(a, 254);
    InverseLaw(a);
    r := Ok(inverse);
  }

  function Inverse(a: Byte): Byte {
    Power(a, 254)
  }

  // ---------- multiplication by x is linear ----------

  lemma XorStep(a: nat, b: nat, x: nat, y: nat, c: nat, d: nat)
    requires a == 2 * x + c && b == 2 * y + d && c < 2 && d < 2
    ensures Xor(a, b) == 2 * Xor(x, y) + (if c == d then 0 else 1)
  {
    XorUnfold(a, b);
    assert a / 2 == x && b / 2 == y;
  }

  lemma {:induction false} XorHighBit(x: nat, y: nat, n: nat)
    requires x < Pow2(n) && y < Pow2(n)
    ensures Xor(Pow2(n) + x, y) == Pow2(n) + Xor(x, y)
    decreases n
  {
    if n != 0 {
      var p := Pow2(n - 1);
      XorHighBit(x / 2, y / 2, n - 1);
      XorHighBitStep(x, y, p);
    }
  }

  lemma XorHighBitStep(x: nat, y: nat, p: nat)
    requires Xor(p + x / 2, y / 2) == p + Xor(x / 2, y / 2)
    ensures Xor(2 * p + x, y) == 2 * p + Xor(x, y)
  {
    XorStep(2 * p + x, y, p + x / 2, y / 2, x % 2, y % 2);
    XorStep(x, y, x / 2, y / 2, x % 2, y % 2);
  }

  lemma XorHighBits(x: nat, y: nat, n: nat)
    requires x < Pow2(n) && y < Pow2(n)
    ensures Xor(Pow2(n) + x, Pow2(n) + y) == Xor(x, y)
  {
    HighBitIsXor(x, n);
    HighBitIsXor(y, n);
    CancelCommon(Pow2(n), x, y);
  }

  lemma HighBitIsXor(x: nat, n: nat)
    requires x < Pow2(n)
    ensures Xor(Pow2(n), x) == Pow2(n) + x
  {
    XorHighBit(0, x, n);
    XorZero(x);
  }

  lemma CancelCommon(p: nat, x: nat, y: nat)
    ensures Xor(Xor(p, x), Xor(p, y)) == Xor(x, y)
  {
    XorExchange(p, x, p, y);
    XorSelf(p);
    XorZero(Xor(x, y));
  }

  /** What reduction adds to the doubled byte, seen in nine bits. */
  function Reduction(a: Byte): nat {
    if a >= 128 then 0x11d else 0
  }

  lemma XTimeNineBits(a: Byte)
    ensures XTime(a) == Xor(2 * a, Reduction(a))
  {
    XorZero(2 * a);
    if a >= 128 {
      Pow2Byte();
      XorHighBits(2 * a - 256, 0x1d, 8);
    }
  }

  lemma XorHighHalf(a: Byte, b: Byte)
    requires a >= 128
    ensures Xor(a, b) < 256
    ensures Xor(a, b) >= 128 <==> b < 128
  {
    assert Pow2(7) == 128 by {
      assert Pow2(4) == 16;
    }
    if b < 128 {
      XorHighBit(a - 128, b, 7);
      XorBound(a - 128, b, 7);
    } else {
      XorHighBits(a - 128, b - 128, 7);
      XorBound(a - 128, b - 128, 7);
    }
  }

  lemma ReductionXor(a: Byte, b: Byte)
    ensures Xor(a, b) < 256
    ensures Reduction(Xor(a, b)) == Xor(Reduction(a), Reduction(b))
  {
    XorSelf(0x11d);
    XorZero(0x11d);
    XorZero(0);
    if a >= 128 {
      XorHighHalf(a, b);
    } else if b >= 128 {
      XorHighHalf(b, a);
      XorCommutes(a, b);
    } else {
      assert Pow2(7) == 128 by {
        assert Pow2(4) == 16;
      }
      XorBound(a, b, 7);
    }
  }

  lemma XTimeXor(a: Byte, b: Byte)
    ensures Xor(a, b) < 256
    ensures XTime(Xor(a, b)) == Xor(XTime(a), XTime(b))
  {
    ReductionXor(a, b);
    XTimeNineBits(a);
    XTimeNineBits(b);
    XTimeNineBits(Xor(a, b));
    XorStep(2 * a, 2 * b, a, b, 0, 0);
    XorExchange(2 * a, 2 * b, Reduction(a), Reduction(b));
  }

  // ---------- the product is linear in both operands ----------

  lemma {:induction false} TimesZero(a: Byte)
    ensures Times(a, 0) == 0 && Times(0, a) == 0
  {
    if a != 0 {
      TimesZero(a / 2);
    }
  }

  lemma {:induction false} DistributesLeft(a: Byte, b: Byte, c: Byte)
    ensures Xor(a, b) < 256
    ensures Times(Xor(a, b), c) == Xor(Times(a, c), Times(b, c))
    decreases c
  {
    XTimeXor(a, b);
    if c != 0 {
      var x, y, d := XTime(a), XTime(b), c / 2;
      DistributesLeft(x, y, d);
      XorExchange(Sel(c, a), Sel(c, b), Times(x, d), Times(y, d));
    }
  }

  lemma {:induction false} TimesXTime(a: Byte, b: Byte)
    ensures Times(XTime(a), b) == XTime(Times(a, b))
    decreases b
  {
    if b != 0 {
      XTimeXor(Sel(b, a), Times(XTime(a), b / 2));
      TimesXTime(XTime(a), b / 2);
    }
  }

  /** One round of the shift-and-add loop. */
  lemma TimesAccumulates(a: Byte, b: Byte, p: Byte)
    ensures Xor(p, Times(a, b)) == Xor(if b % 2 == 1 then Xor(p, a) else p, Times(XTime(a), b / 2))
  {
    if b == 0 {
      TimesZero(XTime(a));
    } else {
      XorAssociates(p, Sel(b, a), Times(XTime(a), b / 2));
      XorZero(p);
    }
  }

  /** Horner step: the product splits off the lowest bit of its right operand. */
  lemma TimesStep(a: Byte, b: Byte)
    ensures Times(a, b) == Xor(Sel(b, a), XTime(Times(a, b / 2)))
  {
    if b != 0 {
      TimesXTime(a, b / 2);
    }
  }

  /** A byte is its lowest bit plus x times the rest. */
  lemma LowBit(b: Byte)
    ensures b == Xor(b % 2, XTime(b / 2))
  {
    XorStep(b % 2, 2 * (b / 2), 0, b / 2, b % 2, 0);
    XorZero(b / 2);
  }

  lemma {:induction false} OneLeft(a: Byte)
    ensures Times(1, a) == a
  {
    if a != 0 {
      OneLeft(a / 2);
      TimesStep(1, a);
      LowBit(a);
    }
  }

  lemma TimesOne(a: Byte)
    ensures Times(1, a) == a && Times(a, 1) == a
  {
    OneLeft(a);
    TimesStep(a, 1);
    TimesZero(a);
    XorZero(a);
  }

  // ---------- ring laws ----------

  lemma {:induction false} TimesCommutes(a: Byte, b: Byte)
    ensures Times(a, b) == Times(b, a)
    decreases b
  {
    TimesZero(a);
    if b != 0 {
      var d := b / 2;
      TimesCommutes(a, d);
      TimesStep(a, b);
      LowBit(b);
      DistributesLeft(b % 2, XTime(d), a);
      TimesXTime(d, a);
      TimesOne(a);
    }
  }

  lemma DistributesRight(a: Byte, b: Byte, c: Byte)
    ensures Xor(b, c) < 256
    ensures Times(a, Xor(b, c)) == Xor(Times(a, b), Times(a, c))
  {
    DistributesLeft(b, c, a);
    TimesCommutes(a, Xor(b, c));
    TimesCommutes(a, b);
    TimesCommutes(a, c);
  }

  lemma TimesXTimeRight(a: Byte, b: Byte)
    ensures Times(a, XTime(b)) == XTime(Times(a, b))
  {
    TimesCommutes(a, XTime(b));
    TimesCommutes(a, b);
    TimesXTime(b, a);
  }

  lemma {:induction false} TimesAssociates(a: Byte, b: Byte, c: Byte)
    ensures Times(Times(a, b), c) == Times(a, Times(b, c))
    decreases c
  {
    TimesZero(a);
    if c != 0 {
      var d := c / 2;
      TimesAssociates(a, b, d);
      TimesStep(Times(a, b), c);
      TimesStep(b, c);
      DistributesRight(a, Sel(c, b), XTime(Times(b, d)));
      TimesXTimeRight(a, Times(b, d));
    }
  }

  // ---------- powers ----------

  lemma {:induction false} PowerAdd(a: Byte, m: nat, n: nat)
    ensures Power(a, m + n) == Times(Power(a, m), Power(a, n))
    decreases m
  {
    if m == 0 {
      TimesOne(Power(a, n));
    } else {
      PowerAdd(a, m - 1, n);
      TimesAssociates(a, Power(a, m - 1), Power(a, n));
    }
  }

  lemma {:induction false} PowerSquare(a: Byte, n: nat)
    ensures Power(Times(a, a), n) == Power(a, 2 * n)
    decreases n
  {
    if n != 0 {
      PowerSquare(a, n - 1);
      TimesAssociates(a, a, Power(a, 2 * (n - 1)));
      assert Power(a, 2 * n) == Times(a, Power(a, 2 * n - 1));
      assert Power(a, 2 * n - 1) == Times(a, Power(a, 2 * n - 2));
    }
  }

  /** One round of square-and-multiply. */
  lemma PowerHalves(r: Byte, a: Byte, n: nat)
    requires n > 0
    ensures Times(r, Power(a, n)) == Times(if n % 2 == 1 then Times(r, a) else r, Power(Times(a, a), n / 2))
  {
    var h := n / 2;
    PowerSquare(a, h);
    if n % 2 == 1 {
      assert n == 2 * h + 1;
      TimesAssociates(r, a, Power(a, 2 * h));
    }
  }

  // ---------- bits ----------

  /** The bits of a field element. */
  datatype Bits = Bits(b7: bool, b6: bool, b5: bool, b4: bool, b3: bool, b2: bool, b1: bool, b0: bool)

  const NO_BITS := Bits(false, false, false, false, false, false, false, false)

  function Digit(b: bool): nat {
    if b then 1 else 0
  }

  function XorBits(x: Bits, y: Bits): Bits {
    Bits(x.b7 != y.b7, x.b6 != y.b6, x.b5 != y.b5, x.b4 != y.b4,
         x.b3 != y.b3, x.b2 != y.b2, x.b1 != y.b1, x.b0 != y.b0)
  }

  function Halved(x: Bits): Bits {
    Bits(false, x.b7, x.b6, x.b5, x.b4, x.b3, x.b2, x.b1)
  }

  function Doubled(x: Bits, low: bool): Bits {
    Bits(x.b6, x.b5, x.b4, x.b3, x.b2, x.b1, x.b0, low)
  }

  /** The number formed by the `n` lowest bits. */
  function Low(x: Bits, n: nat): nat
    decreases n, x
  {
    if n == 0 then 0 else 2 * Low(Halved(x), n - 1) + Digit(x.b0)
  }

  /** Bits `n` and above are clear. */
  predicate Narrow(x: Bits, n: nat)
    decreases n
  {
    if n == 0 then x == NO_BITS else Narrow(Halved(x), n - 1)
  }

  predicate SameLow(x: Bits, y: Bits, n: nat)
    decreases n
  {
    n == 0 || (x.b0 == y.b0 && SameLow(Halved(x), Halved(y), n - 1))
  }

  lemma {:induction false} LowBound(x: Bits, n: nat)
    ensures Low(x, n) < Pow2(n)
    decreases n
  {
    if n != 0 {
      LowBound(Halved(x), n - 1);
    }
  }

  lemma {:induction false} LowPad(x: Bits, n: nat)
    requires Narrow(x, n)
    ensures Low(x, n + 1) == Low(x, n)
    decreases n
  {
    if n != 0 {
      LowPad(Halved(x), n - 1);
    }
  }

  /** `z` is the exclusive or of `x` and `y` on the `n` lowest bits. */
  predicate XorLow(x: Bits, y: Bits, z: Bits, n: nat)
    decreases n
  {
    n == 0 || (z.b0 == (x.b0 != y.b0) && XorLow(Halved(x), Halved(y), Halved(z), n - 1))
  }

  lemma {:induction false} LowXor(x: Bits, y: Bits, z: Bits, n: nat)
    requires XorLow(x, y, z, n)
    ensures Xor(Low(x, n), Low(y, n)) == Low(z, n)
    decreases n
  {
    if n != 0 {
      var hx, hy, hz := Halved(x), Halved(y), Halved(z);
      LowXor(hx, hy, hz, n - 1);
      XorStep(Low(x, n), Low(y, n), Low(hx, n - 1), Low(hy, n - 1), Digit(x.b0), Digit(y.b0));
    }
  }

  lemma {:induction false} LowInjective(x: Bits, y: Bits, n: nat)
    requires Low(x, n) == Low(y, n)
    ensures SameLow(x, y, n)
    decreases n
  {
    if n != 0 {
      LowInjective(Halved(x), Halved(y), n - 1);
    }
  }

  lemma {:induction false} LowOf(v: nat, n: nat) returns (x: Bits)
    requires v < Pow2(n) && n <= 8
    ensures Low(x, n) == v && Narrow(x, n)
    decreases n
  {
    if n == 0 {
      x := NO_BITS;
    } else {
      var h := LowOf(v / 2, n - 1);
      x := Doubled(h, v % 2 == 1);
      NarrowTop(h, n - 1);
      assert Halved(x) == h;
    }
  }

  lemma {:induction false} NarrowTop(x: Bits, n: nat)
    requires n <= 7 && Narrow(x, n)
    ensures !x.b7
    ensures n <= 6 ==> !x.b6
    ensures n <= 5 ==> !x.b5
    ensures n <= 4 ==> !x.b4
    ensures n <= 3 ==> !x.b3
    ensures n <= 2 ==> !x.b2
    ensures n <= 1 ==> !x.b1
    decreases n
  {
    if n != 0 {
      NarrowTop(Halved(x), n - 1);
    }
  }

  function Value(x: Bits): Byte {
    LowBound(x, 8);
    Pow2Byte();
    Low(x, 8)
  }

  lemma BitsOf(v: Byte) returns (x: Bits)
    ensures Value(x) == v
  {
    Pow2Byte();
    x := LowOf(v, 8);
  }

  lemma ValueInjective(x: Bits, y: Bits)
    requires Value(x) == Value(y)
    ensures x == y
  {
    LowInjective(x, y, 8);
  }

  lemma HalvedXor(x: Bits, y: Bits, z: Bits)
    requires z == XorBits(x, y)
    ensures Halved(z) == XorBits(Halved(x), Halved(y)) && z.b0 == (x.b0 != y.b0)
  {}

  lemma {:induction false} XorLowBits(x: Bits, y: Bits, z: Bits, n: nat)
    requires z == XorBits(x, y)
    ensures XorLow(x, y, z, n)
    decreases n
  {
    if n != 0 {
      HalvedXor(x, y, z);
      var hx, hy, hz := Halved(x), Halved(y), Halved(z);
      XorLowBits(hx, hy, hz, n - 1);
    }
  }

  lemma XorValue(x: Bits, y: Bits, z: Bits)
    requires z == XorBits(x, y)
    ensures Xor(Value(x), Value(y)) == Value(z)
  {
    XorLowBits(x, y, z, 8);
    LowXor(x, y, z, 8);
  }

  lemma HalvedValue(x: Bits)
    ensures Value(x) == 2 * Value(Halved(x)) + Digit(x.b0)
  {
    LowPad(Halved(x), 7);
  }

  lemma DoubledValue(x: Bits)
    requires !x.b7
    ensures Value(x) < 128 && Value(Doubled(x, false)) == 2 * Value(x)
  {
    assert Halved(Doubled(x, false)) == x;
    HalvedValue(Doubled(x, false));
  }

  // ---------- squaring, written on bits ----------

  /** x times an element, on bits. */
  function XTimeBits(x: Bits): Bits {
    Bits(x.b6, x.b5, x.b4, x.b3 != x.b7, x.b2 != x.b7, x.b1 != x.b7, x.b0, x.b7)
  }

  /** The square of an element, on bits: a linear map. */
  function SquareBits(x: Bits): Bits {
    Bits(x.b6, (x.b3 != x.b5) != x.b6, x.b5, ((x.b2 != x.b4) != x.b5) != x.b7,
         x.b4 != x.b6, ((x.b1 != x.b4) != x.b5) != x.b6, x.b7, ((x.b0 != x.b4) != x.b6) != x.b7)
  }

  const TOP_BIT := Bits(true, false, false, false, false, false, false, false)

  const LOW_POLYNOMIAL := Bits(false, false, false, true, true, true, false, true)

  lemma ConstantValues()
    ensures Value(NO_BITS) == 0
    ensures Value(TOP_BIT) == 128
    ensures Value(LOW_POLYNOMIAL) == 0x1d
  {
    assert Low(NO_BITS, 4) == 0;
    assert Low(NO_BITS.(b3 := true), 4) == 8;
  }

  lemma XTimeValue(x: Bits)
    ensures XTime(Value(x)) == Value(XTimeBits(x))
  {
    var y := x.(b7 := false);
    DoubledValue(y);
    if x.b7 {
      XTimeHigh(x, y);
    } else {
      assert XTimeBits(x) == Doubled(y, false);
    }
  }

  lemma XTimeHigh(x: Bits, y: Bits)
    requires y == x.(b7 := false) && x.b7
    ensures XTime(Value(x)) == Value(XTimeBits(x))
  {
    var d, z := Doubled(y, false), XTimeBits(x);
    HighParts(x, y, d, z);
    DoubledValue(y);
    XorValue(y, TOP_BIT, x);
    XorValue(d, LOW_POLYNOMIAL, z);
    ConstantValues();
    XTimeXor(Value(y), 128);
    XorZero(0x1d);
  }

  lemma HighParts(x: Bits, y: Bits, d: Bits, z: Bits)
    requires y == x.(b7 := false) && x.b7 && d == Doubled(y, false) && z == XTimeBits(x)
    ensures x == XorBits(y, TOP_BIT) && z == XorBits(d, LOW_POLYNOMIAL)
  {}

  /** Horner step for squares: cross terms cancel. */
  lemma SquareStep(e: Byte)
    ensures Times(e, e) == Xor(e % 2, XTime(XTime(Times(e / 2, e / 2))))
  {
    var l, d := e % 2, e / 2;
    var x := XTime(d);
    LowBit(e);
    DistributesLeft(l, x, e);
    DistributesRight(l, l, x);
    DistributesRight(x, l, x);
    TimesCommutes(l, x);
    TimesXTime(d, x);
    TimesXTimeRight(d, d);
    assert Times(l, l) == l by {
      TimesOne(l);
      TimesZero(l);
    }
    var cross := Times(l, x);
    XorExchange(l, cross, cross, Times(x, x));
    XorCommutes(cross, Times(x, x));
    XorAssociates(l, cross, Xor(cross, Times(x, x)));
    XorAssociates(cross, cross, Times(x, x));
    XorSelf(cross);
  }

  function LowestBit(x: Bits): Bits {
    NO_BITS.(b0 := x.b0)
  }

  lemma SquareBitsStep(x: Bits)
    ensures SquareBits(x) == XorBits(LowestBit(x), XTimeBits(XTimeBits(SquareBits(Halved(x)))))
  {}

  lemma LowestBitValue(x: Bits)
    ensures Value(LowestBit(x)) == Digit(x.b0)
  {
    ConstantValues();
    HalvedValue(LowestBit(x));
    assert Halved(LowestBit(x)) == NO_BITS;
  }

  lemma SquareValueStep(x: Bits, q: Bits)
    requires q == SquareBits(Halved(x))
    ensures Xor(Digit(x.b0), XTime(XTime(Value(q)))) == Value(SquareBits(x))
  {
    SquareBitsStep(x);
    LowestBitValue(x);
    XTimeValue(q);
    XTimeValue(XTimeBits(q));
    XorValue(LowestBit(x), XTimeBits(XTimeBits(q)), SquareBits(x));
  }

  lemma SquareValueHalf(x: Bits, v: Byte, w: Byte, q: Bits, r: Bits)
    requires v == Value(x) == 2 * w + Digit(x.b0)
    requires q == SquareBits(Halved(x)) && Times(w, w) == Value(q)
    requires r == SquareBits(x)
    ensures Times(v, v) == Value(r)
  {
    SquareStep(v);
    assert v / 2 == w && v % 2 == Digit(x.b0);
    SquareValueStep(x, q);
  }

  lemma SquareValueZero(x: Bits, r: Bits)
    requires Value(x) == 0 && r == SquareBits(x)
    ensures Times(Value(x), Value(x)) == Value(r)
  {
    ConstantValues();
    ValueInjective(x, NO_BITS);
    assert r == NO_BITS;
    TimesZero(0);
  }

  lemma {:induction false} SquareValueBits(x: Bits, r: Bits, n: nat)
    requires Value(x) < Pow2(n) && r == SquareBits(x)
    ensures Times(Value(x), Value(x)) == Value(r)
    decreases n
  {
    if n == 0 {
      SquareValueZero(x, r);
    } else {
      var h := Halved(x);
      var q := SquareBits(h);
      HalvedValue(x);
      SquareValueBits(h, q, n - 1);
      SquareValueHalf(x, Value(x), Value(h), q, r);
    }
  }

  lemma SquareValue(x: Bits, r: Bits)
    requires r == SquareBits(x)
    ensures Times(Value(x), Value(x)) == Value(r)
  {
    Pow2Byte();
    SquareValueBits(x, r, 8);
  }

  // ---------- the inverse ----------

  function Square2(x: Bits): Bits { SquareBits(SquareBits(x)) }

  function Square4(x: Bits): Bits { Square2(Square2(x)) }

  /** Squaring eight times is the identity, since the map is linear and fixes the basis. */
  lemma SquareEightTimes(x: Bits)
    ensures Square4(Square4(x)) == x
  {
  }

  lemma PowerSquareValue(x: Bits, n: nat)
    ensures Power(Value(x), 2 * n) == Power(Value(SquareBits(x)), n)
  {
    PowerSquare(Value(x), n);
    SquareValue(x, SquareBits(x));
  }

  /** The field has 256 elements: raising to that power changes nothing. */
  lemma Frobenius(a: Byte)
    ensures Power(a, 256) == a
  {
    var x0 := BitsOf(a);
    var x1 := SquareBits(x0);
    var x2 := SquareBits(x1);
    var x3 := SquareBits(x2);
    var x4 := SquareBits(x3);
    var x5 := SquareBits(x4);
    var x6 := SquareBits(x5);
    var x7 := SquareBits(x6);
    PowerSquareValue(x0, 128);
    PowerSquareValue(x1, 64);
    PowerSquareValue(x2, 32);
    PowerSquareValue(x3, 16);
    PowerSquareValue(x4, 8);
    PowerSquareValue(x5, 4);
    PowerSquareValue(x6, 2);
    PowerSquareValue(x7, 1);
    SquareEightTimes(x0);
    TimesOne(a);
    assert Power(a, 1) == Times(a, Power(a, 0));
  }

  /** Only zero and one are their own squares. */
  lemma Idempotent(a: Byte)
    requires Times(a, a) == a
    ensures a == 0 || a == 1
  {
    var x := BitsOf(a);
    SquareValue(x, SquareBits(x));
    ValueInjective(x, SquareBits(x));
    IdempotentBits(x);
    LowestBitValue(x);
  }

  lemma IdempotentBits(x: Bits)
    requires SquareBits(x) == x
    ensures x == LowestBit(x)
  {}

  /** Every non-zero element has its 254th power as inverse. */
  lemma InverseLaw(a: Byte)
    requires a != 0
    ensures Times(a, Inverse(a)) == 1 && Times(Inverse(a), a) == 1
  {
    var e := Power(a, 255);
    Frobenius(a);
    assert Times(e, e) == e by {
      PowerAdd(a, 255, 255);
      PowerAdd(a, 256, 254);
      assert Power(a, 255) == Times(a, Power(a, 254));
    }
    Idempotent(e);
    assert Power(a, 256) == Times(a, e);
    TimesZero(a);
    assert e == Times(a, Power(a, 254));
    TimesCommutes(a, Inverse(a));
  }
}
