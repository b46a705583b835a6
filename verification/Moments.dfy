/** Running mean and sum of squared deviations, in real arithmetic. */
module Moments {

  function Sum(xs: seq<real>): real {
    if xs == [] then 0.0 else Sum(xs[..|xs| - 1]) + xs[|xs| - 1]
  }

  function Square(x: real): real {
    x * x
  }

  /** The sum of the squared distances from `c`. */
  function SquaredDeviations(xs: seq<real>, c: real): real {
    if xs == [] then 0.0 else SquaredDeviations(xs[..|xs| - 1], c) + Square(xs[|xs| - 1] - c)
  }

  /** `mean` and `m2` are the mean of the samples and the sum of their squared deviations from it. */
  ghost predicate AreMoments(xs: seq<real>, mean: real, m2: real) {
    mean * |xs| as real == Sum(xs) && m2 == SquaredDeviations(xs, mean)
  }

  /** By how much one more sample moves the mean. */
  function Width(n: nat, mean: real, x: real): real {
    (x - mean) / (n + 1) as real
  }

  function NextMean(n: nat, mean: real, x: real): real {
    mean + Width(n, mean, x)
  }

  function NextM2(n: nat, mean: real, m2: real, x: real): real {
    m2 + (x - mean) * (x - NextMean(n, mean, x))
  }

  // ---------- arithmetic ----------

  function Abs(x: real): real {
    if x < 0.0 then -x else x
  }

  lemma Distribute(a: real, b: real, c: real)
    ensures a * (b + c) == a * b + a * c
  {}

  lemma SquareOfDifference(a: real, b: real)
    ensures Square(a - b) == Square(a) - 2.0 * (b * a) + Square(b)
  {}

  lemma ProductNotNegative(a: real, b: real)
    requires a >= 0.0 && b >= 0.0
    ensures a * b >= 0.0
  {}

  lemma ProductPositive(a: real, b: real)
    requires a > 0.0 && b > 0.0
    ensures a * b > 0.0
  {}

  lemma SquareNotNegative(x: real)
    ensures Square(x) >= 0.0
  {
    if x >= 0.0 {
      ProductNotNegative(x, x);
    } else {
      ProductNotNegative(-x, -x);
      assert -x * -x == x * x;
    }
  }

  // ---------- the moments ----------

  /** What moving the center from c to c + d adds to the squared deviations of `n` samples. */
  function Shifted(n: real, sum: real, c: real, d: real): real {
    n * Square(d) - 2.0 * (d * (sum - n * c))
  }

  lemma {:induction false} Shift(xs: seq<real>, c: real, d: real)
    ensures SquaredDeviations(xs, c + d) == SquaredDeviations(xs, c) + Shifted(|xs| as real, Sum(xs), c, d)
  {
    if xs == [] {
      ShiftNone(c, d);
    } else {
      var front, x := xs[..|xs| - 1], xs[|xs| - 1];
      Shift(front, c, d);
      ShiftStep(Sum(front), |front| as real, x, c, d);
      assert |xs| as real == |front| as real + 1.0;
    }
  }

  lemma ShiftNone(c: real, d: real)
    ensures Shifted(0.0, 0.0, c, d) == 0.0
  {
    assert 0.0 * c == 0.0;
    assert d * 0.0 == 0.0;
    assert 0.0 * Square(d) == 0.0;
  }

  lemma ShiftStep(sum: real, n: real, x: real, c: real, d: real)
    ensures Square(x - (c + d)) + Shifted(n, sum, c, d) == Square(x - c) + Shifted(n + 1.0, sum + x, c, d)
  {
    var p, u := sum - n * c, x - c;
    Distribute(c, n, 1.0);
    assert sum + x - (n + 1.0) * c == p + u;
    Distribute(d, p, u);
    SquareOfDifference(u, d);
    assert x - (c + d) == u - d;
    Distribute(Square(d), n, 1.0);
  }

  /** One more sample keeps both moments exact. */
  lemma MomentsStep(xs: seq<real>, mean: real, m2: real, x: real)
    requires AreMoments(xs, mean, m2)
    ensures AreMoments(xs + [x], NextMean(|xs|, mean, x), NextM2(|xs|, mean, m2, x))
  {
    MeanOfAll(xs, mean, x);
    M2OfAll(xs, mean, m2, x);
  }

  lemma MeanOfAll(xs: seq<real>, mean: real, x: real)
    requires mean * |xs| as real == Sum(xs)
    ensures NextMean(|xs|, mean, x) * |xs + [x]| as real == Sum(xs + [x])
  {
    Appended(xs, x, mean);
    MeanStep(|xs|, |xs + [x]|, mean, Sum(xs), x);
  }

  lemma M2OfAll(xs: seq<real>, mean: real, m2: real, x: real)
    requires mean * |xs| as real == Sum(xs) && m2 == SquaredDeviations(xs, mean)
    ensures NextM2(|xs|, mean, m2, x) == SquaredDeviations(xs + [x], NextMean(|xs|, mean, x))
  {
    Appended(xs, x, NextMean(|xs|, mean, x));
    ShiftFromMean(xs, mean, Width(|xs|, mean, x), NextMean(|xs|, mean, x));
    LastDeviation(|xs|, mean, m2, x);
  }

  lemma Appended(xs: seq<real>, x: real, c: real)
    ensures Sum(xs + [x]) == Sum(xs) + x
    ensures SquaredDeviations(xs + [x], c) == SquaredDeviations(xs, c) + Square(x - c)
  {
    assert (xs + [x])[..|xs|] == xs;
  }

  lemma MeanStep(n: nat, m: nat, mean: real, sum: real, x: real)
    requires m == n + 1 && mean * n as real == sum
    ensures NextMean(n, mean, x) * m as real == sum + x
  {
    var d := Width(n, mean, x);
    WidthBack(n, mean, x);
    Distribute(m as real, mean, d);
    Distribute(mean, n as real, 1.0);
  }

  lemma WidthBack(n: nat, mean: real, x: real)
    ensures n as real + 1.0 == (n + 1) as real
    ensures Width(n, mean, x) * (n as real + 1.0) == x - mean
  {
    DivideBack(x - mean, (n + 1) as real);
  }

  lemma DivideBack(a: real, b: real)
    requires b > 0.0
    ensures a / b * b == a
  {}

  function Spread(n: real, d: real): real {
    n * Square(d)
  }

  lemma ShiftFromMean(xs: seq<real>, mean: real, d: real, next: real)
    requires mean * |xs| as real == Sum(xs) && next == mean + d
    ensures SquaredDeviations(xs, next) == SquaredDeviations(xs, mean) + Spread(|xs| as real, d)
  {
    Shift(xs, mean, d);
    NoShift(d, Sum(xs), |xs| as real, mean);
  }

  lemma NoShift(d: real, sum: real, n: real, mean: real)
    requires mean * n == sum
    ensures Shifted(n, sum, mean, d) == Spread(n, d)
  {
    assert sum - n * mean == 0.0;
    assert d * 0.0 == 0.0;
  }

  lemma LastDeviation(n: nat, mean: real, m2: real, x: real)
    ensures NextM2(n, mean, m2, x) == m2 + Spread(n as real, Width(n, mean, x)) + Square(x - NextMean(n, mean, x))
  {
    WidthBack(n, mean, x);
    NewDeviation(n as real, mean, Width(n, mean, x), x, NextMean(n, mean, x));
  }

  lemma NewDeviation(n: real, mean: real, d: real, x: real, next: real)
    requires d * (n + 1.0) == x - mean && next == mean + d
    ensures (x - mean) * (x - next) == Spread(n, d) + Square(x - next)
  {
    var e := d * n;
    Distribute(d, n, 1.0);
    assert x - next == e && x - mean == e + d;
    Distribute(e, e, d);
    assert (e + d) * e == e * (e + d);
    assert e * d == n * (d * d);
  }

  lemma {:induction false} DeviationsNotNegative(xs: seq<real>, c: real)
    ensures SquaredDeviations(xs, c) >= 0.0
  {
    if xs != [] {
      DeviationsNotNegative(xs[..|xs| - 1], c);
      SquareNotNegative(xs[|xs| - 1] - c);
    }
  }
}
