/**
  The running baseline of change vectors, which learns only from samples that are consistent with it.
*/
module StructuralBaseline {
  import opened Moments

  datatype ChangeVector = ChangeVector(extent: real, intensity: real)

  datatype Update = Update(deviation: ChangeVector, accepted: bool)

  /** Square roots are not modelled; this is all that is needed of them. */
  ghost predicate IsSqrt(sqrt: real -> real) {
    forall x :: x >= 0.0 ==> sqrt(x) >= 0.0 && Square(sqrt(x)) == x
  }

  /** The distance from the mean in standard deviations, or the plain distance when there is no spread. */
  function Distance(sqrt: real -> real, n: nat, mean: real, m2: real, x: real): real
    requires n >= 2
  {
    var s := sqrt(m2 / (n - 1) as real);
    if s > 0.0 then Abs(x - mean) / s else Abs(x - mean)
  }

  /** Within `limit` deviations, said without roots: by the variance, or by the distance if there is none. */
  ghost predicate Consistent(xs: seq<real>, mean: real, x: real, limit: real)
    requires |xs| >= 2
  {
    var variance := SquaredDeviations(xs, mean) / (|xs| - 1) as real;
    if variance > 0.0 then limit >= 0.0 && Square(x - mean) <= Square(limit) * variance
    else Abs(x - mean) <= limit
  }

  lemma SquareOrder(a: real, b: real)
    requires a >= 0.0 && b >= 0.0
    ensures a <= b <==> Square(a) <= Square(b)
  {
    if a <= b {
      SquareMonotone(a, b);
    } else {
      SquareStrict(b, a);
    }
  }

  lemma SquareMonotone(a: real, b: real)
    requires 0.0 <= a <= b
    ensures Square(a) <= Square(b)
  {
    ProductNotNegative(b - a, a);
    ProductNotNegative(b - a, b);
    assert (b - a) * a + (b - a) * b == b * b - a * a;
  }

  lemma SquareStrict(a: real, b: real)
    requires 0.0 <= a < b
    ensures Square(a) < Square(b)
  {
    ProductNotNegative(b - a, a);
    ProductPositive(b - a, b);
    assert (b - a) * a + (b - a) * b == b * b - a * a;
  }

  lemma DivideLimit(a: real, s: real, limit: real)
    requires s > 0.0
    ensures a / s <= limit <==> a <= limit * s
  {
    var q := a / s;
    assert q * s == a;
    if q <= limit {
      assert (limit - q) * s >= 0.0;
    } else {
      assert (q - limit) * s > 0.0;
    }
  }

  lemma SquareOfProduct(a: real, b: real)
    ensures Square(a * b) == Square(a) * Square(b)
  {}

  lemma DistanceIsConsistency(sqrt: real -> real, xs: seq<real>, mean: real, m2: real, x: real, limit: real)
    requires IsSqrt(sqrt) && |xs| >= 2 && m2 == SquaredDeviations(xs, mean)
    ensures Distance(sqrt, |xs|, mean, m2, x) <= limit <==> Consistent(xs, mean, x, limit)
  {
    var variance := m2 / (|xs| - 1) as real;
    DeviationsNotNegative(xs, mean);
    assert variance >= 0.0;
    var s, a := sqrt(variance), Abs(x - mean);
    assert s >= 0.0 && Square(s) == variance;
    assert Square(a) == Square(x - mean);
    if s > 0.0 {
      DivideLimit(a, s, limit);
      LimitProduct(a, s, limit, variance);
    }
  }

  lemma LimitProduct(a: real, s: real, limit: real, variance: real)
    requires a >= 0.0 && s > 0.0 && Square(s) == variance
    ensures variance > 0.0
    ensures a <= limit * s <==> limit >= 0.0 && Square(a) <= Square(limit) * variance
  {
    SquareStrict(0.0, s);
    if limit >= 0.0 {
      ProductNotNegative(limit, s);
      SquareOrder(a, limit * s);
      SquareOfProduct(limit, s);
    } else {
      NegativeProduct(limit, s);
    }
  }

  lemma NegativeProduct(a: real, b: real)
    requires a < 0.0 < b
    ensures a * b < 0.0
  {
    ProductPositive(-a, b);
  }

  class Baseline {
    const sqrt: real -> real
    var samples: nat
    var meanExtent: real
    var meanIntensity: real
    var m2Extent: real
    var m2Intensity: real
    ghost var extents: seq<real>
    ghost var intensities: seq<real>

    /** The state is the exact mean and squared deviation of the samples learned from. */
    ghost predicate Valid()
      reads this
    {
      && IsSqrt(sqrt) && samples == |extents| == |intensities|
      && AreMoments(extents, meanExtent, m2Extent) && AreMoments(intensities, meanIntensity, m2Intensity)
    }

    constructor (sqrt: real -> real)
      requires IsSqrt(sqrt)
      ensures Valid() && extents == [] && intensities == []
    {
      this.sqrt := sqrt;
      samples, meanExtent, meanIntensity, m2Extent, m2Intensity := 0, 0.0, 0.0, 0.0, 0.0;
      extents, intensities := [], [];
    }

    method Observe(v: ChangeVector)
      requires Valid()
      modifies this
      ensures Valid()
      ensures extents == old(extents) + [v.extent] && intensities == old(intensities) + [v.intensity]
    {
      MomentsStep(extents, meanExtent, m2Extent, v.extent);
      MomentsStep(intensities, meanIntensity, m2Intensity, v.intensity);
      meanExtent, m2Extent := NextMean(samples, meanExtent, v.extent), NextM2(samples, meanExtent, m2Extent, v.extent);
      meanIntensity, m2Intensity :=
        NextMean(samples, meanIntensity, v.intensity), NextM2(samples, meanIntensity, m2Intensity, v.intensity);
      samples := samples + 1;
      extents, intensities := extents + [v.extent], intensities + [v.intensity];
    }

    function Deviation(v: ChangeVector): ChangeVector
      reads this
    {
      if samples < 2 then ChangeVector(0.0, 0.0)
      else ChangeVector(Distance(sqrt, samples, meanExtent, m2Extent, v.extent),
                        Distance(sqrt, samples, meanIntensity, m2Intensity, v.intensity))
    }

    /** A sample is learned exactly if the baseline is not warm yet or both components are consistent with it. */
    method ObserveIfConsistent(v: ChangeVector, limit: real) returns (u: Update)
      requires Valid()
      modifies this
      ensures Valid()
      ensures u.deviation == old(Deviation(v))
      ensures u.accepted <==>
        |old(extents)| < 2
        || (Consistent(old(extents), old(meanExtent), v.extent, limit)
            && Consistent(old(intensities), old(meanIntensity), v.intensity, limit))
      ensures extents == if u.accepted then old(extents) + [v.extent] else old(extents)
      ensures intensities == if u.accepted then old(intensities) + [v.intensity] else old(intensities)
      ensures !u.accepted ==> meanExtent == old(meanExtent) && meanIntensity == old(meanIntensity)
    {
      var d := Deviation(v);
      var warm := samples >= 2;
      if warm {
        DistanceIsConsistency(sqrt, extents, meanExtent, m2Extent, v.extent, limit);
        DistanceIsConsistency(sqrt, intensities, meanIntensity, m2Intensity, v.intensity, limit);
      }
      var accepted := !warm || (d.extent <= limit && d.intensity <= limit);
      if accepted {
        Observe(v);
      }
      u := Update(d, accepted);
    }
  }
}
