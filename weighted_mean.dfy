/**
 * The reduction both calculators end with: accumulated points over
 * accumulated credits, or 0 when no credits were accumulated.
 */
module WeightedMean {

  /** Total points over total credits, or 0 when the total weight is not positive. */
  function Mean(points: real, credits: int): (m: real)
    ensures credits <= 0 ==> m == 0.0
    ensures credits > 0 ==> m * credits as real == points
  {
    if credits > 0 then points / credits as real else 0.0
  }

  /** Bounds whose multiples bound the points also bound the mean. */
  lemma MeanBetween(points: real, credits: int, lo: real, hi: real)
    requires credits > 0
    requires lo * credits as real <= points <= hi * credits as real
    ensures lo <= Mean(points, credits) <= hi
  {
    var w := credits as real;
    assert points / w * w == points;
  }

  /** Accumulating a value at least `lo`, with a positive weight, keeps the points at least `lo` times the credits. */
  lemma StepAbove(points: real, credits: real, v: real, c: real, lo: real)
    requires lo * credits <= points && lo <= v && c > 0.0
    ensures lo * (credits + c) <= points + v * c
  {
    assert lo * c <= v * c;
    assert lo * (credits + c) == lo * credits + lo * c;
  }

  /** Accumulating a value at most `hi`, with a positive weight, keeps the points at most `hi` times the credits. */
  lemma StepBelow(points: real, credits: real, v: real, c: real, hi: real)
    requires points <= hi * credits && v <= hi && c > 0.0
    ensures points + v * c <= hi * (credits + c)
  {
    assert v * c <= hi * c;
    assert hi * (credits + c) == hi * credits + hi * c;
  }

  /** A product of two positive numbers is positive. */
  lemma PositiveProduct(a: real, b: real)
    requires a > 0.0 && b > 0.0
    ensures a * b > 0.0
  {
  }

  /** Spreading the same points over more credits lowers a positive mean. */
  lemma FewerPointsPerCredit(p: real, w: real, c: real)
    requires p >= 0.0 && w > 0.0 && c > 0.0
    ensures p / (w + c) <= p / w
    ensures p > 0.0 ==> p / (w + c) < p / w
  {
    assert p / (w + c) * (w + c) == p;
    assert p / w * w == p;
  }
}
