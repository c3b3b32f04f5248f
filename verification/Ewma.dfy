/**
 The EWMA control chart of src/ai_engine/app/engine.py.  Floats are reals.  The two square
 roots of the source (of ALPHA / (2 - ALPHA), and inside the population deviation) are passed
 in and pinned by their squares.
 */
module Ewma {
  import opened RealArith

  const ALPHA: real := 0.3
  const SIGMA_K: real := 4.0

  ghost predicate IsRoot(root: real, x: real) {
    root >= 0.0 && Square(root) == x
  }

  /** The asymptotic variance factor ALPHA / (2 - ALPHA) of an EWMA. */
  const LIMIT_SQUARE: real := ALPHA / (2.0 - ALPHA)

  datatype Verdict = Verdict(breached: bool, ratio: real, direction: int)

  /** The smoothed statistic after the whole residual stream. */
  function Smooth(residuals: seq<real>): real {
    if |residuals| == 0 then 0.0
    else ALPHA * residuals[|residuals| - 1] + (1.0 - ALPHA) * Smooth(residuals[..|residuals| - 1])
  }

  function EffectiveSigma(sigma: real): real { if sigma <= 0.0 then 1.0 else sigma }

  function ControlLimit(sigma: real, root: real): (limit: real)
    requires sigma > 0.0 && root > 0.0
    ensures limit > 0.0
  {
    LimitIsPositive(sigma, root);
    SIGMA_K * sigma * root
  }

  /** The comparison of the statistic with the two control limits. */
  function Compare(z: real, limit: real): Verdict
    requires limit > 0.0
  {
    if z > limit then Verdict(true, Ratio(z, limit), 1)
    else if z < -limit then Verdict(true, Ratio(Abs(z), limit), -1)
    else Verdict(false, Ratio(Abs(z), limit), 0)
  }

  function Judge(z: real, sigma: real, root: real): Verdict
    requires sigma > 0.0 && root > 0.0
  {
    Compare(z, ControlLimit(sigma, root))
  }

  lemma LimitIsPositive(sigma: real, root: real)
    requires sigma > 0.0 && root > 0.0
    ensures SIGMA_K * sigma * root > 0.0
  {
  }

  function Chart(residuals: seq<real>, sigma: real, root: real): Verdict
    requires root > 0.0
  {
    Judge(Smooth(residuals), EffectiveSigma(sigma), root)
  }

  /** The loop of the source computes the chart. */
  method EwmaBreach(residuals: seq<real>, sigma: real, root: real) returns (v: Verdict)
    requires root > 0.0
    ensures v == Chart(residuals, sigma, root)
  {
    var s := if sigma <= 0.0 then 1.0 else sigma;
    var z := 0.0;
    for i := 0 to |residuals|
      invariant z == Smooth(residuals[..i])
    {
      z := ALPHA * residuals[i] + (1.0 - ALPHA) * z;
      assert residuals[..i + 1][..i] == residuals[..i];
    }
    assert residuals[..|residuals|] == residuals;
    var limit := ControlLimit(s, root);
    if z > limit {
      return Verdict(true, Ratio(z, limit), 1);
    }
    if z < -limit {
      return Verdict(true, Ratio(Abs(z), limit), -1);
    }
    return Verdict(false, Ratio(Abs(z), limit), 0);
  }

  // ---- Closed form ----

  function Pow(x: real, n: nat): real {
    if n == 0 then 1.0 else x * Pow(x, n - 1)
  }

  /** Weight i of n is ALPHA (1 - ALPHA)^(n - 1 - i). */
  function Weights(n: nat): (w: seq<real>)
    ensures |w| == n
  {
    seq(n, i requires 0 <= i < n => ALPHA * Pow(1.0 - ALPHA, n - 1 - i))
  }

  function Dot(a: seq<real>, b: seq<real>): real
    requires |a| == |b|
  {
    if |a| == 0 then 0.0
    else a[|a| - 1] * b[|b| - 1] + Dot(a[..|a| - 1], b[..|b| - 1])
  }

  function Sum(a: seq<real>): real {
    if |a| == 0 then 0.0 else a[|a| - 1] + Sum(a[..|a| - 1])
  }

  function Scale(c: real, a: seq<real>): (r: seq<real>)
    ensures |r| == |a|
    ensures forall i :: 0 <= i < |r| ==> r[i] == c * a[i]
  {
    seq(|a|, i requires 0 <= i < |a| => c * a[i])
  }

  function Shift(c: real, a: seq<real>): (r: seq<real>)
    ensures |r| == |a|
    ensures forall i :: 0 <= i < |r| ==> r[i] == a[i] + c
  {
    seq(|a|, i requires 0 <= i < |a| => a[i] + c)
  }

  lemma ScaleSlice(c: real, a: seq<real>, k: nat)
    requires k <= |a|
    ensures Scale(c, a)[..k] == Scale(c, a[..k])
  {
    forall i | 0 <= i < k ensures Scale(c, a)[i] == Scale(c, a[..k])[i] {
      assert a[..k][i] == a[i];
    }
  }

  lemma {:induction false} DotScale(c: real, a: seq<real>, b: seq<real>)
    requires |a| == |b|
    ensures Dot(Scale(c, a), b) == c * Dot(a, b)
  {
    if |a| == 0 {
    } else {
      var k := |a| - 1;
      ScaleSlice(c, a, k);
      DotScale(c, a[..k], b[..k]);
      assert Scale(c, a)[k] * b[k] == c * (a[k] * b[k]);
      assert c * Dot(a, b) == c * (a[k] * b[k]) + c * Dot(a[..k], b[..k]);
    }
  }

  lemma {:induction false} DotCommutes(a: seq<real>, b: seq<real>)
    requires |a| == |b|
    ensures Dot(a, b) == Dot(b, a)
  {
    if |a| == 0 {
    } else {
      DotCommutes(a[..|a| - 1], b[..|b| - 1]);
    }
  }

  lemma WeightsStep(n: nat)
    requires n > 0
    ensures Weights(n)[n - 1] == ALPHA
    ensures Weights(n)[..n - 1] == Scale(1.0 - ALPHA, Weights(n - 1))
  {
    assert Pow(1.0 - ALPHA, 0) == 1.0;
    forall i | 0 <= i < n - 1 ensures Weights(n)[i] == (1.0 - ALPHA) * Weights(n - 1)[i] {
      var p := Pow(1.0 - ALPHA, n - 2 - i);
      assert Pow(1.0 - ALPHA, n - 1 - i) == (1.0 - ALPHA) * p;
    }
  }

  /** The statistic is the weighted sum of the residuals with geometric weights. */
  lemma {:induction false} ClosedForm(residuals: seq<real>)
    ensures Smooth(residuals) == Dot(Weights(|residuals|), residuals)
  {
    var n := |residuals|;
    if n == 0 {
    } else {
      WeightsStep(n);
      ClosedForm(residuals[..n - 1]);
      DotScale(1.0 - ALPHA, Weights(n - 1), residuals[..n - 1]);
    }
  }

  // ---- Invariances ----

  lemma {:induction false} SmoothScales(c: real, residuals: seq<real>)
    ensures Smooth(Scale(c, residuals)) == c * Smooth(residuals)
  {
    var n := |residuals|;
    if n == 0 {
    } else {
      ScaleSlice(c, residuals, n - 1);
      SmoothScales(c, residuals[..n - 1]);
      var z, r := Smooth(residuals[..n - 1]), residuals[n - 1];
      assert ALPHA * (c * r) + (1.0 - ALPHA) * (c * z) == c * (ALPHA * r + (1.0 - ALPHA) * z);
    }
  }

  /** Measuring in another unit does not change the verdict. */
  lemma ScaleKeepsVerdict(c: real, residuals: seq<real>, sigma: real, root: real)
    requires c > 0.0 && sigma > 0.0 && root > 0.0
    ensures Chart(Scale(c, residuals), c * sigma, root) == Chart(residuals, sigma, root)
  {
    SmoothScales(c, residuals);
    ProductIsPositive(c, sigma);
    JudgeScales(c, Smooth(residuals), Smooth(Scale(c, residuals)), sigma, c * sigma, root);
  }

  lemma JudgeScales(c: real, z: real, z': real, sigma: real, sigma': real, root: real)
    requires c > 0.0 && sigma > 0.0 && root > 0.0
    requires z' == c * z && sigma' == c * sigma > 0.0
    ensures Judge(z', sigma', root) == Judge(z, sigma, root)
  {
    var limit, limit' := ControlLimit(sigma, root), ControlLimit(sigma', root);
    assert limit' == c * limit;
    CompareScales(c, z, z', limit, limit');
  }

  lemma AbsScales(c: real, z: real, z': real)
    requires c > 0.0 && z' == c * z
    ensures Abs(z') == c * Abs(z)
  {
    FactorSign(c, z);
    assert c * -z == -z';
  }

  /** A verdict is fixed by two comparisons and the ratio of the absolute value. */
  lemma SameVerdict(z: real, limit: real, z': real, limit': real)
    requires limit > 0.0 && limit' > 0.0
    requires (z' > limit' <==> z > limit) && (z' < -limit' <==> z < -limit)
    requires Ratio(Abs(z'), limit') == Ratio(Abs(z), limit)
    ensures Compare(z', limit') == Compare(z, limit)
  {
    hide Ratio;
  }

  lemma CompareScales(c: real, z: real, z': real, limit: real, limit': real)
    requires c > 0.0 && limit > 0.0 && limit' > 0.0
    requires z' == c * z && limit' == c * limit
    ensures Compare(z', limit') == Compare(z, limit)
  {
    hide Abs, Compare, Ratio;
    var low := -limit;
    ProductOrder(c, z, limit);
    ProductOrder(c, z, low);
    assert c * low == -limit';
    AbsScales(c, z, z');
    QuotientScales(c, Abs(z), Abs(z'), limit, limit');
    SameVerdict(z, limit, z', limit');
  }

  lemma CompareNegated(z: real, limit: real)
    requires limit > 0.0
    ensures Compare(-z, limit) == Compare(z, limit).(direction := -Compare(z, limit).direction)
  {
  }

  /** A mirrored stream is judged the same, in the other direction. */
  lemma NegationFlipsDirection(residuals: seq<real>, sigma: real, root: real)
    requires root > 0.0
    ensures var v, w := Chart(residuals, sigma, root), Chart(Scale(-1.0, residuals), sigma, root);
            w == v.(direction := -v.direction)
  {
    SmoothScales(-1.0, residuals);
    assert Smooth(Scale(-1.0, residuals)) == -Smooth(residuals);
    hide Smooth, Scale, Compare, ControlLimit;
    CompareNegated(Smooth(residuals), ControlLimit(EffectiveSigma(sigma), root));
  }

  /** A breach is a ratio above 1, and the direction is the sign of the statistic. */
  lemma VerdictMeaning(residuals: seq<real>, sigma: real, root: real)
    requires root > 0.0
    ensures var v := Chart(residuals, sigma, root);
            && v.ratio >= 0.0
            && (v.breached <==> v.ratio > 1.0)
            && (v.direction != 0 <==> v.breached)
            && (v.direction == 1 ==> Smooth(residuals) > 0.0)
            && (v.direction == -1 ==> Smooth(residuals) < 0.0)
            && v.direction in {-1, 0, 1}
  {
    CompareMeaning(Smooth(residuals), ControlLimit(EffectiveSigma(sigma), root));
  }

  lemma CompareMeaning(z: real, limit: real)
    requires limit > 0.0
    ensures var v := Compare(z, limit);
            && v.ratio == Ratio(Abs(z), limit) >= 0.0
            && (v.breached <==> v.ratio > 1.0)
            && (v.direction != 0 <==> v.breached)
            && (v.direction == 1 ==> z > 0.0) && (v.direction == -1 ==> z < 0.0)
            && v.direction in {-1, 0, 1}
  {
    Quotient(Abs(z), limit);
  }

  /** The verdict without roots: the squared statistic against the squared limit. */
  ghost predicate BreachesBySquares(z: real, variance: real) {
    Square(z) > SIGMA_K * SIGMA_K * variance * LIMIT_SQUARE
  }

  lemma BreachBySquares(z: real, sigma: real, root: real)
    requires sigma > 0.0 && IsRoot(root, LIMIT_SQUARE) && root > 0.0
    ensures Judge(z, sigma, root).breached <==> BreachesBySquares(z, Square(sigma))
  {
    var limit := ControlLimit(sigma, root);
    SquareOfLimit(sigma, root);
    SquareCompare(Abs(z), limit);
    SquareSign(z);
  }

  lemma SquareOfLimit(sigma: real, root: real)
    requires sigma > 0.0 && root > 0.0
    ensures Square(ControlLimit(sigma, root)) == SIGMA_K * SIGMA_K * Square(sigma) * Square(root)
  {
  }
}
