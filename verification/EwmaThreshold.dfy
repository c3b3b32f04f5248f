/**
 How long a window has to be before the chart can breach at all when a group has no trained
 baseline: its residuals are then its own deviations from its mean, and sigma is its own
 population deviation.  The answer is exact: 22 points.
 */
module EwmaThreshold {
  import opened Ewma
  import opened RealArith

  const DECAY: real := 1.0 - ALPHA

  // ---- Linear algebra of residual streams ----

  function Minus(a: seq<real>, b: seq<real>): (r: seq<real>)
    requires |a| == |b|
    ensures |r| == |a|
    ensures forall i :: 0 <= i < |r| ==> r[i] == a[i] - b[i]
  {
    seq(|a|, i requires 0 <= i < |a| => a[i] - b[i])
  }

  lemma {:induction false} DotOfMinus(a: seq<real>, b: seq<real>, c: seq<real>)
    requires |a| == |b| == |c|
    ensures Dot(Minus(a, b), c) == Dot(a, c) - Dot(b, c)
  {
    if |a| == 0 {
    } else {
      var k := |a| - 1;
      assert Minus(a, b)[..k] == Minus(a[..k], b[..k]);
      DotOfMinus(a[..k], b[..k], c[..k]);
      assert (a[k] - b[k]) * c[k] == a[k] * c[k] - b[k] * c[k];
    }
  }

  lemma NormOfMinus(a: seq<real>, b: seq<real>)
    requires |a| == |b|
    ensures var m := Minus(a, b);
            Dot(m, m) == Dot(a, a) - 2.0 * Dot(a, b) + Dot(b, b)
  {
    var m := Minus(a, b);
    DotOfMinus(a, b, m);
    DotCommutes(a, m);
    DotOfMinus(a, b, a);
    DotCommutes(b, a);
    DotCommutes(b, m);
    DotOfMinus(a, b, b);
  }

  lemma NormOfScale(c: real, a: seq<real>)
    ensures Dot(Scale(c, a), Scale(c, a)) == Square(c) * Dot(a, a)
  {
    hide Dot;
    DotScale(c, a, Scale(c, a));
    DotCommutes(a, Scale(c, a));
    DotScale(c, a, a);
    assert c * (c * Dot(a, a)) == Square(c) * Dot(a, a);
  }

  lemma {:induction false} NormIsNonNegative(a: seq<real>)
    ensures Dot(a, a) >= 0.0
  {
    if |a| == 0 {
    } else {
      NormIsNonNegative(a[..|a| - 1]);
      SquareSign(a[|a| - 1]);
    }
  }

  lemma {:induction false} NullNorm(a: seq<real>)
    requires Dot(a, a) <= 0.0
    ensures forall i :: 0 <= i < |a| ==> a[i] == 0.0
  {
    if |a| == 0 {
    } else {
      var k := |a| - 1;
      assert Dot(a, a) == Square(a[k]) + Dot(a[..k], a[..k]);
      NormIsNonNegative(a[..k]);
      SquareSign(a[k]);
      NullNorm(a[..k]);
      forall i | 0 <= i < k ensures a[i] == 0.0 {
        assert a[..k][i] == a[i];
      }
    }
  }

  lemma {:induction false} DotWithZeros(a: seq<real>, b: seq<real>)
    requires |a| == |b| && forall i :: 0 <= i < |b| ==> b[i] == 0.0
    ensures Dot(a, b) == 0.0
  {
    if |a| == 0 {
    } else {
      DotWithZeros(a[..|a| - 1], b[..|b| - 1]);
    }
  }

  lemma CauchySchwarz(a: seq<real>, b: seq<real>)
    requires |a| == |b|
    ensures Square(Dot(a, b)) <= Dot(a, a) * Dot(b, b)
  {
    hide Dot;
    NormIsNonNegative(b);
    if Dot(b, b) <= 0.0 {
      NullNorm(b);
      DotWithZeros(a, b);
      assert Dot(a, b) == 0.0 && Dot(b, b) == 0.0;
    } else {
      var t := Ratio(Dot(a, b), Dot(b, b));
      var tb := Scale(t, b);
      NormOfMinus(a, tb);
      NormIsNonNegative(Minus(a, tb));
      DotCommutes(a, tb);
      DotScale(t, b, a);
      DotCommutes(b, a);
      NormOfScale(t, b);
      Quotient(Dot(a, b), Dot(b, b));
      Discriminant(Dot(a, a), Dot(a, b), Dot(b, b), t);
    }
  }

  lemma Discriminant(aa: real, ab: real, bb: real, t: real)
    requires bb > 0.0 && t * bb == ab
    requires aa - 2.0 * (t * ab) + Square(t) * bb >= 0.0
    ensures Square(ab) <= aa * bb
  {
    assert Square(t) * bb == t * ab by { assert Square(t) * bb == t * (t * bb); }
    var rest := aa - t * ab;
    ProductSign(bb, rest);
    assert bb * rest == aa * bb - Square(ab) by {
      assert bb * (t * ab) == (t * bb) * ab;
    }
  }

  function Ones(n: nat): (r: seq<real>)
    ensures |r| == n
    ensures forall i :: 0 <= i < n ==> r[i] == 1.0
  {
    seq(n, i => 1.0)
  }

  lemma {:induction false} DotWithOnes(a: seq<real>)
    ensures Dot(a, Ones(|a|)) == Sum(a)
  {
    if |a| == 0 {
    } else {
      var k := |a| - 1;
      assert Ones(|a|)[..k] == Ones(k);
      DotWithOnes(a[..k]);
    }
  }

  lemma {:induction false} SumOfOnes(n: nat)
    ensures Sum(Ones(n)) == n as real
  {
    if n > 0 {
      assert Ones(n)[..n - 1] == Ones(n - 1);
      SumOfOnes(n - 1);
    }
  }

  // ---- Mean and deviation ----

  function Mean(values: seq<real>): real
    requires |values| > 0
  {
    Ratio(Sum(values), |values| as real)
  }

  function Centred(values: seq<real>): (r: seq<real>)
    requires |values| > 0
    ensures |r| == |values|
  {
    Shift(-Mean(values), values)
  }

  lemma CentredIsMinus(values: seq<real>)
    requires |values| > 0
    ensures Centred(values) == Minus(values, Scale(Mean(values), Ones(|values|)))
  {
    var level := Scale(Mean(values), Ones(|values|));
    forall i | 0 <= i < |values| ensures Centred(values)[i] == Minus(values, level)[i] {
      assert level[i] == Mean(values) * 1.0;
    }
  }

  /** The population variance, np.var. */
  function Variance(values: seq<real>): real
    requires |values| > 0
  {
    Ratio(Dot(Centred(values), Centred(values)), |values| as real)
  }

  lemma VarianceIsNonNegative(values: seq<real>)
    requires |values| > 0
    ensures Variance(values) >= 0.0
  {
    NormIsNonNegative(Centred(values));
    Quotient(Dot(Centred(values), Centred(values)), |values| as real);
  }

  lemma MeanTimesSize(values: seq<real>)
    requires |values| > 0
    ensures Mean(values) * |values| as real == Sum(values)
  {
    hide Sum;
    Quotient(Sum(values), |values| as real);
  }

  lemma CentredSumsToZero(values: seq<real>)
    requires |values| > 0
    ensures Sum(Centred(values)) == 0.0
  {
    hide Dot, Sum, Mean;
    var n := |values|;
    var ones := Ones(n);
    CentredIsMinus(values);
    DotWithOnes(Centred(values));
    DotOfMinus(values, Scale(Mean(values), ones), ones);
    DotWithOnes(values);
    DotScale(Mean(values), ones, ones);
    DotWithOnes(ones);
    SumOfOnes(n);
    MeanTimesSize(values);
  }

  // ---- The geometric weights ----

  lemma {:induction false} WeightSum(n: nat)
    ensures Sum(Weights(n)) == 1.0 - Pow(DECAY, n)
  {
    if n > 0 {
      WeightsStep(n);
      WeightSum(n - 1);
      SumOfScale(DECAY, Weights(n - 1));
    }
  }

  lemma {:induction false} SumOfScale(c: real, a: seq<real>)
    ensures Sum(Scale(c, a)) == c * Sum(a)
  {
    if |a| == 0 {
    } else {
      var k := |a| - 1;
      ScaleSlice(c, a, k);
      SumOfScale(c, a[..k]);
      assert c * (a[k] + Sum(a[..k])) == c * a[k] + c * Sum(a[..k]);
    }
  }

  lemma {:induction false} WeightNorm(n: nat)
    ensures Dot(Weights(n), Weights(n)) == LIMIT_SQUARE * (1.0 - Square(Pow(DECAY, n)))
  {
    hide Dot, Square, Weights, Pow;
    if n == 0 {
      NoWeights();
    } else {
      WeightNorm(n - 1);
      WeightNormStep(n);
    }
  }

  lemma NoWeights()
    ensures Dot(Weights(0), Weights(0)) == LIMIT_SQUARE * (1.0 - Square(Pow(DECAY, 0)))
  {
  }

  lemma NextPower(n: nat)
    requires n > 0
    ensures Pow(DECAY, n) == DECAY * Pow(DECAY, n - 1)
  {
  }

  lemma WeightNormStep(n: nat)
    requires n > 0
    requires Dot(Weights(n - 1), Weights(n - 1)) == LIMIT_SQUARE * (1.0 - Square(Pow(DECAY, n - 1)))
    ensures Dot(Weights(n), Weights(n)) == LIMIT_SQUARE * (1.0 - Square(Pow(DECAY, n)))
  {
    hide Dot, Square, Scale, Weights, Pow;
    var v := Weights(n - 1);
    WeightsStep(n);
    NormOfScale(DECAY, v);
    NormFromPrefix(Weights(n));
    NormStep(Dot(v, v), Dot(Weights(n), Weights(n)), Pow(DECAY, n - 1));
    NextPower(n);
  }

  lemma NormStep(before: real, norm: real, p: real)
    requires before == LIMIT_SQUARE * (1.0 - Square(p))
    requires norm == ALPHA * ALPHA + Square(DECAY) * before
    ensures norm == LIMIT_SQUARE * (1.0 - Square(DECAY * p))
  {
    GeometricStep(p);
  }

  lemma NormFromPrefix(a: seq<real>)
    requires |a| > 0
    ensures var k := |a| - 1; Dot(a, a) == a[k] * a[k] + Dot(a[..k], a[..k])
  {
  }

  lemma GeometricStep(p: real)
    ensures ALPHA * ALPHA + Square(DECAY) * (LIMIT_SQUARE * (1.0 - Square(p)))
         == LIMIT_SQUARE * (1.0 - Square(DECAY * p))
  {
    var s := Square(p);
    assert Square(DECAY * p) == 0.49 * s;
    assert 0.09 + 0.49 * (LIMIT_SQUARE * (1.0 - s)) == LIMIT_SQUARE * (1.0 - 0.49 * s);
  }

  /** n times the squared length of the weights with their mean taken out. */
  function Spread(n: nat): real {
    var p := Pow(DECAY, n);
    n as real * (LIMIT_SQUARE * (1.0 - Square(p))) - Square(1.0 - p)
  }

  lemma SpreadIsCentredNorm(n: nat)
    requires n > 0
    ensures var u := Centred(Weights(n));
            n as real * Dot(u, u) == Spread(n)
  {
    hide Dot, Sum, Pow, Centred;
    WeightSum(n);
    WeightNorm(n);
    NormOfCentred(Weights(n));
  }

  lemma DotWithLevel(w: seq<real>, m: real)
    ensures Dot(w, Scale(m, Ones(|w|))) == m * Sum(w)
  {
    hide Dot, Sum, Scale, Ones;
    var ones := Ones(|w|);
    DotCommutes(w, Scale(m, ones));
    DotScale(m, ones, w);
    DotCommutes(ones, w);
    DotWithOnes(w);
  }

  lemma NormOfLevel(m: real, n: nat)
    ensures Dot(Scale(m, Ones(n)), Scale(m, Ones(n))) == Square(m) * n as real
  {
    hide Dot, Sum, Scale, Ones, Square;
    NormOfScale(m, Ones(n));
    DotWithOnes(Ones(n));
    SumOfOnes(n);
  }

  /** The squared length after a level m is taken from size values of the given sum. */
  predicate IsShiftedNorm(norm: real, before: real, m: real, sum: real, size: real) {
    norm == before - 2.0 * (m * sum) + Square(m) * size
  }

  predicate IsMean(m: real, sum: real, size: real) { m * size == sum }

  lemma NormOfDifference(w: seq<real>, m: real)
    ensures var v := Minus(w, Scale(m, Ones(|w|)));
            IsShiftedNorm(Dot(v, v), Dot(w, w), m, Sum(w), |w| as real)
  {
    hide Dot, Sum, Scale, Ones, Minus, Square, IsShiftedNorm;
    var level := Scale(m, Ones(|w|));
    var v := Minus(w, level);
    NormOfMinus(w, level);
    DotWithLevel(w, m);
    NormOfLevel(m, |w|);
    Shifted(Dot(v, v), Dot(w, w), Dot(w, level), Dot(level, level), m, Sum(w), |w| as real);
  }

  lemma Shifted(norm: real, before: real, mixed: real, level: real, m: real, sum: real, size: real)
    requires norm == before - 2.0 * mixed + level && mixed == m * sum && level == Square(m) * size
    ensures IsShiftedNorm(norm, before, m, sum, size)
  {
  }

  lemma MeanIsMean(w: seq<real>)
    requires |w| > 0
    ensures IsMean(Mean(w), Sum(w), |w| as real)
  {
    MeanTimesSize(w);
  }

  lemma NormOfCentred(w: seq<real>)
    requires |w| > 0
    ensures |w| as real * Dot(Centred(w), Centred(w)) == |w| as real * Dot(w, w) - Square(Sum(w))
  {
    hide Dot, Sum, Centred, Mean, Scale, Ones, Minus, Square, IsShiftedNorm, IsMean;
    CentredIsMinus(w);
    NormOfDifference(w, Mean(w));
    MeanIsMean(w);
    CentredNorm(|w| as real, Dot(Centred(w), Centred(w)), Dot(w, w), Mean(w), Sum(w));
  }

  lemma CentredNorm(size: real, cc: real, ww: real, m: real, sum: real)
    requires IsShiftedNorm(cc, ww, m, sum, size) && IsMean(m, sum, size)
    ensures size * cc == size * ww - Square(sum)
  {
    var wl := m * sum;
    assert Square(m) * size == wl by { assert Square(m) * size == m * (m * size); }
    assert cc == ww - wl;
    assert size * wl == Square(sum) by { assert size * (m * sum) == (m * size) * sum; }
    assert size * (ww - wl) == size * ww - size * wl;
  }

  lemma {:induction false} PowBounds(n: nat)
    ensures 0.0 < Pow(DECAY, n) <= 1.0
    ensures n > 0 ==> Pow(DECAY, n) <= DECAY
    ensures n >= 17 ==> Pow(DECAY, n) <= 0.01
  {
    if n == 0 {
    } else if n == 17 {
      PowAt17();
      PowBounds(16);
    } else {
      PowBounds(n - 1);
    }
  }

  lemma PowAt17()
    ensures Pow(DECAY, 17) <= 0.01
  {
    var q := DECAY;
    assert Pow(q, 1) == 0.7 by { assert Pow(q, 0) == 1.0; }
    assert Pow(q, 2) == 0.49;
    assert Pow(q, 3) == 0.343;
    assert Pow(q, 5) == 0.343 * 0.49 by { assert Pow(q, 4) == q * Pow(q, 3); }
    assert Pow(q, 7) == 0.343 * 0.49 * 0.49 by { assert Pow(q, 6) == q * Pow(q, 5); }
    assert Pow(q, 7) < 0.0824;
    assert Pow(q, 9) < 0.0404 by { assert Pow(q, 8) == q * Pow(q, 7); }
    assert Pow(q, 11) < 0.0198 by { assert Pow(q, 10) == q * Pow(q, 9); }
    assert Pow(q, 13) < 0.0098 by { assert Pow(q, 12) == q * Pow(q, 11); }
    assert Pow(q, 15) < 0.0098 by { assert Pow(q, 14) == q * Pow(q, 13); }
    assert Pow(q, 17) < 0.0098 by { assert Pow(q, 16) == q * Pow(q, 15); }
  }

  const CRITICAL: real := SIGMA_K * SIGMA_K * LIMIT_SQUARE

  /** The spread passes the squared limit exactly at 22 points. */
  lemma SpreadThreshold(n: nat)
    requires n > 0
    ensures Spread(n) > CRITICAL <==> n >= 22
    ensures Spread(n) != CRITICAL
  {
    PowBounds(n);
    if n <= 16 {
      SpreadUpTo16(n as real, Pow(DECAY, n));
    } else if n < 22 {
      SpreadUpTo21(n as real, Pow(DECAY, n));
    } else {
      SpreadFrom22(n as real, Pow(DECAY, n));
    }
  }

  lemma SquareBelow(p: real)
    requires 0.0 < p <= DECAY
    ensures 0.0 < Square(p) < p
    ensures Square(1.0 - p) == 1.0 - 2.0 * p + Square(p)
    ensures Square(1.0 - p) > 0.0
  {
    SquareSign(p);
    SquareSign(1.0 - p);
    var d := 1.0 - p;
    ProductIsPositive(p, d);
    assert p * d == p - Square(p);
  }

  lemma SpreadUpTo16(size: real, p: real)
    requires 0.0 < size <= 16.0 && 0.0 < p <= DECAY
    ensures size * (LIMIT_SQUARE * (1.0 - Square(p))) - Square(1.0 - p) < CRITICAL
  {
    SquareBelow(p);
    ProductAtMost(size, 16.0, LIMIT_SQUARE, Square(p));
  }

  lemma SpreadUpTo21(size: real, p: real)
    requires 0.0 < size <= 21.0 && 0.0 < p <= 0.01
    ensures size * (LIMIT_SQUARE * (1.0 - Square(p))) - Square(1.0 - p) < CRITICAL
  {
    SquareBelow(p);
    ProductAtMost(size, 21.0, LIMIT_SQUARE, Square(p));
  }

  lemma ProductAtMost(size: real, high: real, l: real, s: real)
    requires 0.0 < size <= high && l > 0.0 && 0.0 < s
    ensures size * (l * (1.0 - s)) <= high * l
  {
    ProductIsPositive(l, s);
    var t := l * s;
    assert l * (1.0 - s) == l - t;
    ProductIsPositive(size, t);
    assert size * (l - t) == size * l - size * t;
    var d := high - size;
    ProductSign(d, l);
    assert d * l == high * l - size * l;
  }

  lemma SpreadFrom22(size: real, p: real)
    requires size >= 22.0 && 0.0 < p <= 0.01
    ensures size * (LIMIT_SQUARE * (1.0 - Square(p))) - Square(1.0 - p) > CRITICAL
  {
    SquareBelow(p);
    var keep := 1.0 - Square(p);
    ProductAtLeast(LIMIT_SQUARE, keep, LIMIT_SQUARE, 0.99);
    ProductAtLeast(size, LIMIT_SQUARE * keep, 22.0, LIMIT_SQUARE * 0.99);
  }

  lemma ProductAtLeast(x: real, y: real, low: real, low': real)
    requires x >= low >= 0.0 && y >= low' >= 0.0
    ensures x * y >= low * low'
  {
    var d, e := x - low, y - low';
    ProductSign(d, y);
    ProductSign(low, e);
    assert d * y == x * y - low * y;
    assert low * e == low * y - low * low';
  }

  /** The squared length of the weights that act on centred residuals, n times over. */
  lemma ActingWeights(n: nat)
    requires n > 0
    ensures var u := Centred(Weights(n));
            && (n as real * Dot(u, u) > CRITICAL <==> n >= 22)
            && n as real * Dot(u, u) != CRITICAL
  {
    SpreadIsCentredNorm(n);
    SpreadThreshold(n);
  }

  // ---- The verdict on a group without a baseline ----

  /** np.std(values) or 1.0, squared. */
  function EffectiveVariance(values: seq<real>): real
    requires |values| > 0
  {
    if Variance(values) == 0.0 then 1.0 else Variance(values)
  }

  /** The chart's verdict on the group's own residuals, without the square roots. */
  ghost predicate GroupBreaches(values: seq<real>)
    requires |values| > 0
  {
    BreachesBySquares(Smooth(Centred(values)), EffectiveVariance(values))
  }

  /** std is np.std(values), as a non-negative real with the right square. */
  function GroupVerdict(values: seq<real>, std: real, root: real): Verdict
    requires |values| > 0 && root > 0.0
  {
    Chart(Centred(values), if std == 0.0 then 1.0 else std, root)
  }

  /** Whatever values the roots take, the source's verdict is the one by squares. */
  lemma GroupVerdictBySquares(values: seq<real>, std: real, root: real)
    requires |values| > 0 && IsRoot(std, Variance(values)) && IsRoot(root, LIMIT_SQUARE) && root > 0.0
    ensures GroupVerdict(values, std, root).breached <==> GroupBreaches(values)
  {
    hide Variance, Smooth, Centred;
    if std == 0.0 {
      assert Variance(values) == 0.0;
      BreachBySquares(Smooth(Centred(values)), 1.0, root);
    } else {
      SquareSign(std);
      BreachBySquares(Smooth(Centred(values)), std, root);
    }
  }

  /** Only the part of the weights orthogonal to a constant stream acts on centred residuals. */
  lemma SmoothOfCentred(values: seq<real>)
    requires |values| > 0
    ensures Smooth(Centred(values)) == Dot(Centred(Weights(|values|)), Centred(values))
  {
    var n := |values|;
    var r := Centred(values);
    var level := Scale(Mean(Weights(n)), Ones(n));
    ClosedForm(r);
    CentredSumsToZero(values);
    CentredIsMinus(Weights(n));
    DotOfMinus(Weights(n), level, r);
    DotScale(Mean(Weights(n)), Ones(n), r);
    DotCommutes(Ones(n), r);
    DotWithOnes(r);
  }

  lemma CriticalBound(v: real)
    ensures SIGMA_K * SIGMA_K * v * LIMIT_SQUARE == CRITICAL * v
  {
  }

  /** The squared statistic is bounded by the acting weights and the variance. */
  lemma StatisticBound(values: seq<real>)
    requires |values| > 0
    ensures var z, u := Smooth(Centred(values)), Centred(Weights(|values|));
            Square(z) <= (|values| as real * Dot(u, u)) * Variance(values)
  {
    var n := |values|;
    hide Dot, Sum, Smooth;
    var u, r := Centred(Weights(n)), Centred(values);
    SmoothOfCentred(values);
    CauchySchwarz(u, r);
    Quotient(Dot(r, r), n as real);
    Combine(Smooth(r), Dot(u, u), Dot(r, r), Variance(values), n as real);
  }

  lemma Combine(z: real, uu: real, rr: real, v: real, n: real)
    requires Square(z) <= uu * rr && v * n == rr
    ensures Square(z) <= (n * uu) * v
  {
    Regroup(uu, v, n);
  }

  lemma Regroup(x: real, y: real, n: real)
    ensures x * (y * n) == (n * x) * y
  {
  }

  /** No window of fewer than 22 points breaches. */
  lemma ShortGroupNeverBreaches(values: seq<real>)
    requires 0 < |values| < 22
    ensures !GroupBreaches(values)
  {
    var n, v := |values|, Variance(values);
    StatisticBound(values);
    ActingWeights(n);
    VarianceIsNonNegative(values);
    var u := Centred(Weights(n));
    BelowCritical(Smooth(Centred(values)), n as real * Dot(u, u), v);
  }

  lemma BelowCritical(z: real, acting: real, v: real)
    requires Square(z) <= acting * v && acting < CRITICAL && v >= 0.0
    ensures !BreachesBySquares(z, if v == 0.0 then 1.0 else v)
  {
    if v > 0.0 {
      ProductOrder(v, CRITICAL, acting);
      CriticalBound(v);
    } else {
      assert acting * v == 0.0;
      CriticalBound(1.0);
    }
  }

  /** The extremal window: the weights themselves. */
  lemma WeightsBreach(n: nat)
    requires n >= 22
    ensures GroupBreaches(Weights(n))
  {
    var w := Weights(n);
    var u, size := Centred(w), n as real;
    SmoothOfCentred(w);
    ActingWeights(n);
    var z, v := Dot(u, u), Variance(w);
    NormIsNonNegative(u);
    assert size * z > CRITICAL > 0.0;
    assert z > 0.0;
    Quotient(z, size);
    Regroup(z, v, size);
    ProductOrder(v, size * z, CRITICAL);
    CriticalBound(v);
  }

  /** A group without a baseline can breach exactly when it has at least 22 points. */
  lemma BreachThreshold(n: nat)
    requires n > 0
    ensures (exists values: seq<real> :: |values| == n && GroupBreaches(values)) <==> n >= 22
  {
    if n >= 22 {
      WeightsBreach(n);
    } else {
      forall values: seq<real> | |values| == n ensures !GroupBreaches(values) {
        ShortGroupNeverBreaches(values);
      }
    }
  }

  // ---- Invariances of the group verdict ----

  lemma {:induction false} SumOfShift(d: real, values: seq<real>)
    ensures Sum(Shift(d, values)) == Sum(values) + d * |values| as real
  {
    if |values| == 0 {
    } else {
      var k := |values| - 1;
      assert Shift(d, values)[..k] == Shift(d, values[..k]);
      SumOfShift(d, values[..k]);
      assert d * |values| as real == d * k as real + d;
    }
  }

  lemma MeanOfAffine(c: real, d: real, values: seq<real>)
    requires |values| > 0
    ensures Mean(Shift(d, Scale(c, values))) == c * Mean(values) + d
  {
    hide Sum;
    var image := Shift(d, Scale(c, values));
    var n, m := |image| as real, Mean(values);
    SumOfShift(d, Scale(c, values));
    SumOfScale(c, values);
    MeanTimesSize(values);
    AffineRegroup(c, d, m, n);
    QuotientIsUnique(Sum(image), n, c * m + d);
  }

  lemma AffineRegroup(c: real, d: real, m: real, n: real)
    ensures (c * m + d) * n == c * (m * n) + d * n
  {
  }

  lemma CentredOfAffine(c: real, d: real, values: seq<real>)
    requires |values| > 0
    ensures Centred(Shift(d, Scale(c, values))) == Scale(c, Centred(values))
  {
    var image := Shift(d, Scale(c, values));
    MeanOfAffine(c, d, values);
    forall i | 0 <= i < |values| ensures Centred(image)[i] == Scale(c, Centred(values))[i] {
      AffineEntry(c, d, values[i], Mean(values));
    }
  }

  lemma AffineEntry(c: real, d: real, x: real, m: real)
    ensures c * x + d - (c * m + d) == c * (x - m)
  {
  }

  lemma VarianceOfAffine(c: real, d: real, values: seq<real>)
    requires |values| > 0
    ensures Variance(Shift(d, Scale(c, values))) == Square(c) * Variance(values)
  {
    hide Dot, Sum;
    var u := Centred(values);
    CentredOfAffine(c, d, values);
    NormOfScale(c, u);
    Regroup(Square(c), Variance(values), |values| as real);
    var w := Centred(Shift(d, Scale(c, values)));
    QuotientIsUnique(Dot(w, w), |w| as real, Square(c) * Variance(values));
  }

  lemma NormOfFlat(values: seq<real>)
    requires |values| > 0 && Variance(values) == 0.0
    ensures Smooth(Centred(values)) == 0.0
  {
    hide Dot, Smooth, Centred;
    var r := Centred(values);
    Quotient(Dot(r, r), |values| as real);
    NullNorm(r);
    ClosedForm(r);
    DotWithZeros(Weights(|r|), r);
  }

  lemma RootIsUnique(a: real, b: real, x: real)
    requires IsRoot(a, x) && IsRoot(b, x)
    ensures a == b
  {
    SquareCompare(a, b);
    SquareCompare(b, a);
  }

  /** The deviation grows with the unit, and does not see the origin. */
  lemma DeviationOfAffine(c: real, d: real, values: seq<real>, std: real, std': real)
    requires |values| > 0 && c > 0.0
    requires IsRoot(std, Variance(values)) && IsRoot(std', Variance(Shift(d, Scale(c, values))))
    ensures std' == c * std
  {
    hide Variance;
    VarianceOfAffine(c, d, values);
    assert Square(c * std) == Square(c) * Square(std);
    ProductSign(c, std);
    RootIsUnique(std', c * std, Square(c) * Variance(values));
  }

  /** A flat group has no verdict but calm. */
  lemma FlatGroupIsCalm(values: seq<real>, root: real)
    requires |values| > 0 && root > 0.0 && Variance(values) == 0.0
    ensures GroupVerdict(values, 0.0, root) == Judge(0.0, 1.0, root)
    ensures !GroupVerdict(values, 0.0, root).breached
  {
    NormOfFlat(values);
    hide Smooth, Variance;
    LimitIsPositive(1.0, root);
  }

  /**
   Neither the origin nor the unit of a metric changes the verdict on its group: not the breach, not
   the ratio and not the direction, whatever numbers stand for the two deviations.
   */
  lemma GroupVerdictIsAffineInvariant(c: real, d: real, values: seq<real>, std: real, std': real, root: real)
    requires |values| > 0 && c > 0.0 && root > 0.0
    requires IsRoot(std, Variance(values)) && IsRoot(std', Variance(Shift(d, Scale(c, values))))
    ensures GroupVerdict(Shift(d, Scale(c, values)), std', root) == GroupVerdict(values, std, root)
  {
    var image := Shift(d, Scale(c, values));
    DeviationOfAffine(c, d, values, std, std');
    VarianceOfAffine(c, d, values);
    if std == 0.0 {
      hide Variance, GroupVerdict;
      assert c * std == 0.0;
      FlatGroupIsCalm(values, root);
      FlatGroupIsCalm(image, root);
    } else {
      CentredOfAffine(c, d, values);
      ProductIsPositive(c, std);
      ScaleKeepsVerdict(c, Centred(values), std, root);
      hide Variance, Centred, Chart;
    }
  }
}
