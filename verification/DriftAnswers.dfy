/**
 What the detector of src/ai_engine/app/engine.py answers, said about the values of a group and the
 seasonal profile alone: when it alarms, which way, how strongly, and which action it names.
 */
module DriftAnswers {
  import opened Wrappers
  import opened RealArith
  import opened Signals
  import opened Ewma
  import opened EwmaThreshold
  import opened DriftDetector
  import opened PredictService
  import StableSort

  // ---- One group in time order ----

  ghost predicate AreValues(values: seq<real>, points: seq<Datapoint>) {
    |values| == |points| && forall i :: 0 <= i < |points| ==> values[i] == points[i].value
  }

  /** The profile's entries at the minutes of the points. */
  ghost predicate AreSeasonal(levels: seq<real>, points: seq<Datapoint>, b: Baseline) {
    && |levels| == |points|
    && forall i :: 0 <= i < |points| ==> levels[i] == b.profile[points[i].minuteOfDay % |b.profile|]
  }

  /** A statistic z against the control limits: its side, and its size in limits. */
  ghost predicate IsVerdict(v: Verdict, z: real, limit: real) {
    && v.direction == (if z > limit then 1 else if z < -limit then -1 else 0)
    && (v.breached <==> v.direction != 0)
    && v.ratio * limit == if z < 0.0 then -z else z
  }

  function LimitOf(sigma: real, root: real): (limit: real)
    requires root > 0.0
    ensures limit > 0.0
  {
    LimitIsPositive(if sigma <= 0.0 then 1.0 else sigma, root);
    4.0 * (if sigma <= 0.0 then 1.0 else sigma) * root
  }

  lemma LimitIsLimit(sigma: real, root: real)
    requires root > 0.0
    ensures LimitOf(sigma, root) == ControlLimit(EffectiveSigma(sigma), root)
  {
  }

  lemma CompareIsVerdict(z: real, limit: real)
    requires limit > 0.0
    ensures IsVerdict(Compare(z, limit), z, limit)
  {
  }

  lemma ChartIsVerdict(residuals: seq<real>, sigma: real, root: real)
    requires root > 0.0
    ensures IsVerdict(Chart(residuals, sigma, root), Smooth(residuals), LimitOf(sigma, root))
  {
    LimitIsLimit(sigma, root);
    CompareIsVerdict(Smooth(residuals), LimitOf(sigma, root));
    hide Compare, IsVerdict, LimitOf, Smooth, ControlLimit, EffectiveSigma;
  }

  /** The statistic of differences is the difference of the weighted sums. */
  lemma SmoothOfDifferences(values: seq<real>, levels: seq<real>)
    requires |values| == |levels|
    ensures Smooth(Minus(values, levels)) == Dot(Weights(|values|), values) - Dot(Weights(|values|), levels)
  {
    hide Dot, Smooth, Weights;
    var w, residuals := Weights(|values|), Minus(values, levels);
    ClosedForm(residuals);
    DotCommutes(w, residuals);
    DotOfMinus(values, levels, w);
    DotCommutes(values, w);
    DotCommutes(levels, w);
  }

  /** A trained group: the weighted values against the weighted seasonal entries of their minutes. */
  lemma TrainedVerdict(points: seq<Datapoint>, key: Key, env: Env, values: seq<real>, levels: seq<real>)
    requires |points| > 0 && env.root > 0.0 && key in env.baselines
    requires AreValues(values, points) && AreSeasonal(levels, points, env.baselines[key])
    ensures IsVerdict(VerdictOf(points, key, env),
                      Dot(Weights(|points|), values) - Dot(Weights(|points|), levels),
                      LimitOf(env.baselines[key].residStd, env.root))
  {
    hide Chart, IsVerdict, LimitOf, Dot, Weights;
    assert ResidualsOf(points, key, env) == Minus(values, levels);
    SmoothOfDifferences(values, levels);
    ChartIsVerdict(Minus(values, levels), env.baselines[key].residStd, env.root);
  }

  /** The weighted values less their mean under the same weights. */
  function Excess(values: seq<real>): real
    requires |values| > 0
  {
    Dot(Weights(|values|), values) - Mean(values) * Sum(Weights(|values|))
  }

  lemma SmoothOfOwnResiduals(values: seq<real>)
    requires |values| > 0
    ensures Smooth(Centred(values)) == Excess(values)
  {
    hide Dot, Sum, Mean, Smooth, Weights, Ones, Scale, Centred;
    CentredIsMinus(values);
    SmoothOfDifferences(values, Scale(Mean(values), Ones(|values|)));
    DotWithLevel(Weights(|values|), Mean(values));
  }

  lemma OwnChart(points: seq<Datapoint>, key: Key, env: Env, values: seq<real>)
    requires |points| > 0 && env.root > 0.0 && key !in env.baselines && AreValues(values, points)
    ensures exists sigma :: && LimitOf(sigma, env.root) == LimitOf(env.std(values), env.root)
                            && VerdictOf(points, key, env) == Chart(Centred(values), sigma, env.root)
  {
    assert Values(points) == values;
    var sigma := SigmaOf(points, key, env);
    assert LimitOf(sigma, env.root) == LimitOf(env.std(values), env.root);
    hide Chart, Centred, LimitOf;
    assert VerdictOf(points, key, env) == Chart(Centred(values), sigma, env.root);
  }

  /** A group without a baseline: the weighted values against their mean under the same weights. */
  lemma UntrainedVerdict(points: seq<Datapoint>, key: Key, env: Env, values: seq<real>)
    requires |points| > 0 && env.root > 0.0 && key !in env.baselines && AreValues(values, points)
    ensures IsVerdict(VerdictOf(points, key, env), Excess(values), LimitOf(env.std(values), env.root))
  {
    OwnChart(points, key, env, values);
    hide Chart, IsVerdict, LimitOf, Excess, Centred, VerdictOf;
    var sigma :| && LimitOf(sigma, env.root) == LimitOf(env.std(values), env.root)
                 && VerdictOf(points, key, env) == Chart(Centred(values), sigma, env.root);
    SmoothOfOwnResiduals(values);
    ChartIsVerdict(Centred(values), sigma, env.root);
  }

  // ---- A steady departure from the season ----

  /** Every point of the group lies d above its seasonal value (below it, for a negative d). */
  ghost predicate Steady(signals: seq<Datapoint>, key: Key, b: Baseline, d: real) {
    forall i :: 0 <= i < |signals| && signals[i].service == key.0 && signals[i].metric == key.1 ==>
      signals[i].value == b.profile[signals[i].minuteOfDay % |b.profile|] + d
  }

  /** How far n equal departures of size 1 move the statistic. */
  function Reach(n: nat): real { 1.0 - Pow(0.7, n) }

  /** The size of the statistic after n departures of size d. */
  function Strength(d: real, n: nat): real { Abs(d) * Reach(n) }

  lemma ReachBounds(n: nat)
    requires n > 0
    ensures 0.0 < Reach(n) < 1.0
  {
    PowBounds(n);
    PowBounds(n - 1);
    assert Pow(DECAY, n) == DECAY * Pow(DECAY, n - 1);
  }

  /** The statistic after n departures of size d. */
  function Moved(d: real, n: nat): real { d * Reach(n) }

  /** The same departure under any weights. */
  function Lift(d: real, w: seq<real>): real { d * Sum(w) }

  lemma MovedMeaning(d: real, n: nat)
    ensures Moved(d, n) == Lift(d, Weights(n))
  {
    hide Sum, Weights;
    WeightSum(n);
    assert Pow(0.7, n) == Pow(DECAY, n);
    hide Pow;
  }

  lemma LiftIsDot(d: real, w: seq<real>)
    ensures Dot(w, Scale(d, Ones(|w|))) == Lift(d, w)
  {
    hide Dot, Scale, Sum, Ones;
    DotWithLevel(w, d);
  }

  lemma DotOfSteady(values: seq<real>, levels: seq<real>, d: real, w: seq<real>)
    requires |w| == |values| == |levels| && Minus(values, levels) == Scale(d, Ones(|w|))
    ensures Dot(w, values) - Dot(w, levels) == Lift(d, w)
  {
    hide Dot, Minus, Scale, Ones, Lift;
    DotOfMinus(values, levels, w);
    DotCommutes(values, w);
    DotCommutes(levels, w);
    DotCommutes(w, Scale(d, Ones(|w|)));
    LiftIsDot(d, w);
  }

  lemma LevelIsScale(values: seq<real>, levels: seq<real>, d: real)
    requires |values| == |levels| && forall i :: 0 <= i < |values| ==> values[i] == levels[i] + d
    ensures Minus(values, levels) == Scale(d, Ones(|values|))
  {
    var level := Scale(d, Ones(|values|));
    forall i | 0 <= i < |values| ensures Minus(values, levels)[i] == level[i] {
      assert level[i] == d * 1.0;
    }
  }

  lemma SteadyStatistic(values: seq<real>, levels: seq<real>, d: real)
    requires |values| == |levels| && forall i :: 0 <= i < |values| ==> values[i] == levels[i] + d
    ensures Dot(Weights(|values|), values) - Dot(Weights(|values|), levels) == Moved(d, |values|)
  {
    hide *;
    LevelIsScale(values, levels, d);
    DotOfSteady(values, levels, d, Weights(|values|));
    MovedMeaning(d, |values|);
  }

  /** The values and the seasonal entries of some points. */
  function LevelsOf(points: seq<Datapoint>, b: Baseline): (levels: seq<real>)
    ensures AreSeasonal(levels, points, b)
  {
    seq(|points|, i requires 0 <= i < |points| => b.profile[points[i].minuteOfDay % |b.profile|])
  }

  lemma SteadyVerdict(points: seq<Datapoint>, key: Key, d: real, env: Env)
    requires |points| > 0 && env.root > 0.0 && key in env.baselines
    requires forall i :: 0 <= i < |points| ==> points[i].service == key.0 && points[i].metric == key.1
    requires Steady(points, key, env.baselines[key], d)
    ensures IsVerdict(VerdictOf(points, key, env), Moved(d, |points|), LimitOf(env.baselines[key].residStd, env.root))
  {
    hide IsVerdict, LimitOf, Dot, Weights, VerdictOf, Moved;
    var values, levels := Values(points), LevelsOf(points, env.baselines[key]);
    TrainedVerdict(points, key, env, values, levels);
    SteadyStatistic(values, levels, d);
  }

  /** Sorting a group into time order keeps its points. */
  lemma GroupPoints(signals: seq<Datapoint>, key: Key)
    ensures var points := TimeOrder(Points(signals, key));
            && |points| == |Points(signals, key)|
            && forall i :: 0 <= i < |points| ==> KeyOf(points[i]) == key && points[i] in signals
  {
    var own := Points(signals, key);
    var points := TimeOrder(own);
    StableSort.SortPermutes(own, Earlier());
    forall i | 0 <= i < |points| ensures KeyOf(points[i]) == key && points[i] in signals {
      assert points[i] in multiset(points);
      PointsPermute(signals, key, points[i]);
      assert points[i] in multiset(signals);
    }
  }

  lemma SteadyGroup(signals: seq<Datapoint>, key: Key, b: Baseline, d: real)
    requires Steady(signals, key, b, d)
    ensures Steady(TimeOrder(Points(signals, key)), key, b, d)
  {
    GroupPoints(signals, key);
    var points := TimeOrder(Points(signals, key));
    forall i | 0 <= i < |points|
      ensures points[i].value == b.profile[points[i].minuteOfDay % |b.profile|] + d
    {
      assert points[i] in signals && KeyOf(points[i]) == key;
    }
  }

  /** A statistic of d times a positive reach is beyond the limit on the side of d, or not at all. */
  lemma SteadySide(v: Verdict, d: real, reach: real, z: real, limit: real)
    requires IsVerdict(v, z, limit) && z == d * reach && reach > 0.0 && limit > 0.0
    ensures v.breached <==> Abs(d) * reach > limit
    ensures v.ratio == Ratio(Abs(d) * reach, limit)
    ensures v.breached ==> v.direction == if d > 0.0 then 1 else -1
  {
    FactorSign(reach, d);
    assert Abs(d) * reach == if z < 0.0 then -z else z;
    QuotientIsUnique(Abs(d) * reach, limit, v.ratio);
  }

  /**
   A trained group that lies d from its season throughout alarms exactly when it has three points and
   d, weakened by the chart's slow start, is beyond the control limit; then it points to the side of d.
   */
  lemma SteadyDeparture(signals: seq<Datapoint>, key: Key, d: real, env: Env)
    requires env.root > 0.0 && key in env.baselines && Steady(signals, key, env.baselines[key], d)
    ensures var n, limit := |Points(signals, key)|, LimitOf(env.baselines[key].residStd, env.root);
            && (Alarms(signals, key, env) <==> n >= 3 && Strength(d, n) > limit)
            && (Alarms(signals, key, env) ==>
                  var v := VerdictOf(TimeOrder(Points(signals, key)), key, env);
                  && v.direction == (if d > 0.0 then 1 else -1)
                  && v.ratio == Ratio(Strength(d, n), limit))
  {
    hide LimitOf, IsVerdict, VerdictOf, TimeOrder, Points, Steady, Abs, Reach;
    var points, limit := TimeOrder(Points(signals, key)), LimitOf(env.baselines[key].residStd, env.root);
    GroupPoints(signals, key);
    if |points| > 0 {
      SteadyGroup(signals, key, env.baselines[key], d);
      SteadyVerdict(points, key, d, env);
      ReachBounds(|points|);
      LimitIsLimit(env.baselines[key].residStd, env.root);
      SteadySide(VerdictOf(points, key, env), d, Reach(|points|), Moved(d, |points|), limit);
    }
  }

  // ---- Which action a report names ----

  /** The verb of an upward alarm, and of a sustained downward one. */
  ghost predicate Answers(verb: string, metric: string, upward: bool) {
    if upward then
      && (verb == "SCALE_UP" <==> metric == "cpu_usage_percent" || metric == "queue_depth")
      && (verb == "ROLLBACK" <==> metric == "memory_usage_percent")
      && (verb == "SCALE_UP" || verb == "ROLLBACK" || verb == "INVESTIGATE")
    else
      && (verb == "RETIRE" <==>
            metric == "queue_depth" || metric == "active_connections" || metric == "db_connection_pool_pct")
      && (verb == "RETIRE" || verb == "SCALE_DOWN")
  }

  lemma {:induction false} CountBelowIsSize(residuals: seq<real>, bound: real)
    ensures CountBelow(residuals, bound) == |set i | 0 <= i < |residuals| && residuals[i] < bound|
  {
    var low := set i | 0 <= i < |residuals| && residuals[i] < bound;
    if |residuals| == 0 {
      assert low == {};
    } else {
      var k := |residuals| - 1;
      CountBelowIsSize(residuals[..k], bound);
      var before := set i | 0 <= i < k && residuals[..k][i] < bound;
      assert low == before + if residuals[k] < bound then {k} else {};
    }
  }

  /** The points that lie more than one deviation under their level. */
  function LowPoints(values: seq<real>, levels: seq<real>, sigma: real): set<nat>
    requires |values| == |levels|
  {
    set i: nat | i < |values| && values[i] < levels[i] - sigma
  }

  lemma BelowFractionMeaning(residuals: seq<real>, values: seq<real>, levels: seq<real>, sigma: real)
    requires 0 < |residuals| == |values| == |levels|
    requires forall i :: 0 <= i < |residuals| ==> residuals[i] == values[i] - levels[i]
    ensures BelowFraction(residuals, sigma) >= 0.5 <==> 2 * |LowPoints(values, levels, sigma)| >= |residuals|
  {
    CountBelowIsSize(residuals, -sigma);
    assert (set i | 0 <= i < |residuals| && residuals[i] < -sigma) == LowPoints(values, levels, sigma);
    var n := CountBelow(residuals, -sigma);
    HalfOf(n as real, |residuals| as real);
  }

  lemma HalfOf(n: real, size: real)
    requires size > 0.0
    ensures Ratio(n, size) >= 0.5 <==> 2.0 * n >= size
  {
    var q := Ratio(n, size);
    ProductOrder(size, 0.5, q);
  }

  /** The levels that a group is held against: its season, or without a baseline its own mean. */
  ghost predicate AreLevels(levels: seq<real>, points: seq<Datapoint>, key: Key, env: Env) {
    if key in env.baselines then AreSeasonal(levels, points, env.baselines[key])
    else
      && |levels| == |points|
      && forall i :: 0 <= i < |points| ==> levels[i] == Mean(Values(points))
  }

  /** The deviation behind the share of low points, which is used as it is trained. */
  function DeviationOf(values: seq<real>, key: Key, env: Env): real {
    if key in env.baselines then env.baselines[key].residStd
    else if env.std(values) == 0.0 then 1.0 else env.std(values)
  }

  /** The share of low points, of a group and its levels. */
  lemma LowShare(points: seq<Datapoint>, key: Key, env: Env, levels: seq<real>)
    requires |points| > 0 && env.root > 0.0 && AreLevels(levels, points, key, env)
    ensures BelowFraction(ResidualsOf(points, key, env), SigmaOf(points, key, env)) >= 0.5
       <==> 2 * |LowPoints(Values(points), levels, DeviationOf(Values(points), key, env))| >= |points|
  {
    var residuals, sigma := ResidualsOf(points, key, env), SigmaOf(points, key, env);
    assert forall i :: 0 <= i < |points| ==> residuals[i] == Values(points)[i] - levels[i];
    assert sigma == DeviationOf(Values(points), key, env);
    hide ResidualsOf, SigmaOf, BelowFraction, LowPoints, DeviationOf, AreLevels, Values;
    BelowFractionMeaning(residuals, Values(points), levels, sigma);
  }

  lemma RecommendNamesAction(metric: string, service: string, direction: int, ratio: real, below: real, env: Env)
    ensures var verb := Recommend(metric, service, direction, ratio, below, env).0.verb;
            && (direction == 1 ==> Answers(verb, metric, true))
            && (direction == -1 ==> if below >= 0.5 then Answers(verb, metric, false) else verb == "INVESTIGATE")
  {
    UpwardVerb(metric);
    DownwardVerb(metric);
    hide Confidence, Link, Explain, Answers, UpTemplate, DownTemplate;
  }

  lemma UpwardVerb(metric: string)
    ensures Answers(UpTemplate(metric).verb, metric, true)
  {
  }

  lemma DownwardVerb(metric: string)
    ensures Answers(DownTemplate(metric).verb, metric, false)
  {
  }

  /**
   The action of a report: of an upward alarm by the metric, of a downward one by the metric when at
   least half of the points lie a deviation under their levels, and otherwise INVESTIGATE.
   */
  lemma ReportNamesAction(points: seq<Datapoint>, key: Key, env: Env, levels: seq<real>)
    requires |points| > 0 && env.root > 0.0 && AreLevels(levels, points, key, env)
    ensures var v, rec := VerdictOf(points, key, env), Report(points, key, env).recommendation;
            && rec.Some?
            && (v.direction == 1 ==> Answers(rec.value.verb, key.1, true))
            && (v.direction == -1 ==>
                  if 2 * |LowPoints(Values(points), levels, DeviationOf(Values(points), key, env))| >= |points|
                  then Answers(rec.value.verb, key.1, false)
                  else rec.value.verb == "INVESTIGATE")
  {
    hide VerdictOf, ResidualsOf, SigmaOf, BelowFraction, Severity, Recommend, Answers, LowPoints, DeviationOf, AreLevels, Values;
    LowShare(points, key, env, levels);
    var v := VerdictOf(points, key, env);
    var below := if v.direction < 0
                 then BelowFraction(ResidualsOf(points, key, env), SigmaOf(points, key, env)) else 0.0;
    RecommendNamesAction(key.1, key.0, v.direction, v.ratio, below, env);
  }

  /** Whatever is recommended is recommended for the service, and its evidence is the service's. */
  lemma RecommendIsAboutService(metric: string, service: string, direction: int, ratio: real, below: real, env: Env)
    ensures var rec := Recommend(metric, service, direction, ratio, below, env).0;
            service <= rec.target && "https://dashboard.internal/metrics/" + service + "/" <= rec.evidence
  {
    hide Confidence, Explain, UpTemplate, DownTemplate;
  }

  // ---- What is answered to a steady departure ----

  lemma RootIsOverAQuarter(root: real)
    requires IsRoot(root, LIMIT_SQUARE)
    ensures 4.0 * root > 1.0
  {
    var quarter: real := 0.25;
    assert Square(quarter) == 0.0625;
    SquareCompare(root, quarter);
  }

  /** A breaching departure is larger than the trained deviation. */
  lemma BeyondDeviation(d: real, reach: real, sigma: real, root: real)
    requires IsRoot(root, LIMIT_SQUARE) && root > 0.0 && 0.0 < reach < 1.0
    requires Abs(d) * reach > LimitOf(sigma, root)
    ensures Abs(d) > sigma
  {
    var size, unit, over := Abs(d), if sigma <= 0.0 then 1.0 else sigma, 4.0 * root - 1.0;
    RootIsOverAQuarter(root);
    ProductIsPositive(over, unit);
    assert LimitOf(sigma, root) == unit + over * unit;
    var rest := 1.0 - reach;
    ProductSign(size, rest);
    assert size * rest == size - size * reach;
  }

  lemma {:induction false} AllLow(values: seq<real>, levels: seq<real>, d: real, sigma: real)
    requires |values| == |levels| && forall i :: 0 <= i < |values| ==> values[i] == levels[i] + d
    requires d < -sigma
    ensures |LowPoints(values, levels, sigma)| == |values|
  {
    var low := LowPoints(values, levels, sigma);
    if |values| == 0 {
      assert low == {};
    } else {
      var k := |values| - 1;
      AllLow(values[..k], levels[..k], d, sigma);
      assert low == LowPoints(values[..k], levels[..k], sigma) + {k};
    }
  }

  lemma SteadyPointsAreLow(points: seq<Datapoint>, key: Key, d: real, env: Env)
    requires key in env.baselines && d < -env.baselines[key].residStd
    requires forall i :: 0 <= i < |points| ==> points[i].service == key.0 && points[i].metric == key.1
    requires Steady(points, key, env.baselines[key], d)
    ensures var levels := LevelsOf(points, env.baselines[key]);
            && AreLevels(levels, points, key, env)
            && |LowPoints(Values(points), levels, DeviationOf(Values(points), key, env))| == |points|
  {
    AllLow(Values(points), LevelsOf(points, env.baselines[key]), d, env.baselines[key].residStd);
  }

  lemma SteadyBreachIsLow(n: nat, d: real, sigma: real, root: real)
    requires IsRoot(root, LIMIT_SQUARE) && root > 0.0 && n > 0 && d <= 0.0
    requires Strength(d, n) > LimitOf(sigma, root)
    ensures d < -sigma
  {
    ReachBounds(n);
    hide Reach, LimitOf, IsRoot;
    BeyondDeviation(d, Reach(n), sigma, root);
  }

  lemma SteadyPointsAreAnswered(points: seq<Datapoint>, key: Key, d: real, env: Env)
    requires env.Valid() && |points| > 0 && key in env.baselines
    requires forall i :: 0 <= i < |points| ==> points[i].service == key.0 && points[i].metric == key.1
    requires Steady(points, key, env.baselines[key], d)
    requires Strength(d, |points|) > LimitOf(env.baselines[key].residStd, env.root)
    requires VerdictOf(points, key, env).direction == if d > 0.0 then 1 else -1
    ensures var rec := Report(points, key, env).recommendation;
            rec.Some? && Answers(rec.value.verb, key.1, d > 0.0)
  {
    var levels := LevelsOf(points, env.baselines[key]);
    assert AreLevels(levels, points, key, env);
    hide Answers, Steady, VerdictOf, LimitOf, AreLevels, LowPoints, DeviationOf, Report, Strength, Values, LevelsOf;
    ReportNamesAction(points, key, env, levels);
    if d <= 0.0 {
      SteadyBreachIsLow(|points|, d, env.baselines[key].residStd, env.root);
      SteadyPointsAreLow(points, key, d, env);
    }
  }

  /** An alarming group that lies d from its season is answered for the side of d, by its metric. */
  lemma SteadyDepartureIsReported(signals: seq<Datapoint>, key: Key, d: real, env: Env)
    requires env.Valid() && key in env.baselines && Steady(signals, key, env.baselines[key], d)
    requires Alarms(signals, key, env)
    ensures var rec := ReportOf(signals, key, env).recommendation;
            rec.Some? && Answers(rec.value.verb, key.1, d > 0.0)
  {
    hide Answers, Steady, VerdictOf, LimitOf, Report, Strength, TimeOrder, Points, Alarms;
    var points := TimeOrder(Points(signals, key));
    SteadyDeparture(signals, key, d, env);
    GroupPoints(signals, key);
    SteadyGroup(signals, key, env.baselines[key], d);
    SteadyPointsAreAnswered(points, key, d, env);
    assert ReportOf(signals, key, env) == Report(points, key, env);
  }

  /** The one group that alarms is the one that is reported. */
  lemma OnlyAlarmIsReported(signals: seq<Datapoint>, key: Key, env: Env)
    requires env.root > 0.0 && Alarms(signals, key, env)
    requires forall k :: Alarms(signals, k, env) ==> k == key
    ensures Drift(signals, env) == ReportOf(signals, key, env)
  {
    AnomalyMeansSomeAlarm(signals, env);
    AnomalyIsReport(signals, env);
    hide Drift, ReportOf, Alarms;
  }

  /** The gated action: the metric's for the side of d, but INVESTIGATE for an upward departure near the limit. */
  ghost predicate IsGatedAnswer(verb: string, metric: string, d: real, n: nat, limit: real) {
    if d <= 0.0 || Strength(d, n) >= 49.0 / 30.0 * limit then Answers(verb, metric, d > 0.0) else verb == "INVESTIGATE"
  }

  /**
   The endpoint's answer to a steady departure d of the one alarming group: an anomaly, with the metric's
   action for that side, or INVESTIGATE for an upward one below 49/30 of the limit.
   */
  lemma SteadyDepartureIsAnswered(window: seq<Datapoint>, tenant: string, key: Key, d: real, env: Env)
    requires env.Valid() && key in env.baselines && Steady(window, key, env.baselines[key], d)
    requires Alarms(window, key, env) && forall k :: Alarms(window, k, env) ==> k == key
    requires PredictOutcome(window, Some(tenant), env).Answer?
    ensures var response := PredictOutcome(window, Some(tenant), env).response;
            var n, limit := |Points(window, key)|, LimitOf(env.baselines[key].residStd, env.root);
            && response.anomaly && response.recommendation.Some?
            && IsGatedAnswer(response.recommendation.value.verb, key.1, d, n, limit)
  {
    hide Answers, Steady, VerdictOf, LimitOf, Report, Strength, TimeOrder, Points, Gate, Drift, Alarms, PredictOutcome, ReportOf;
    var points := TimeOrder(Points(window, key));
    GroupPoints(window, key);
    OnlyAlarmIsReported(window, key, env);
    AnswerIsGated(window, tenant, key, env);
    SteadyDepartureIsReported(window, key, d, env);
    SteadyDeparture(window, key, d, env);
    ConfidentDeparture(window, key, d, env);
  }

  /** An upward departure is reported with confidence from 49/30 of the limit on. */
  lemma ConfidentDeparture(signals: seq<Datapoint>, key: Key, d: real, env: Env)
    requires env.Valid() && key in env.baselines && Steady(signals, key, env.baselines[key], d)
    requires Alarms(signals, key, env)
    ensures |TimeOrder(Points(signals, key))| > 0
    ensures VerdictOf(TimeOrder(Points(signals, key)), key, env).ratio >= CONFIDENT_RATIO
       <==> Strength(d, |Points(signals, key)|) >= 49.0 / 30.0 * LimitOf(env.baselines[key].residStd, env.root)
  {
    hide Steady, VerdictOf, LimitOf, Strength, TimeOrder, Points, Alarms;
    GroupPoints(signals, key);
    SteadyDeparture(signals, key, d, env);
    hide Ratio;
    ConfidentStrength(LimitOf(env.baselines[key].residStd, env.root), Strength(d, |Points(signals, key)|));
  }

  lemma ConfidentStrength(limit: real, strength: real)
    requires limit > 0.0
    ensures Ratio(strength, limit) >= CONFIDENT_RATIO <==> strength >= 49.0 / 30.0 * limit
  {
    ProductOrder(limit, Ratio(strength, limit), CONFIDENT_RATIO);
  }

  /** What passes the gate: any action of a downward alarm, and of an upward one from the confident ratio on. */
  lemma AnswerIsGated(window: seq<Datapoint>, tenant: string, key: Key, env: Env)
    requires env.root > 0.0 && Alarms(window, key, env) && Drift(window, env) == ReportOf(window, key, env)
    requires PredictOutcome(window, Some(tenant), env).Answer?
    ensures var v := VerdictOf(TimeOrder(Points(window, key)), key, env);
            var f, response := ReportOf(window, key, env), PredictOutcome(window, Some(tenant), env).response;
            && response.anomaly && response.recommendation.Some? && f.recommendation.Some?
            && var verb := response.recommendation.value.verb;
               if v.direction < 0 || v.ratio >= CONFIDENT_RATIO
               then verb == f.recommendation.value.verb else verb == "INVESTIGATE"
  {
    var points := TimeOrder(Points(window, key));
    GateKeepsExactlyWhen(points, key, env);
    ReportIsAnomaly(window, key, env);
    GateIsInvestigate(Report(points, key, env));
    hide VerdictOf, Report, TimeOrder, Points, Gate, Drift;
  }

  lemma GateIsInvestigate(f: Finding)
    ensures Gate(f) != f.recommendation ==> Gate(f).Some? && Gate(f).value.verb == "INVESTIGATE"
    ensures f.recommendation.Some? ==> Gate(f).Some?
  {
  }

  // ---- Higher values ----

  /** The same datapoint with its value not lowered. */
  predicate IsRaised(p: Datapoint, q: Datapoint) { q == p.(value := q.value) && p.value <= q.value }

  ghost predicate Raised(a: seq<Datapoint>, b: seq<Datapoint>) {
    |a| == |b| && forall i :: 0 <= i < |a| ==> IsRaised(a[i], b[i])
  }

  lemma {:induction false} PointsRaised(a: seq<Datapoint>, b: seq<Datapoint>, key: Key)
    requires Raised(a, b)
    ensures Raised(Points(a, key), Points(b, key))
  {
    if |a| == 0 {
    } else {
      var k := |a| - 1;
      PointsRaised(a[..k], b[..k], key);
      assert KeyOf(a[k]) == KeyOf(b[k]);
    }
  }

  lemma {:induction false} InsertRaised(p: Datapoint, q: Datapoint, a: seq<Datapoint>, b: seq<Datapoint>)
    requires IsRaised(p, q) && Raised(a, b)
    ensures Raised(StableSort.Insert(p, a, Earlier()), StableSort.Insert(q, b, Earlier()))
  {
    assert |a| > 0 ==> IsRaised(a[0], b[0]) && a[0].ts == b[0].ts;
    assert p.ts == q.ts;
    hide IsRaised;
    if |a| == 0 || p.ts <= a[0].ts {
    } else {
      InsertRaised(p, q, a[1..], b[1..]);
    }
  }

  lemma {:induction false} TimeOrderRaised(a: seq<Datapoint>, b: seq<Datapoint>)
    requires Raised(a, b)
    ensures Raised(TimeOrder(a), TimeOrder(b))
  {
    hide IsRaised;
    if |a| == 0 {
    } else {
      TimeOrderRaised(a[1..], b[1..]);
      InsertRaised(a[0], b[0], TimeOrder(a[1..]), TimeOrder(b[1..]));
    }
  }

  lemma {:induction false} DotGrows(w: seq<real>, a: seq<real>, b: seq<real>)
    requires |w| == |a| == |b|
    requires forall i :: 0 <= i < |w| ==> w[i] >= 0.0 && a[i] <= b[i]
    ensures Dot(w, a) <= Dot(w, b)
  {
    if |w| == 0 {
    } else {
      var k := |w| - 1;
      DotGrows(w[..k], a[..k], b[..k]);
      var rise := b[k] - a[k];
      ProductSign(w[k], rise);
      assert w[k] * b[k] == w[k] * a[k] + w[k] * rise;
    }
  }

  lemma WeightsAreNonNegative(n: nat)
    ensures forall i :: 0 <= i < n ==> Weights(n)[i] >= 0.0
  {
    forall i | 0 <= i < n ensures Weights(n)[i] >= 0.0 {
      PowBounds(n - 1 - i);
    }
  }

  /** Of two statistics under one limit, the higher one is the more upward and the less downward. */
  lemma HigherIsMoreUpward(v: Verdict, w: Verdict, z: real, z': real, limit: real)
    requires limit > 0.0 && z <= z' && IsVerdict(v, z, limit) && IsVerdict(w, z', limit)
    ensures v.direction == 1 ==> w.direction == 1 && v.ratio <= w.ratio
    ensures w.direction == -1 ==> v.direction == -1 && w.ratio <= v.ratio
  {
    hide Ratio;
    if v.direction == 1 {
      QuotientIsUnique(z, limit, v.ratio);
      QuotientIsUnique(z', limit, w.ratio);
      QuotientOrder(z, z', limit);
    }
    if w.direction == -1 {
      QuotientIsUnique(-z, limit, v.ratio);
      QuotientIsUnique(-z', limit, w.ratio);
      QuotientOrder(-z', -z, limit);
    }
  }

  lemma RaisedVerdict(a: seq<Datapoint>, b: seq<Datapoint>, key: Key, env: Env)
    requires Raised(a, b) && |a| > 0 && env.root > 0.0 && key in env.baselines
    ensures var v, w := VerdictOf(a, key, env), VerdictOf(b, key, env);
            && (v.direction == 1 ==> w.direction == 1 && v.ratio <= w.ratio)
            && (w.direction == -1 ==> v.direction == -1 && w.ratio <= v.ratio)
  {
    hide IsVerdict, LimitOf, Dot, Weights, VerdictOf;
    var baseline := env.baselines[key];
    var levels := LevelsOf(a, baseline);
    assert AreSeasonal(levels, b, baseline);
    TrainedVerdict(a, key, env, Values(a), levels);
    TrainedVerdict(b, key, env, Values(b), levels);
    WeightsAreNonNegative(|a|);
    DotGrows(Weights(|a|), Values(a), Values(b));
    HigherIsMoreUpward(VerdictOf(a, key, env), VerdictOf(b, key, env),
      Dot(Weights(|a|), Values(a)) - Dot(Weights(|a|), levels), Dot(Weights(|a|), Values(b)) - Dot(Weights(|a|), levels),
      LimitOf(baseline.residStd, env.root));
  }

  lemma BreachHasSide(points: seq<Datapoint>, key: Key, env: Env)
    requires |points| > 0 && env.root > 0.0
    ensures var v := VerdictOf(points, key, env); v.breached <==> v.direction != 0
  {
    VerdictMeaning(ResidualsOf(points, key, env), SigmaOf(points, key, env), env.root);
  }

  /** The verdict on a group as it was delivered. */
  function GroupVerdictOf(signals: seq<Datapoint>, key: Key, env: Env): Verdict
    requires env.root > 0.0 && Alarms(signals, key, env)
  {
    VerdictOf(TimeOrder(Points(signals, key)), key, env)
  }

  /**
   Raising values of a trained group never turns an upward alarm off and never weakens it; lowering them
   never turns a downward one off and never weakens it.
   */
  lemma RaisingKeepsUpwardAlarms(low: seq<Datapoint>, high: seq<Datapoint>, key: Key, env: Env)
    requires Raised(low, high) && env.root > 0.0 && key in env.baselines
    ensures Alarms(low, key, env) && GroupVerdictOf(low, key, env).direction == 1 ==>
              && Alarms(high, key, env) && GroupVerdictOf(high, key, env).direction == 1
              && GroupVerdictOf(low, key, env).ratio <= GroupVerdictOf(high, key, env).ratio
    ensures Alarms(high, key, env) && GroupVerdictOf(high, key, env).direction == -1 ==>
              && Alarms(low, key, env) && GroupVerdictOf(low, key, env).direction == -1
              && GroupVerdictOf(high, key, env).ratio <= GroupVerdictOf(low, key, env).ratio
  {
    PointsRaised(low, high, key);
    TimeOrderRaised(Points(low, key), Points(high, key));
    var a, b := TimeOrder(Points(low, key)), TimeOrder(Points(high, key));
    if |a| >= MIN_POINTS {
      RaisedVerdict(a, b, key, env);
      BreachHasSide(a, key, env);
      BreachHasSide(b, key, env);
    }
    assert |a| == |b|;
    hide TimeOrder, Points, VerdictOf, Raised;
  }
}