/**
 What a prediction job of src/prediction_worker/app.py comes to, said about its inputs: the metric
 buckets, the trained season, the policy and the requested lookback.
 */
module JobMeaning {
  import opened Wrappers
  import opened RealArith
  import opened Signals
  import opened SignalWindow
  import opened MetricFallback
  import opened FallbackMeaning
  import opened PredictionJob
  import opened Json
  import BucketAlignment
  import DriftAnswers
  import DriftDetector
  import PredictService
  import PromQl
  import PythonText
  import Rounding

  /** The worker queries the metrics that the dashboard shows, and the rules weigh exactly these. */
  lemma TablesAgree(metric: string)
    ensures metric in SIGNALS <==> metric in PromQl.METRIC_TYPES
    ensures metric in SIGNALS <==> MetricPriority(metric) > 0
  {
    if metric in SIGNALS {
      var i :| 0 <= i < |SIGNALS| && SIGNALS[i] == metric;
      assert metric == PromQl.METRIC_TYPES[i];
    }
    if metric in PromQl.METRIC_TYPES {
      var i :| 0 <= i < |PromQl.METRIC_TYPES| && PromQl.METRIC_TYPES[i] == metric;
      assert metric == SIGNALS[i];
    }
    MetricIsPlace(metric);
    PlacesAreSignals(metric);
  }

  lemma PlacesAreSignals(metric: string)
    ensures metric in SIGNALS <==> metric in METRICS
  {
    assert SIGNALS == [METRICS[3], METRICS[4], METRICS[5], METRICS[1], METRICS[0], METRICS[6], METRICS[2]];
  }

  // ---- The request ----

  /** The whole number that int() makes of a JSON value. */
  ghost predicate Means(value: Json, n: int) {
    match value
    case Null => n == 120
    case Int(k) => k == n
    case Float(x) => if x >= 0.0 then n as real <= x < (n + 1) as real else (n - 1) as real < x <= n as real
    case Bool(b) => n == if b then 1 else 0
    case Str(s) => PythonText.Denotes(s, n)
    case List(_) => false
    case Object(_) => false
  }

  /** A lookback is accepted exactly when it means 30 or 120, and then it is that. */
  lemma LookbackMeaning(value: Json, n: nat)
    ensures LookbackOf(value) == Some(n) <==> (n == 30 || n == 120) && Means(value, n)
  {
    hide PythonText.Denotes, PythonText.ParseInt;
    if value.Str? {
      PythonText.ParseIntMeaning(value.s, n);
    }
  }

  // ---- Complete and partial windows ----

  lemma {:induction false} MaxGapIsZero(data: seq<SignalData>)
    requires forall i :: 0 <= i < |data| ==> data[i].gapRatio >= 0.0
    ensures MaxGap(data) >= 0.0
    ensures MaxGap(data) == 0.0 <==> forall i :: 0 <= i < |data| ==> data[i].gapRatio == 0.0
  {
    if |data| == 0 {
    } else {
      var k := |data| - 1;
      MaxGapIsZero(data[..k]);
      assert forall i :: 0 <= i < k ==> data[..k][i] == data[i];
    }
  }

  /** Every minute of the signal's window has a sample. */
  ghost predicate FullySampled(s: SignalData, raw: seq<seq<BucketAlignment.Sample>>) {
    forall k :: 0 <= k < |s.buckets| ==> IsSampled(BucketAlignment.Flatten(raw), s.buckets[k].ts)
  }

  lemma GapIsMissingMinute(s: SignalData, raw: seq<seq<BucketAlignment.Sample>>, now: int, d: nat)
    requires AlignedSignal(s, raw, now, d)
    ensures s.gapRatio >= 0.0 && (s.gapRatio == 0.0 <==> FullySampled(s, raw))
  {
    var samples, minutes := BucketAlignment.Flatten(raw), Minutes(now, d);
    var actual := BucketAlignment.ActualData(samples, STEP);
    WindowHasOneMoreBucket(now, d);
    BucketAlignment.GapRatioMeaning(actual, minutes);
    forall k | 0 <= k < |minutes| ensures s.buckets[k].ts == minutes[k]
                                  ensures minutes[k] in actual <==> IsSampled(samples, minutes[k]) {
      BucketAlignment.ActualDataMeaning(samples, STEP, minutes[k]);
    }
    hide BucketAlignment.ActualData, IsSampled, Minutes, BucketAlignment.GapRatio, BucketAlignment.Missing;
  }

  /** The audited evidence is a complete window exactly when every minute of every signal was sampled. */
  lemma EvidenceMeaning(data: seq<SignalData>, raw: seq<seq<seq<BucketAlignment.Sample>>>, now: int, d: nat)
    requires |raw| == |data| && forall i :: 0 <= i < |data| ==> AlignedSignal(data[i], raw[i], now, d)
    ensures EvidenceOf(data) == if forall i :: 0 <= i < |data| ==> FullySampled(data[i], raw[i])
                                then "complete_window" else "partial_window"
  {
    hide AlignedSignal, FullySampled;
    forall i | 0 <= i < |data|
      ensures data[i].gapRatio >= 0.0 && (data[i].gapRatio == 0.0 <==> FullySampled(data[i], raw[i]))
    {
      GapIsMissingMinute(data[i], raw[i], now, d);
    }
    MaxGapIsZero(data);
  }

  // ---- The static threshold ----

  /** Some rule of the service finds its metric measured. */
  ghost predicate HasReading(data: seq<SignalData>, service: string) {
    exists i :: 0 <= i < |DefaultRules(service)| && HasReal(DefaultRules(service)[i], MetricsOf(data))
  }

  lemma MapsAreDistinct(data: seq<SignalData>)
    requires forall i :: 0 <= i < |data| ==> DistinctMinutes(data[i].buckets)
    ensures DistinctAll(MetricsOf(data))
  {
    if |data| > 0 {
      MapsAreDistinct(data[..|data| - 1]);
    }
  }

  lemma CoveredMinutesAreDistinct(data: seq<SignalData>, now: int, d: nat)
    requires Covers(data, now, d)
    ensures DistinctAll(MetricsOf(data))
  {
    forall i | 0 <= i < |data| ensures DistinctMinutes(data[i].buckets) {
      var buckets := data[i].buckets;
      forall j, k | 0 <= j < k < |buckets| ensures buckets[j].ts != buckets[k].ts {
        assert (d - j) * STEP != (d - k) * STEP;
      }
    }
    MapsAreDistinct(data);
  }

  /**
   Without a measured rule, the policy's threshold (85 without a policy) decides: above 80 the service is
   scaled up as an anomaly, otherwise it is kept alive, with the threshold as score and percentage.
   */
  lemma StaticThresholdDecides(job: Job, data: seq<SignalData>, now: int, d: nat, reply: Reply, policy: Option<real>, l: Locals)
    requires Covers(data, now, d) && Outcome(job, data, reply, policy, l) && l.source == FALLBACK
    requires !HasReading(data, job.service)
    ensures var t := if policy.Some? then policy.value else 85.0;
            && l.score == t && l.severity * 100.0 == t
            && (l.anomaly <==> t > 80.0)
            && l.decision == if t > 80.0 then "SCALE_UP" else "KEEP_ALIVE"
  {
    hide Covers, Decides, DefaultRules, MetricsOf, AfterCall;
    CoveredMinutesAreDistinct(data, now, d);
    var metric :| && Decides(DefaultRules(job.service), MetricsOf(data), job.tenant, job.service, metric)
                  && l == Audited(data, reply, metric, policy);
    DecisionOverMetrics(DefaultRules(job.service), MetricsOf(data), job.tenant, job.service, metric);
    hide Governs, Broken, HasReal;
  }

  /** With a measured rule, the job's decision on the fallback path is an anomaly exactly when a rule is broken. */
  lemma RulesDecide(job: Job, data: seq<SignalData>, now: int, d: nat, reply: Reply, policy: Option<real>, l: Locals)
    requires Covers(data, now, d) && Outcome(job, data, reply, policy, l) && l.source == FALLBACK
    requires HasReading(data, job.service)
    ensures var rules, m := DefaultRules(job.service), MetricsOf(data);
            && (l.anomaly <==> exists i :: 0 <= i < |rules| && Broken(rules[i], m))
            && (!l.anomaly ==> l.decision == "KEEP_ALIVE")
            && (l.anomaly ==> exists i: nat :: Governs(rules, m, i) && l.decision == rules[i].action)
            && (IsCritical(m, job.service) ==> l.anomaly && l.decision == "SCALE_UP" && l.score == 100.0)
  {
    hide Covers, Decides, DefaultRules, MetricsOf, AfterCall, IsCritical, OptionJson;
    CoveredMinutesAreDistinct(data, now, d);
    var rules, m := DefaultRules(job.service), MetricsOf(data);
    var metric :| Decides(rules, m, job.tenant, job.service, metric) && l == Audited(data, reply, metric, policy);
    DecisionOverMetrics(rules, m, job.tenant, job.service, metric);
    if IsCritical(m, job.service) {
      CriticalMetricScalesUp(m, job.tenant, job.service, metric);
    }
    hide Governs, Broken, HasReal;
  }

  // ---- The engine's path ----

  /** The audited status of the engine is that of its reply, or 0 when it was not asked or the call raised. */
  lemma EngineStatusMeaning(job: Job, data: seq<SignalData>, reply: Reply, policy: Option<real>, l: Locals)
    requires Outcome(job, data, reply, policy, l)
    ensures l.engineStatus == if AsksEngine(data) && reply.Replied? then reply.status else 0
  {
    hide Decides, DefaultRules, MetricsOf, OptionJson, MaxGap;
  }

  /** An adopted anomaly is alerted for capacity, and otherwise from 2.385 times the control limit on. */
  lemma EngineAlertExactlyWhen(points: seq<Datapoint>, key: DriftDetector.Key, env: DriftDetector.Env, l: Locals)
    requires |points| > 0 && env.root > 0.0
    requires l.anomaly && l.severity == DriftDetector.Report(points, key, env).severity
    ensures Alerts(l) <==> || l.decision == "SCALE_UP" || l.decision == "RETIRE"
                           || DriftDetector.VerdictOf(points, key, env).ratio >= 2.385
  {
    SeverityIsHigh(DriftDetector.VerdictOf(points, key, env).ratio);
    hide DriftDetector.VerdictOf, DriftDetector.Recommend, DriftDetector.Severity, DriftDetector.BelowFraction,
      DriftDetector.ResidualsOf, DriftDetector.SigmaOf;
  }

  lemma SeverityIsHigh(ratio: real)
    ensures DriftDetector.Severity(ratio) >= 0.8 <==> ratio >= 2.385
  {
    Rounding.Round2Reaches(DriftDetector.Min(ratio / 3.0, 1.0), 80);
    hide Rounding.Round2;
  }

  /** The engine answers, as PredictService.Predict does, with an audit id. */
  ghost predicate RepliesOf(reply: Reply, data: seq<SignalData>, job: Job, env: DriftDetector.Env, auditId: string)
    requires env.root > 0.0
  {
    var o := PredictService.PredictOutcome(Payload(data, job.tenant, job.service), Some(job.tenant), env);
    o.Answer? && reply == Replied(200, Some(ResponseJson(o.response, auditId)))
  }

  /** What is adopted is what was answered, verb and all. */
  lemma AdoptedVerb(l: Locals, r: PredictService.Response)
    requires Adopted(l, r) && r.recommendation.Some?
    ensures l.decision == r.recommendation.value.verb
  {
  }

  /**
   Signal i has a trained season, all its buckets lie delta from it, and that is beyond the control limit,
   weakened by the chart's slow start over d + 1 minutes.
   */
  ghost predicate IsDeparture(job: Job, data: seq<SignalData>, now: int, d: nat, i: nat, delta: real,
                              env: DriftDetector.Env)
  {
    && env.Valid() && Covers(data, now, d) && i < |data| && d >= 2
    && (forall j, k :: 0 <= j < k < |data| ==> data[j].signal != data[k].signal)
    && var key := (job.service, data[i].signal);
       && key in env.baselines && Departs(data[i].buckets, env.baselines[key], delta)
       && DriftAnswers.Strength(delta, d + 1) > DriftAnswers.LimitOf(env.baselines[key].residStd, env.root)
  }

  lemma DepartureIsSteady(job: Job, data: seq<SignalData>, now: int, d: nat, i: nat, delta: real,
                          env: DriftDetector.Env)
    requires IsDeparture(job, data, now, d, i, delta, env)
    ensures env.Valid() && i < |data| && (job.service, data[i].signal) in env.baselines
    ensures var w, key := Payload(data, job.tenant, job.service), (job.service, data[i].signal);
            && DriftDetector.Alarms(w, key, env) && |DriftDetector.Points(w, key)| == d + 1
            && DriftAnswers.Steady(w, key, env.baselines[key], delta)
  {
    assert env.root > 0.0;
    hide Covers, Departs, DriftAnswers.Strength, DriftAnswers.LimitOf, DriftAnswers.Steady, DriftDetector.Alarms,
      DriftDetector.Points, DriftDetector.TimeOrder, DriftDetector.VerdictOf, Payload, Reports;
    WorkerSeesDeparture(data, job.tenant, job.service, now, d, i, delta, env);
    WindowIsSteady(data, job.tenant, job.service, i, delta, env.baselines[(job.service, data[i].signal)]);
    EngineJudgesBuckets(data, job.tenant, job.service, now, d, i);
  }

  /** No other group of the window alarms. */
  ghost predicate IsOnlyAlarm(w: seq<Datapoint>, key: DriftDetector.Key, env: DriftDetector.Env)
    requires env.root > 0.0
  {
    forall k :: DriftDetector.Alarms(w, k, env) ==> k == key
  }

  /**
   From measurements to the audited decision: a departure of a trained signal that is the only alarm is
   audited as an anomaly of the engine, with the metric's action for the side of the departure, or
   INVESTIGATE for an upward one below 49/30 of the limit.
   */
  lemma JobSeesDeparture(job: Job, data: seq<SignalData>, now: int, d: nat, i: nat, delta: real,
                         env: DriftDetector.Env, auditId: string, reply: Reply, policy: Option<real>, l: Locals)
    requires IsDeparture(job, data, now, d, i, delta, env) && AsksEngine(data)
    requires IsOnlyAlarm(Payload(data, job.tenant, job.service), (job.service, data[i].signal), env)
    requires RepliesOf(reply, data, job, env, auditId) && Outcome(job, data, reply, policy, l)
    ensures l.source == ENGINE && l.anomaly
    ensures DriftAnswers.IsGatedAnswer(l.decision, data[i].signal, delta, d + 1,
              DriftAnswers.LimitOf(env.baselines[(job.service, data[i].signal)].residStd, env.root))
  {
    hide Payload, DriftAnswers.IsGatedAnswer, DriftAnswers.LimitOf, DriftAnswers.Steady, DriftDetector.Alarms,
      DriftDetector.Points, DriftAnswers.Strength, Departs, Covers, Outcome, AsksEngine, PredictService.PredictOutcome,
      IsDeparture, IsOnlyAlarm;
    DepartureIsSteady(job, data, now, d, i, delta, env);
    var w, key := Payload(data, job.tenant, job.service), (job.service, data[i].signal);
    DepartureIsAdopted(job, data, env, auditId, reply, policy, l);
    SteadyWindowIsAnswered(w, job.tenant, key, delta, d + 1, env);
  }

  lemma SteadyWindowIsAnswered(w: seq<Datapoint>, tenant: string, key: DriftDetector.Key, delta: real, n: nat,
                               env: DriftDetector.Env)
    requires env.Valid() && key in env.baselines && DriftAnswers.Steady(w, key, env.baselines[key], delta)
    requires DriftDetector.Alarms(w, key, env) && IsOnlyAlarm(w, key, env) && |DriftDetector.Points(w, key)| == n
    requires PredictService.PredictOutcome(w, Some(tenant), env).Answer?
    ensures var r := PredictService.PredictOutcome(w, Some(tenant), env).response;
            && r.anomaly && r.recommendation.Some?
            && DriftAnswers.IsGatedAnswer(r.recommendation.value.verb, key.1, delta, n,
                 DriftAnswers.LimitOf(env.baselines[key].residStd, env.root))
  {
    hide DriftDetector.Alarms, DriftAnswers.Steady, PredictService.PredictOutcome, DriftAnswers.IsGatedAnswer,
      DriftAnswers.LimitOf, DriftDetector.Points;
    DriftAnswers.SteadyDepartureIsAnswered(w, tenant, key, delta, env);
  }

  lemma DepartureIsAdopted(job: Job, data: seq<SignalData>, env: DriftDetector.Env, auditId: string, reply: Reply,
                           policy: Option<real>, l: Locals)
    requires env.root > 0.0 && AsksEngine(data)
    requires RepliesOf(reply, data, job, env, auditId) && Outcome(job, data, reply, policy, l)
    ensures var o := PredictService.PredictOutcome(Payload(data, job.tenant, job.service), Some(job.tenant), env);
            && o.Answer? && l.source == ENGINE && l.anomaly == o.response.anomaly
            && (o.response.recommendation.Some? ==> l.decision == o.response.recommendation.value.verb)
  {
    hide Payload, PredictService.PredictOutcome, ResponseJson, Adopted, IsWritable, Audited, Outcome, AsksEngine;
    var w := Payload(data, job.tenant, job.service);
    var r := PredictService.PredictOutcome(w, Some(job.tenant), env).response;
    EngineAnswersAreAdopted(data, w, Some(job.tenant), env, auditId, None, policy);
    AdoptionIsOutcome(job, data, reply, policy, l, r, auditId);
    if r.recommendation.Some? {
      AdoptedVerb(l, r);
    }
  }

  lemma AdoptionIsOutcome(job: Job, data: seq<SignalData>, reply: Reply, policy: Option<real>, l: Locals,
                          r: PredictService.Response, auditId: string)
    requires reply == Replied(200, Some(ResponseJson(r, auditId))) && Outcome(job, data, reply, policy, l)
    requires Adopted(Audited(data, reply, None, policy), r)
    ensures Adopted(l, r) && l.source == ENGINE && l.anomaly == r.anomaly
  {
    hide AfterCall, ResponseJson, Decides, DefaultRules, MetricsOf;
  }
}
