/**
 AnomalyDetector.detect_drift of src/ai_engine/app/engine.py: datapoints are grouped by service
 and metric, each group is put in time order and judged by the EWMA chart against its trained
 baseline or, without one, against its own mean and deviation.  The first breaching group wins.
 */
module DriftDetector {
  import opened Wrappers
  import opened RealArith
  import opened Signals
  import opened Ewma
  import EwmaThreshold
  import Rounding
  import StableSort

  const MIN_POINTS := 3

  type Key = (string, string)

  /** A trained profile has at least one entry, otherwise the source's modulo has no meaning. */
  datatype RawBaseline = RawBaseline(profile: seq<real>, residStd: real)
  type Baseline = b: RawBaseline | |b.profile| > 0 witness RawBaseline([0.0], 1.0)

  /** What the detector is given from outside: baselines, np.std, the limit root and "%.2f". */
  datatype Env = Env(baselines: map<Key, Baseline>, std: seq<real> -> real, root: real, show: real -> string)
  {
    ghost predicate Valid() {
      && IsRoot(root, LIMIT_SQUARE) && root > 0.0
      && forall values: seq<real> :: |values| > 0 ==> IsRoot(std(values), EwmaThreshold.Variance(values))
    }
  }

  datatype Finding = Finding(anomaly: bool, severity: real, recommendation: Option<Recommendation>,
                             reasoning: string, confidence: real)

  const NO_SIGNALS := Finding(false, 0.0, None, "No signals provided", 1.0)
  const NO_ANOMALY := Finding(false, 0.0, None, "No anomaly detected (EWMA within control limits).", 0.95)

  // ---- Grouping ----

  function KeyOf(p: Datapoint): Key { (p.service, p.metric) }

  /** The groups in the order in which a datapoint of theirs first occurs. */
  function Keys(signals: seq<Datapoint>): seq<Key> {
    if |signals| == 0 then []
    else
      var before := Keys(signals[..|signals| - 1]);
      var key := KeyOf(signals[|signals| - 1]);
      if key in before then before else before + [key]
  }

  function Points(signals: seq<Datapoint>, key: Key): seq<Datapoint> {
    if |signals| == 0 then []
    else
      var before := Points(signals[..|signals| - 1], key);
      var last := signals[|signals| - 1];
      if KeyOf(last) == key then before + [last] else before
  }

  function Earlier(): (Datapoint, Datapoint) -> bool {
    (p: Datapoint, q: Datapoint) => p.ts <= q.ts
  }

  function TimeOrder(points: seq<Datapoint>): seq<Datapoint> {
    StableSort.Sort(points, Earlier())
  }

  function Values(points: seq<Datapoint>): (r: seq<real>)
    ensures |r| == |points|
  {
    seq(|points|, i requires 0 <= i < |points| => points[i].value)
  }

  // ---- Judging one group ----

  function SeasonalResiduals(points: seq<Datapoint>, b: Baseline): (r: seq<real>)
    ensures |r| == |points|
  {
    seq(|points|, i requires 0 <= i < |points| =>
      points[i].value - b.profile[points[i].minuteOfDay % |b.profile|])
  }

  function ResidualsOf(points: seq<Datapoint>, key: Key, env: Env): (r: seq<real>)
    requires |points| > 0
    ensures |r| == |points|
  {
    if key in env.baselines then SeasonalResiduals(points, env.baselines[key])
    else EwmaThreshold.Centred(Values(points))
  }

  function SigmaOf(points: seq<Datapoint>, key: Key, env: Env): real {
    if key in env.baselines then env.baselines[key].residStd
    else
      var std := env.std(Values(points));
      if std == 0.0 then 1.0 else std
  }

  function VerdictOf(points: seq<Datapoint>, key: Key, env: Env): Verdict
    requires |points| > 0 && env.root > 0.0
  {
    Chart(ResidualsOf(points, key, env), SigmaOf(points, key, env), env.root)
  }

  /** Whether the group raises the alarm. */
  predicate Alarms(signals: seq<Datapoint>, key: Key, env: Env)
    requires env.root > 0.0
  {
    var points := TimeOrder(Points(signals, key));
    |points| >= MIN_POINTS && VerdictOf(points, key, env).breached
  }

  function CountBelow(residuals: seq<real>, bound: real): (n: nat)
    ensures n <= |residuals|
  {
    if |residuals| == 0 then 0
    else
      var k := |residuals| - 1;
      CountBelow(residuals[..k], bound) + if residuals[k] < bound then 1 else 0
  }

  /** np.mean(residuals < -sigma). */
  function BelowFraction(residuals: seq<real>, sigma: real): real
    requires |residuals| > 0
  {
    Ratio(CountBelow(residuals, -sigma) as real, |residuals| as real)
  }

  function Min(x: real, y: real): real { if x <= y then x else y }

  function Link(service: string, slug: string): string {
    "https://dashboard.internal/metrics/" + service + "/" + slug
  }

  function Explain(reason: string, service: string, ratio: real, env: Env): string {
    reason + " (service=" + service + ", EWMA=" + env.show(ratio) + "x control limit)"
  }

  const IDLE_METRICS := {"queue_depth", "active_connections", "db_connection_pool_pct"}

  datatype Template = Template(verb: string, suffix: string, fromTo: string, slug: string, reason: string)

  function UpTemplate(metric: string): Template {
    if metric == "cpu_usage_percent" then
      Template("SCALE_UP", "ECS Service", "Current -> +2 Tasks", "cpu",
               "CPU drift detected. Scale out ECS service.")
    else if metric == "queue_depth" then
      Template("SCALE_UP", "SQS Workers", "Current -> +5 Workers", "queue",
               "Queue backlog building. Increase worker concurrency.")
    else if metric == "memory_usage_percent" then
      Template("ROLLBACK", "Deployment", "v_latest -> v_previous", "mem",
               "Memory drift toward OOM (suspected leak). Roll back recent deploy.")
    else
      Template("INVESTIGATE", "Resource", "N/A", "metric", "Anomalous drift detected.")
  }

  function DownTemplate(metric: string): Template {
    if metric in IDLE_METRICS then
      Template("RETIRE", "idle queue/pool", "active -> retired", metric,
               "Sustained near-idle resource; retire to reclaim capacity.")
    else
      Template("SCALE_DOWN", "ECS Service", "Current -> -1 Task", metric,
               "Sustained under-utilisation; scale down to right-size cost.")
  }

  function Confidence(ratio: real): real {
    if ratio >= 1.0 then Rounding.Round2(Min(0.99, 0.6 + 0.15 * (ratio - 1.0))) else 0.6
  }

  /** _recommend: the action, its explanation and the confidence in it. */
  function Recommend(metric: string, service: string, direction: int, ratio: real, belowFraction: real,
                     env: Env): (Recommendation, string)
  {
    if direction < 0 then
      if belowFraction >= 0.5 then
        var t := DownTemplate(metric);
        (Recommendation(t.verb, service + " " + t.suffix, t.fromTo, 0.75, Link(service, t.slug)),
         Explain(t.reason, service, ratio, env))
      else
        (Recommendation("INVESTIGATE", service, "N/A", 0.8, Link(service, metric)),
         "Sudden drop in " + metric + " for " + service + ". Possible degradation/outage.")
    else
      var t := UpTemplate(metric);
      (Recommendation(t.verb, service + " " + t.suffix, t.fromTo, Confidence(ratio), Link(service, t.slug)),
       Explain(t.reason, service, ratio, env))
  }

  function Severity(ratio: real): real {
    Rounding.Round2(Min(ratio / 3.0, 1.0))
  }

  function Report(points: seq<Datapoint>, key: Key, env: Env): Finding
    requires |points| > 0 && env.root > 0.0
  {
    var v := VerdictOf(points, key, env);
    var below := if v.direction < 0
                 then BelowFraction(ResidualsOf(points, key, env), SigmaOf(points, key, env)) else 0.0;
    var (rec, why) := Recommend(key.1, key.0, v.direction, v.ratio, below, env);
    Finding(true, Severity(v.ratio), Some(rec), why, rec.confidence)
  }

  /** The report of the first of the given groups that alarms. */
  function FirstAlarm(signals: seq<Datapoint>, keys: seq<Key>, env: Env): Finding
    requires env.root > 0.0
  {
    if |keys| == 0 then NO_ANOMALY
    else if Alarms(signals, keys[0], env) then Report(TimeOrder(Points(signals, keys[0])), keys[0], env)
    else FirstAlarm(signals, keys[1..], env)
  }

  function Drift(signals: seq<Datapoint>, env: Env): Finding
    requires env.root > 0.0
  {
    if |signals| == 0 then NO_SIGNALS else FirstAlarm(signals, Keys(signals), env)
  }

  // ---- The detector ----

  /** The dictionary of groups, with the order in which its keys were entered. */
  method GroupSignals(signals: seq<Datapoint>) returns (order: seq<Key>, groups: map<Key, seq<Datapoint>>)
    ensures order == Keys(signals)
    ensures forall k :: k in order ==> k in groups && groups[k] == Points(signals, k)
  {
    order, groups := [], map[];
    for i := 0 to |signals|
      invariant order == Keys(signals[..i])
      invariant forall k :: k in groups <==> k in order
      invariant forall k :: k in order ==> groups[k] == Points(signals[..i], k)
      invariant forall k :: k !in order ==> Points(signals[..i], k) == []
    {
      assert signals[..i + 1][..i] == signals[..i];
      var p := signals[i];
      var key := KeyOf(p);
      if key !in groups {
        groups := groups[key := []];
        order := order + [key];
      }
      groups := groups[key := groups[key] + [p]];
    }
    assert signals[..|signals|] == signals;
  }

  method DetectDrift(signals: seq<Datapoint>, env: Env) returns (f: Finding)
    requires env.root > 0.0
    ensures f == Drift(signals, env)
  {
    if |signals| == 0 {
      return NO_SIGNALS;
    }
    var order, groups := GroupSignals(signals);
    for g := 0 to |order|
      invariant FirstAlarm(signals, order, env) == FirstAlarm(signals, order[g..], env)
    {
      assert order[g..][0] == order[g] && order[g..][1..] == order[g + 1..];
      var key := order[g];
      var pts := StableSort.Sort(groups[key], Earlier());
      if |pts| < MIN_POINTS {
        continue;
      }
      var residuals: seq<real>;
      var sigma: real;
      if key in env.baselines {
        residuals := SeasonalResiduals(pts, env.baselines[key]);
        sigma := env.baselines[key].residStd;
      } else {
        residuals := EwmaThreshold.Centred(Values(pts));
        sigma := env.std(Values(pts));
        if sigma == 0.0 {
          sigma := 1.0;
        }
      }
      assert residuals == ResidualsOf(pts, key, env) && sigma == SigmaOf(pts, key, env);
      hide ResidualsOf, SigmaOf, Chart;
      var v := EwmaBreach(residuals, sigma, env.root);
      if v.breached {
        var below := if v.direction < 0 then BelowFraction(residuals, sigma) else 0.0;
        var (rec, why) := Recommend(key.1, key.0, v.direction, v.ratio, below, env);
        hide Recommend, Severity, BelowFraction;
        return Finding(true, Severity(v.ratio), Some(rec), why, rec.confidence);
      }
    }
    assert order[|order|..] == [];
    return NO_ANOMALY;
  }

  // ---- What a finding means ----

  lemma {:induction false} KeysAreGroups(signals: seq<Datapoint>, key: Key)
    ensures key in Keys(signals) <==> exists i :: 0 <= i < |signals| && KeyOf(signals[i]) == key
    ensures key in Keys(signals) <==> Points(signals, key) != []
  {
    if |signals| == 0 {
    } else {
      var k := |signals| - 1;
      KeysAreGroups(signals[..k], key);
      assert signals[k] == signals[|signals| - 1];
      if key in Keys(signals[..k]) {
        var i :| 0 <= i < |signals[..k]| && KeyOf(signals[..k][i]) == key;
        assert KeyOf(signals[i]) == key;
      } else {
        forall i | 0 <= i < k ensures KeyOf(signals[i]) != key {
          assert signals[..k][i] == signals[i];
        }
      }
    }
  }

  lemma {:induction false} FirstAlarmFinds(signals: seq<Datapoint>, keys: seq<Key>, env: Env)
    requires env.root > 0.0
    ensures FirstAlarm(signals, keys, env).anomaly
      <==> exists i :: 0 <= i < |keys| && Alarms(signals, keys[i], env)
  {
    if |keys| == 0 {
    } else if Alarms(signals, keys[0], env) {
    } else {
      FirstAlarmFinds(signals, keys[1..], env);
      if FirstAlarm(signals, keys[1..], env).anomaly {
        var i :| 0 <= i < |keys[1..]| && Alarms(signals, keys[1..][i], env);
        assert Alarms(signals, keys[i + 1], env);
      } else {
        forall i | 0 <= i < |keys| ensures !Alarms(signals, keys[i], env) {
          if i > 0 {
            assert keys[1..][i - 1] == keys[i];
          }
        }
      }
    }
  }

  /** The detector reports an anomaly exactly when some group alarms. */
  lemma AnomalyMeansSomeAlarm(signals: seq<Datapoint>, env: Env)
    requires env.root > 0.0
    ensures Drift(signals, env).anomaly <==> exists key :: Alarms(signals, key, env)
  {
    FirstAlarmFinds(signals, Keys(signals), env);
    if exists key :: Alarms(signals, key, env) {
      var key :| Alarms(signals, key, env);
      StableSort.SortPermutes(Points(signals, key), Earlier());
      KeysAreGroups(signals, key);
      assert key in Keys(signals);
      var i :| 0 <= i < |Keys(signals)| && Keys(signals)[i] == key;
      assert Alarms(signals, Keys(signals)[i], env);
    }
  }

  lemma SeverityBounds(ratio: real)
    requires ratio >= 0.0
    ensures 0.0 <= Severity(ratio) <= 1.0
    ensures Severity(ratio) == 0.0 || Severity(ratio) >= 0.01
  {
    Rounding.Round2Stays(Min(ratio / 3.0, 1.0), 0, 100);
    Rounding.Round2IsWhole(Min(ratio / 3.0, 1.0));
  }

  lemma ConfidenceBounds(ratio: real)
    ensures 0.6 <= Confidence(ratio) <= 0.99
  {
    if ratio >= 1.0 {
      Rounding.Round2Stays(Min(0.99, 0.6 + 0.15 * (ratio - 1.0)), 60, 99);
    }
  }

  /** The highest severity is reported from 2.985 times the control limit on. */
  lemma FullSeverityExactlyWhen(ratio: real)
    ensures Severity(ratio) == 1.0 <==> ratio >= 2.985
  {
    var x := Min(ratio / 3.0, 1.0);
    Rounding.Round2Reaches(x, 100);
    if x >= 0.0 {
      Rounding.Round2Stays(x, 0, 100);
    }
  }

  /** The least ratio at which an upward alarm has confidence 0.7. */
  const CONFIDENT_RATIO: real := 49.0 / 30.0

  lemma ConfidentExactlyWhen(ratio: real)
    ensures Confidence(ratio) >= 0.7 <==> ratio >= CONFIDENT_RATIO
  {
    Rounding.Round2Reaches(Min(0.99, 0.6 + 0.15 * (ratio - 1.0)), 70);
  }

  ghost predicate WellFormed(f: Finding) {
    && 0.0 <= f.severity <= 1.0 && 0.6 <= f.confidence <= 1.0
    && (f.severity == 0.0 || f.severity >= 0.01) && (!f.anomaly ==> f.severity == 0.0)
    && (f.anomaly <==> f.recommendation.Some?)
    && (f.recommendation.Some? ==>
          f.recommendation.value.Valid() && f.recommendation.value.confidence == f.confidence)
  }

  lemma ReportIsWellFormed(points: seq<Datapoint>, key: Key, env: Env)
    requires |points| > 0 && env.root > 0.0
    ensures WellFormed(Report(points, key, env))
  {
    var v := VerdictOf(points, key, env);
    VerdictMeaning(ResidualsOf(points, key, env), SigmaOf(points, key, env), env.root);
    SeverityBounds(v.ratio);
    ConfidenceBounds(v.ratio);
  }

  lemma {:induction false} FirstAlarmIsWellFormed(signals: seq<Datapoint>, keys: seq<Key>, env: Env)
    requires env.root > 0.0
    ensures WellFormed(FirstAlarm(signals, keys, env))
  {
    if |keys| == 0 {
    } else if Alarms(signals, keys[0], env) {
      ReportIsWellFormed(TimeOrder(Points(signals, keys[0])), keys[0], env);
    } else {
      FirstAlarmIsWellFormed(signals, keys[1..], env);
    }
  }

  // ---- Windows that cannot alarm ----

  /** A group without a baseline needs 22 points before it can alarm. */
  lemma AlarmNeedsPoints(signals: seq<Datapoint>, key: Key, env: Env)
    requires env.Valid() && key !in env.baselines
    requires Alarms(signals, key, env)
    ensures |Points(signals, key)| >= 22
  {
    var points := TimeOrder(Points(signals, key));
    var values := Values(points);
    StableSort.SortPermutes(Points(signals, key), Earlier());
    EwmaThreshold.GroupVerdictBySquares(values, env.std(values), env.root);
    if |values| < 22 {
      EwmaThreshold.ShortGroupNeverBreaches(values);
    }
  }

  /** With no baseline in play and fewer than 22 points a group, the detector stays silent. */
  lemma ShortWindowIsSilent(signals: seq<Datapoint>, env: Env)
    requires env.Valid() && env.baselines == map[]
    requires forall key :: |Points(signals, key)| < 22
    ensures !Drift(signals, env).anomaly
  {
    AnomalyMeansSomeAlarm(signals, env);
    forall key ensures !Alarms(signals, key, env) {
      if Alarms(signals, key, env) {
        AlarmNeedsPoints(signals, key, env);
      }
    }
  }

  // ---- The arrival order of the datapoints ----

  lemma {:induction false} PointsPermute(signals: seq<Datapoint>, key: Key, p: Datapoint)
    ensures multiset(Points(signals, key))[p] == if KeyOf(p) == key then multiset(signals)[p] else 0
  {
    if |signals| == 0 {
    } else {
      var k := |signals| - 1;
      PointsPermute(signals[..k], key, p);
      assert signals == signals[..k] + [signals[k]];
    }
  }

  ghost predicate DistinctTimes(signals: seq<Datapoint>) {
    forall p, q :: p in signals && q in signals && KeyOf(p) == KeyOf(q) && p.ts == q.ts ==> p == q
  }

  lemma GroupForgetsArrival(signals: seq<Datapoint>, arrived: seq<Datapoint>, key: Key)
    requires multiset(signals) == multiset(arrived) && DistinctTimes(signals)
    ensures TimeOrder(Points(signals, key)) == TimeOrder(Points(arrived, key))
  {
    var s, t := Points(signals, key), Points(arrived, key);
    forall p ensures multiset(s)[p] == multiset(t)[p] {
      PointsPermute(signals, key, p);
      PointsPermute(arrived, key, p);
    }
    assert multiset(s) == multiset(t);
    forall p, q | p in s && q in s && Earlier()(p, q) && Earlier()(q, p) ensures p == q {
      PointsPermute(signals, key, p);
      PointsPermute(signals, key, q);
      assert p in multiset(s) && q in multiset(s);
      assert p in multiset(signals) && q in multiset(signals);
      assert p in signals && q in signals;
    }
    StableSort.SortForgetsArrival(s, t, Earlier());
  }

  /** The report about a group that alarms. */
  function ReportOf(signals: seq<Datapoint>, key: Key, env: Env): Finding
    requires env.root > 0.0 && Alarms(signals, key, env)
  {
    Report(TimeOrder(Points(signals, key)), key, env)
  }

  /** Delivering the same datapoints in another order never changes which groups alarm, nor what is said of each. */
  lemma AlarmsForgetArrival(signals: seq<Datapoint>, arrived: seq<Datapoint>, key: Key, env: Env)
    requires env.root > 0.0
    requires multiset(signals) == multiset(arrived) && DistinctTimes(signals)
    ensures Alarms(signals, key, env) == Alarms(arrived, key, env)
    ensures Alarms(signals, key, env) ==> ReportOf(arrived, key, env) == ReportOf(signals, key, env)
  {
    GroupForgetsArrival(signals, arrived, key);
    hide VerdictOf, Report, TimeOrder, Points;
  }

  /** Delivering the same datapoints in another order never changes whether there is an anomaly. */
  lemma AnomalyForgetsArrival(signals: seq<Datapoint>, arrived: seq<Datapoint>, env: Env)
    requires env.root > 0.0
    requires multiset(signals) == multiset(arrived) && DistinctTimes(signals)
    ensures Drift(signals, env).anomaly == Drift(arrived, env).anomaly
  {
    AnomalyMeansSomeAlarm(signals, env);
    AnomalyMeansSomeAlarm(arrived, env);
    hide Alarms, Drift;
    forall key ensures Alarms(signals, key, env) == Alarms(arrived, key, env) {
      AlarmsForgetArrival(signals, arrived, key, env);
    }
  }

  lemma {:induction false} FirstAlarmReports(signals: seq<Datapoint>, keys: seq<Key>, env: Env)
    requires env.root > 0.0
    ensures FirstAlarm(signals, keys, env) == NO_ANOMALY
         || exists key :: Alarms(signals, key, env) && FirstAlarm(signals, keys, env) == ReportOf(signals, key, env)
  {
    if |keys| == 0 {
    } else if Alarms(signals, keys[0], env) {
      hide Alarms, Report;
      assert FirstAlarm(signals, keys, env) == ReportOf(signals, keys[0], env);
    } else {
      FirstAlarmReports(signals, keys[1..], env);
      hide Alarms, ReportOf;
    }
  }

  /** An anomaly is the report about some group that alarms. */
  lemma AnomalyIsReport(signals: seq<Datapoint>, env: Env)
    requires env.root > 0.0
    ensures Drift(signals, env).anomaly ==>
              exists key :: Alarms(signals, key, env) && Drift(signals, env) == ReportOf(signals, key, env)
    ensures !Drift(signals, env).anomaly ==> Drift(signals, env) == if signals == [] then NO_SIGNALS else NO_ANOMALY
  {
    FirstAlarmReports(signals, Keys(signals), env);
    hide Alarms, ReportOf, FirstAlarm;
    forall key | Alarms(signals, key, env) ensures ReportOf(signals, key, env).anomaly {
      ReportIsAnomaly(signals, key, env);
    }
  }

  lemma ReportIsAnomaly(signals: seq<Datapoint>, key: Key, env: Env)
    requires env.root > 0.0 && Alarms(signals, key, env)
    ensures ReportOf(signals, key, env).anomaly
  {
  }

  // ---- Which finding is reported ----

  /** The datapoints of the other groups. */
  function Others(signals: seq<Datapoint>, key: Key): seq<Datapoint> {
    if |signals| == 0 then []
    else
      var k := |signals| - 1;
      Others(signals[..k], key) + if KeyOf(signals[k]) == key then [] else [signals[k]]
  }

  lemma {:induction false} PointsAndOthers(signals: seq<Datapoint>, key: Key)
    ensures multiset(Points(signals, key) + Others(signals, key)) == multiset(signals)
  {
    if |signals| == 0 {
    } else {
      var k := |signals| - 1;
      PointsAndOthers(signals[..k], key);
      assert signals == signals[..k] + [signals[k]];
    }
  }

  lemma {:induction false} FirstKey(signals: seq<Datapoint>)
    requires |signals| > 0
    ensures |Keys(signals)| > 0 && Keys(signals)[0] == KeyOf(signals[0])
  {
    var k := |signals| - 1;
    if k > 0 {
      FirstKey(signals[..k]);
    } else {
      assert signals[..k] == [];
    }
  }

  lemma {:induction false} PointsAreOfKey(signals: seq<Datapoint>, key: Key)
    ensures forall i :: 0 <= i < |Points(signals, key)| ==> KeyOf(Points(signals, key)[i]) == key
  {
    if |signals| > 0 {
      PointsAreOfKey(signals[..|signals| - 1], key);
    }
  }

  /** Every group that alarms is the reported one in some order of arrival. */
  lemma AlarmCanSpeak(signals: seq<Datapoint>, key: Key, env: Env) returns (arrived: seq<Datapoint>)
    requires env.root > 0.0 && DistinctTimes(signals) && Alarms(signals, key, env)
    ensures multiset(arrived) == multiset(signals) && Drift(arrived, env) == ReportOf(signals, key, env)
  {
    var own := Points(signals, key);
    StableSort.SortPermutes(own, Earlier());
    arrived := own + Others(signals, key);
    PointsAndOthers(signals, key);
    PointsAreOfKey(signals, key);
    FirstKey(arrived);
    AlarmsForgetArrival(signals, arrived, key, env);
    hide Alarms, Report, Points, Others, Keys, TimeOrder;
    assert Drift(arrived, env) == ReportOf(arrived, key, env);
  }

  /** No two groups that alarm are reported differently. */
  ghost predicate OneReport(signals: seq<Datapoint>, env: Env)
    requires env.root > 0.0
  {
    forall k, l :: Alarms(signals, k, env) && Alarms(signals, l, env) ==>
      ReportOf(signals, k, env) == ReportOf(signals, l, env)
  }

  /** After any rearrangement, an anomaly is the report about some group that alarms in the window as it was. */
  lemma RearrangedFinding(signals: seq<Datapoint>, arrived: seq<Datapoint>, env: Env)
    requires env.root > 0.0
    requires multiset(signals) == multiset(arrived) && DistinctTimes(signals)
    ensures Drift(arrived, env).anomaly ==>
              exists key :: Alarms(signals, key, env) && Drift(arrived, env) == ReportOf(signals, key, env)
    ensures OneReport(signals, env) ==> Drift(arrived, env) == Drift(signals, env)
  {
    AnomalyIsReport(signals, env);
    AnomalyIsReport(arrived, env);
    AnomalyForgetsArrival(signals, arrived, env);
    assert |multiset(signals)| == |signals| && |multiset(arrived)| == |arrived|;
    hide Alarms, Drift, ReportOf;
    forall key
      ensures Alarms(signals, key, env) == Alarms(arrived, key, env)
      ensures Alarms(signals, key, env) ==> ReportOf(arrived, key, env) == ReportOf(signals, key, env)
    {
      AlarmsForgetArrival(signals, arrived, key, env);
    }
  }

  /** The order of arrival never matters to the finding exactly when all groups that alarm have the same report. */
  lemma ArrivalIsIrrelevantExactlyWhen(signals: seq<Datapoint>, env: Env)
    requires env.root > 0.0 && DistinctTimes(signals)
    ensures (forall arrived :: multiset(arrived) == multiset(signals) ==> Drift(arrived, env) == Drift(signals, env))
       <==> OneReport(signals, env)
  {
    hide Alarms, Drift, ReportOf;
    if OneReport(signals, env) {
      forall arrived | multiset(arrived) == multiset(signals) ensures Drift(arrived, env) == Drift(signals, env) {
        RearrangedFinding(signals, arrived, env);
      }
    }
    if forall arrived :: multiset(arrived) == multiset(signals) ==> Drift(arrived, env) == Drift(signals, env) {
      forall k, l | Alarms(signals, k, env) && Alarms(signals, l, env)
        ensures ReportOf(signals, k, env) == ReportOf(signals, l, env)
      {
        var a := AlarmCanSpeak(signals, k, env);
        var b := AlarmCanSpeak(signals, l, env);
      }
    }
  }

  // ---- The unit and origin of a metric ----

  function Remeasure(p: Datapoint, metric: string, c: real, d: real): Datapoint {
    if p.metric == metric then p.(value := c * p.value + d) else p
  }

  function RemeasureAll(points: seq<Datapoint>, metric: string, c: real, d: real): (r: seq<Datapoint>)
    ensures |r| == |points|
    ensures forall i :: 0 <= i < |r| ==> r[i] == Remeasure(points[i], metric, c, d)
  {
    seq(|points|, i requires 0 <= i < |points| => Remeasure(points[i], metric, c, d))
  }

  lemma {:induction false} PointsRemeasure(signals: seq<Datapoint>, key: Key, metric: string, c: real, d: real)
    ensures Points(RemeasureAll(signals, metric, c, d), key) == RemeasureAll(Points(signals, key), metric, c, d)
  {
    if |signals| == 0 {
    } else {
      var k := |signals| - 1;
      assert RemeasureAll(signals, metric, c, d)[..k] == RemeasureAll(signals[..k], metric, c, d);
      PointsRemeasure(signals[..k], key, metric, c, d);
    }
  }

  lemma {:induction false} InsertRemeasure(p: Datapoint, s: seq<Datapoint>, metric: string, c: real, d: real)
    ensures StableSort.Insert(Remeasure(p, metric, c, d), RemeasureAll(s, metric, c, d), Earlier())
         == RemeasureAll(StableSort.Insert(p, s, Earlier()), metric, c, d)
  {
    if |s| == 0 || p.ts <= s[0].ts {
    } else {
      InsertRemeasure(p, s[1..], metric, c, d);
      assert RemeasureAll(s, metric, c, d)[1..] == RemeasureAll(s[1..], metric, c, d);
    }
  }

  lemma {:induction false} TimeOrderRemeasure(s: seq<Datapoint>, metric: string, c: real, d: real)
    ensures TimeOrder(RemeasureAll(s, metric, c, d)) == RemeasureAll(TimeOrder(s), metric, c, d)
  {
    if |s| == 0 {
    } else {
      TimeOrderRemeasure(s[1..], metric, c, d);
      InsertRemeasure(s[0], TimeOrder(s[1..]), metric, c, d);
      assert RemeasureAll(s, metric, c, d)[1..] == RemeasureAll(s[1..], metric, c, d);
    }
  }

  lemma {:induction false} KeysRemeasure(signals: seq<Datapoint>, metric: string, c: real, d: real)
    ensures Keys(RemeasureAll(signals, metric, c, d)) == Keys(signals)
  {
    if |signals| == 0 {
    } else {
      var k := |signals| - 1;
      assert RemeasureAll(signals, metric, c, d)[..k] == RemeasureAll(signals[..k], metric, c, d);
      KeysRemeasure(signals[..k], metric, c, d);
    }
  }

  lemma ValuesRemeasure(points: seq<Datapoint>, metric: string, c: real, d: real)
    requires forall i :: 0 <= i < |points| ==> points[i].metric == metric
    ensures Values(RemeasureAll(points, metric, c, d)) == Shift(d, Scale(c, Values(points)))
  {
    var image, r := RemeasureAll(points, metric, c, d), Scale(c, Values(points));
    forall i | 0 <= i < |points| ensures Values(image)[i] == Shift(d, r)[i] {
      assert r[i] == c * points[i].value;
    }
  }

  lemma {:induction false} CountBelowScales(c: real, residuals: seq<real>, bound: real)
    requires c > 0.0
    ensures CountBelow(Scale(c, residuals), c * bound) == CountBelow(residuals, bound)
  {
    if |residuals| == 0 {
    } else {
      var k := |residuals| - 1;
      ScaleSlice(c, residuals, k);
      CountBelowScales(c, residuals[..k], bound);
      ProductOrder(c, residuals[k], bound);
      CountBelowStep(Scale(c, residuals), c * bound);
      CountBelowStep(residuals, bound);
      hide CountBelow;
    }
  }

  lemma CountBelowStep(residuals: seq<real>, bound: real)
    requires |residuals| > 0
    ensures var k := |residuals| - 1;
            CountBelow(residuals, bound) == CountBelow(residuals[..k], bound) + if residuals[k] < bound then 1 else 0
  {
  }

  lemma BelowFractionScales(c: real, residuals: seq<real>, sigma: real)
    requires c > 0.0 && |residuals| > 0
    ensures BelowFraction(Scale(c, residuals), c * sigma) == BelowFraction(residuals, sigma)
  {
    var low, image, sigma' := -sigma, Scale(c, residuals), c * sigma;
    CountBelowScales(c, residuals, low);
    assert c * low == -sigma';
    hide CountBelow;
    assert CountBelow(image, -sigma') == CountBelow(residuals, -sigma);
    assert BelowFraction(image, sigma') == Ratio(CountBelow(image, -sigma') as real, |image| as real);
  }

  /** Two groups of one key about which the detector would say the same. */
  ghost predicate JudgedAlike(points: seq<Datapoint>, image: seq<Datapoint>, key: Key, env: Env)
    requires env.root > 0.0
  {
    && |points| == |image|
    && (|points| > 0 ==>
          && VerdictOf(image, key, env) == VerdictOf(points, key, env)
          && (VerdictOf(points, key, env).breached ==> Report(image, key, env) == Report(points, key, env)))
  }

  lemma OwnVerdict(points: seq<Datapoint>, key: Key, env: Env)
    requires env.root > 0.0 && |points| > 0 && key !in env.baselines
    ensures VerdictOf(points, key, env)
         == EwmaThreshold.GroupVerdict(Values(points), env.std(Values(points)), env.root)
    ensures ResidualsOf(points, key, env) == EwmaThreshold.Centred(Values(points))
    ensures env.std(Values(points)) != 0.0 ==> SigmaOf(points, key, env) == env.std(Values(points))
  {
  }

  /** A report depends on the verdict and on the share of low residuals only. */
  lemma SameReport(points: seq<Datapoint>, image: seq<Datapoint>, key: Key, env: Env)
    requires env.root > 0.0 && |points| > 0 && |image| > 0
    requires VerdictOf(image, key, env) == VerdictOf(points, key, env)
    requires BelowFraction(ResidualsOf(image, key, env), SigmaOf(image, key, env))
          == BelowFraction(ResidualsOf(points, key, env), SigmaOf(points, key, env))
    ensures Report(image, key, env) == Report(points, key, env)
  {
  }

  /** A group without a baseline, measured in another unit from another origin. */
  lemma OwnGroupIsJudgedAlike(points: seq<Datapoint>, image: seq<Datapoint>, key: Key, c: real, d: real, env: Env)
    requires env.Valid() && c > 0.0 && |points| > 0 && |image| == |points| && key !in env.baselines
    requires Values(image) == Shift(d, Scale(c, Values(points)))
    ensures JudgedAlike(points, image, key, env)
  {
    hide VerdictOf, ResidualsOf, SigmaOf, Report, BelowFraction, EwmaThreshold.GroupVerdict, EwmaThreshold.Variance;
    var values := Values(points);
    var std, std' := env.std(values), env.std(Values(image));
    OwnVerdict(points, key, env);
    OwnVerdict(image, key, env);
    EwmaThreshold.GroupVerdictIsAffineInvariant(c, d, values, std, std', env.root);
    if VerdictOf(points, key, env).breached {
      BreachIsSpread(values, std, env.root);
      EwmaThreshold.DeviationOfAffine(c, d, values, std, std');
      ProductIsPositive(c, std);
      EwmaThreshold.CentredOfAffine(c, d, values);
      BelowFractionScales(c, EwmaThreshold.Centred(values), std);
      SameReport(points, image, key, env);
    }
  }

  /** A group that breaches has a deviation. */
  lemma BreachIsSpread(values: seq<real>, std: real, root: real)
    requires |values| > 0 && root > 0.0 && IsRoot(std, EwmaThreshold.Variance(values))
    requires EwmaThreshold.GroupVerdict(values, std, root).breached
    ensures std > 0.0
  {
    if std == 0.0 {
      EwmaThreshold.FlatGroupIsCalm(values, root);
    }
  }

  lemma GroupIsJudgedAlike(points: seq<Datapoint>, key: Key, metric: string, c: real, d: real, env: Env)
    requires env.Valid() && c > 0.0
    requires key !in env.baselines || key.1 != metric
    requires forall i :: 0 <= i < |points| ==> KeyOf(points[i]) == key
    ensures JudgedAlike(points, RemeasureAll(points, metric, c, d), key, env)
  {
    hide JudgedAlike;
    if key.1 != metric || |points| == 0 {
      assert RemeasureAll(points, metric, c, d) == points;
      AlikeToItself(points, key, env);
    } else {
      ValuesRemeasure(points, metric, c, d);
      OwnGroupIsJudgedAlike(points, RemeasureAll(points, metric, c, d), key, c, d, env);
    }
  }

  lemma AlikeToItself(points: seq<Datapoint>, key: Key, env: Env)
    requires env.root > 0.0
    ensures JudgedAlike(points, points, key, env)
  {
  }

  /** The time-ordered groups of one key in a window and in the remeasured window. */
  lemma GroupsAreJudgedAlike(signals: seq<Datapoint>, key: Key, metric: string, c: real, d: real, env: Env)
    requires env.Valid() && c > 0.0
    requires forall k :: k in env.baselines ==> k.1 != metric
    ensures JudgedAlike(TimeOrder(Points(signals, key)), TimeOrder(Points(RemeasureAll(signals, metric, c, d), key)), key, env)
  {
    hide JudgedAlike;
    var points := TimeOrder(Points(signals, key));
    PointsRemeasure(signals, key, metric, c, d);
    TimeOrderRemeasure(Points(signals, key), metric, c, d);
    StableSort.SortPermutes(Points(signals, key), Earlier());
    forall i | 0 <= i < |points| ensures KeyOf(points[i]) == key {
      assert points[i] in multiset(points);
      PointsPermute(signals, key, points[i]);
    }
    GroupIsJudgedAlike(points, key, metric, c, d, env);
  }

  lemma {:induction false} FirstAlarmAlike(signals: seq<Datapoint>, image: seq<Datapoint>, keys: seq<Key>, env: Env)
    requires env.root > 0.0
    requires forall key :: key in keys ==>
               JudgedAlike(TimeOrder(Points(signals, key)), TimeOrder(Points(image, key)), key, env)
    ensures FirstAlarm(image, keys, env) == FirstAlarm(signals, keys, env)
  {
    if |keys| == 0 {
    } else {
      var key := keys[0];
      assert key in keys;
      assert JudgedAlike(TimeOrder(Points(signals, key)), TimeOrder(Points(image, key)), key, env);
      FirstAlarmAlike(signals, image, keys[1..], env);
      hide VerdictOf, Report, TimeOrder, Points;
    }
  }

  /**
   Without a baseline for a metric, neither its unit nor its origin affects what the detector says:
   the anomaly, its severity, the recommendation, the text and the confidence are the same.
   */
  lemma DriftSurvivesRemeasure(signals: seq<Datapoint>, metric: string, c: real, d: real, env: Env)
    requires env.Valid() && c > 0.0
    requires forall k :: k in env.baselines ==> k.1 != metric
    ensures Drift(RemeasureAll(signals, metric, c, d), env) == Drift(signals, env)
  {
    hide JudgedAlike, FirstAlarm, RemeasureAll, Keys;
    var image := RemeasureAll(signals, metric, c, d);
    KeysRemeasure(signals, metric, c, d);
    forall key ensures JudgedAlike(TimeOrder(Points(signals, key)), TimeOrder(Points(image, key)), key, env) {
      GroupsAreJudgedAlike(signals, key, metric, c, d, env);
    }
    FirstAlarmAlike(signals, image, Keys(signals), env);
  }
}
