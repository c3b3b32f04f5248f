/**
 POST /v1/predict of src/ai_engine/app/main.py and the bounds of models.py: the size check, the
 tenant check, the continuity check, the detector and the confidence gate.
 */
module PredictService {
  import opened Wrappers
  import opened Signals
  import opened DriftDetector
  import opened EwmaThreshold
  import opened Ewma
  import StableSort

  const MIN_WINDOW := 120
  const MAX_WINDOW := 10000
  const MAX_GAP := 65_000_000
  const MAX_REASONING := 300
  const GATE: real := 0.7

  datatype Response = Response(anomaly: bool, severity: real, recommendation: Option<Recommendation>,
                               reasoning: string)

  /** 422, 401, the two kinds of 400, 500 and 200. */
  datatype Outcome =
    | Unprocessable
    | Unauthorized
    | TenantMismatch
    | DataGap
    | ServerError
    | Answer(response: Response)

  // ---- Validation of the window ----

  predicate Foreign(window: seq<Datapoint>, tenant: string, i: nat)
    requires i < |window|
  {
    window[i].tenant != tenant
  }

  predicate Gap(window: seq<Datapoint>, i: nat)
    requires i < |window|
  {
    i > 0 && window[i].ts - window[i - 1].ts > MAX_GAP
  }

  predicate Clean(window: seq<Datapoint>, tenant: string) {
    forall i :: 0 <= i < |window| ==> !Foreign(window, tenant, i) && !Gap(window, i)
  }

  predicate Fits(window: seq<Datapoint>) {
    MIN_WINDOW <= |window| <= MAX_WINDOW
  }

  /** The answer of the validation loop from datapoint k on. */
  function FaultFrom(window: seq<Datapoint>, tenant: string, k: nat): (fault: Option<Outcome>)
    requires k <= |window|
    ensures fault.Some? ==> fault.value.TenantMismatch? || fault.value.DataGap?
    decreases |window| - k
  {
    if k == |window| then None
    else if Foreign(window, tenant, k) then Some(TenantMismatch)
    else if Gap(window, k) then Some(DataGap)
    else FaultFrom(window, tenant, k + 1)
  }

  method CheckWindow(window: seq<Datapoint>, tenant: string) returns (fault: Option<Outcome>)
    ensures fault == FaultFrom(window, tenant, 0)
    ensures fault.None? <==> Clean(window, tenant)
  {
    var prev: Option<int> := None;
    for i := 0 to |window|
      invariant FaultFrom(window, tenant, 0) == FaultFrom(window, tenant, i)
      invariant forall j :: 0 <= j < i ==> !Foreign(window, tenant, j) && !Gap(window, j)
      invariant prev == if i == 0 then None else Some(window[i - 1].ts)
    {
      if window[i].tenant != tenant {
        assert Foreign(window, tenant, i);
        return Some(TenantMismatch);
      }
      var current := window[i].ts;
      if prev.Some? && current - prev.value > MAX_GAP {
        assert Gap(window, i);
        return Some(DataGap);
      }
      prev := Some(current);
    }
    return None;
  }

  /** The loop lets a window through exactly when no datapoint is foreign and no step is too long. */
  lemma {:induction false} NoFaultMeansClean(window: seq<Datapoint>, tenant: string, k: nat)
    requires k <= |window|
    ensures FaultFrom(window, tenant, k).None?
      <==> forall i :: k <= i < |window| ==> !Foreign(window, tenant, i) && !Gap(window, i)
    decreases |window| - k
  {
    if k < |window| {
      NoFaultMeansClean(window, tenant, k + 1);
    }
  }

  /** A datapoint of the tenant's own, at most 65 seconds after the one before it. */
  predicate Follows(window: seq<Datapoint>, tenant: string, i: nat)
    requires i < |window|
  {
    window[i].tenant == tenant && (i > 0 ==> window[i].ts - window[i - 1].ts <= 65_000_000)
  }

  ghost predicate IsFirstFault(window: seq<Datapoint>, tenant: string, k: nat, i: nat) {
    k <= i < |window| && !Follows(window, tenant, i) && forall j :: k <= j < i ==> Follows(window, tenant, j)
  }

  /** The first datapoint that does not follow decides: the tenant is looked at before the gap. */
  lemma {:induction false} FaultMeaning(window: seq<Datapoint>, tenant: string, k: nat)
    requires k <= |window|
    ensures var fault := FaultFrom(window, tenant, k);
            && (fault == Some(TenantMismatch)
                <==> exists i: nat :: IsFirstFault(window, tenant, k, i) && window[i].tenant != tenant)
            && (fault == Some(DataGap)
                <==> exists i: nat :: IsFirstFault(window, tenant, k, i) && window[i].tenant == tenant)
            && (fault.None? <==> forall i :: k <= i < |window| ==> Follows(window, tenant, i))
    decreases |window| - k
  {
    if k < |window| {
      FaultMeaning(window, tenant, k + 1);
      hide FaultFrom;
      if Follows(window, tenant, k) {
        forall i: nat ensures IsFirstFault(window, tenant, k, i) <==> IsFirstFault(window, tenant, k + 1, i) {
        }
        FaultStep(window, tenant, k);
      } else {
        assert IsFirstFault(window, tenant, k, k);
        FaultStep(window, tenant, k);
      }
    }
  }

  lemma FaultStep(window: seq<Datapoint>, tenant: string, k: nat)
    requires k < |window|
    ensures var fault := FaultFrom(window, tenant, k);
            if Follows(window, tenant, k) then fault == FaultFrom(window, tenant, k + 1)
            else fault == Some(if window[k].tenant != tenant then TenantMismatch else DataGap)
  {
  }

  // ---- The endpoint ----

  /** Low-confidence actions are downgraded. */
  function Gate(f: Finding): Option<Recommendation> {
    if f.recommendation.Some? && f.confidence < GATE
    then Some(f.recommendation.value.(verb := "INVESTIGATE"))
    else f.recommendation
  }

  function PredictOutcome(window: seq<Datapoint>, header: Option<string>, env: Env): Outcome
    requires env.root > 0.0
  {
    if !Fits(window) then Unprocessable
    else if header.None? || header.value == "" then Unauthorized
    else
      var fault := FaultFrom(window, header.value, 0);
      if fault.Some? then fault.value
      else
        var f := Drift(window, env);
        if |f.reasoning| > MAX_REASONING then ServerError
        else Answer(Response(f.anomaly, f.severity, Gate(f), f.reasoning))
  }

  method Predict(window: seq<Datapoint>, header: Option<string>, env: Env) returns (o: Outcome)
    requires env.root > 0.0
    ensures o == PredictOutcome(window, header, env)
  {
    if |window| < MIN_WINDOW || |window| > MAX_WINDOW {
      return Unprocessable;
    }
    if header.None? || header.value == "" {
      return Unauthorized;
    }
    var fault := CheckWindow(window, header.value);
    if fault.Some? {
      return fault.value;
    }
    var f := DetectDrift(window, env);
    var suggested := f.recommendation;
    if suggested.Some? && f.confidence < GATE {
      suggested := Some(suggested.value.(verb := "INVESTIGATE"));
    }
    if |f.reasoning| > MAX_REASONING {
      return ServerError;
    }
    return Answer(Response(f.anomaly, f.severity, suggested, f.reasoning));
  }

  // ---- The response contract ----

  ghost predicate MeetsContract(r: Response) {
    && 0.0 <= r.severity <= 1.0
    && |r.reasoning| <= 300
    && (!r.anomaly ==> r.severity == 0.0)
    && (r.anomaly <==> r.recommendation.Some?)
    && (r.recommendation.Some? ==>
          && r.recommendation.value.Valid()
          && (r.recommendation.value.verb != "INVESTIGATE" ==> r.recommendation.value.confidence >= 0.7))
  }

  lemma DriftIsWellFormed(window: seq<Datapoint>, env: Env)
    requires env.root > 0.0
    ensures WellFormed(Drift(window, env))
  {
    if |window| > 0 {
      FirstAlarmIsWellFormed(window, Keys(window), env);
    }
  }

  /** Every answered prediction keeps the whole contract, the gate included. */
  lemma AnswersMeetContract(window: seq<Datapoint>, header: Option<string>, env: Env)
    requires env.root > 0.0
    ensures var o := PredictOutcome(window, header, env);
            o.Answer? ==> MeetsContract(o.response)
  {
    DriftIsWellFormed(window, env);
  }

  /** The numbers of an answer are hundredths, and no confidence is under 0.6. */
  lemma AnswersHaveOrdinaryNumbers(window: seq<Datapoint>, header: Option<string>, env: Env)
    requires env.root > 0.0
    ensures var o := PredictOutcome(window, header, env);
            o.Answer? ==>
              && (o.response.severity == 0.0 || 0.01 <= o.response.severity <= 1.0)
              && (o.response.recommendation.Some? ==> 0.6 <= o.response.recommendation.value.confidence <= 1.0)
  {
    DriftIsWellFormed(window, env);
  }

  /** An alarm keeps its action exactly when it is downward, strong enough, or an INVESTIGATE anyway. */
  lemma GateKeepsExactlyWhen(points: seq<Datapoint>, key: Key, env: Env)
    requires |points| > 0 && env.root > 0.0
    ensures var v, f := VerdictOf(points, key, env), Report(points, key, env);
            Gate(f) == f.recommendation
            <==> v.direction < 0 || v.ratio >= CONFIDENT_RATIO || f.recommendation.value.verb == "INVESTIGATE"
  {
    ConfidentExactlyWhen(VerdictOf(points, key, env).ratio);
    hide VerdictOf, ResidualsOf, SigmaOf, BelowFraction, Confidence, UpTemplate, DownTemplate, Explain, Link, Severity;
  }

  // ---- The text length ----

  lemma UpReasonLength(metric: string)
    ensures 0 < |UpTemplate(metric).reason| <= 70
  {
  }

  lemma DownReasonLength(metric: string)
    ensures 0 < |DownTemplate(metric).reason| <= 70
  {
  }

  lemma ExplainLength(reason: string, service: string, ratio: real, env: Env)
    ensures |Explain(reason, service, ratio, env)| == |reason| + |service| + |env.show(ratio)| + 33
  {
  }

  lemma RecommendationText(key: Key, direction: int, ratio: real, below: real, env: Env)
    ensures |key.0| < |Recommend(key.1, key.0, direction, ratio, below, env).1| <= |key.0| + |key.1| + |env.show(ratio)| + 120
  {
    hide Confidence, Link, UpTemplate, DownTemplate, Explain;
    UpReasonLength(key.1);
    DownReasonLength(key.1);
    ExplainLength(UpTemplate(key.1).reason, key.0, ratio, env);
    ExplainLength(DownTemplate(key.1).reason, key.0, ratio, env);
  }

  /** The length of the text about a group: of a sudden drop, or of a template with names and ratio filled in. */
  function TextLength(points: seq<Datapoint>, key: Key, env: Env): nat
    requires |points| > 0 && env.root > 0.0
  {
    var v := VerdictOf(points, key, env);
    if v.direction >= 0 then |UpTemplate(key.1).reason| + |key.0| + |env.show(v.ratio)| + 33
    else if BelowFraction(ResidualsOf(points, key, env), SigmaOf(points, key, env)) < 0.5 then |key.1| + |key.0| + 50
    else |DownTemplate(key.1).reason| + |key.0| + |env.show(v.ratio)| + 33
  }

  lemma DropLength(metric: string, service: string)
    ensures |"Sudden drop in " + metric + " for " + service + ". Possible degradation/outage."| == |metric| + |service| + 50
  {
  }

  lemma ReportLength(points: seq<Datapoint>, key: Key, env: Env)
    requires |points| > 0 && env.root > 0.0
    ensures |Report(points, key, env).reasoning| == TextLength(points, key, env)
  {
    hide VerdictOf, ResidualsOf, SigmaOf, BelowFraction, Severity, Confidence, Link, UpTemplate, DownTemplate, Explain;
    var v := VerdictOf(points, key, env);
    DropLength(key.1, key.0);
    ExplainLength(UpTemplate(key.1).reason, key.0, v.ratio, env);
    ExplainLength(DownTemplate(key.1).reason, key.0, v.ratio, env);
  }

  /** The first group that alarms. */
  function FirstAlarming(window: seq<Datapoint>, keys: seq<Key>, env: Env): Option<Key>
    requires env.root > 0.0
  {
    if |keys| == 0 then None
    else if Alarms(window, keys[0], env) then Some(keys[0])
    else FirstAlarming(window, keys[1..], env)
  }

  lemma {:induction false} FirstAlarmingAlarms(window: seq<Datapoint>, keys: seq<Key>, env: Env)
    requires env.root > 0.0
    ensures var first := FirstAlarming(window, keys, env);
            && (first.Some? ==> Alarms(window, first.value, env))
            && FirstAlarm(window, keys, env)
            == if first.Some? then Report(TimeOrder(Points(window, first.value)), first.value, env) else NO_ANOMALY
  {
    if |keys| > 0 {
      FirstAlarmingAlarms(window, keys[1..], env);
    }
    hide VerdictOf, Report, TimeOrder, Points;
  }

  /** Whether the text about the first alarming group, if there is one, fits into the response. */
  predicate TextFits(window: seq<Datapoint>, env: Env)
    requires env.root > 0.0
  {
    var first := FirstAlarming(window, Keys(window), env);
    first.Some? ==>
      (FirstAlarmingAlarms(window, Keys(window), env);
       TextLength(TimeOrder(Points(window, first.value)), first.value, env) <= MAX_REASONING)
  }

  lemma CalmTextsFit()
    ensures |NO_ANOMALY.reasoning| <= MAX_REASONING && |NO_SIGNALS.reasoning| <= MAX_REASONING
  {
  }

  lemma TextFitsMeaning(window: seq<Datapoint>, env: Env)
    requires env.root > 0.0
    ensures TextFits(window, env) <==> |Drift(window, env).reasoning| <= 300
  {
    FirstAlarmingAlarms(window, Keys(window), env);
    var first := FirstAlarming(window, Keys(window), env);
    if first.Some? {
      ReportLength(TimeOrder(Points(window, first.value)), first.value, env);
    }
    CalmTextsFit();
    hide TextLength, FirstAlarming, FirstAlarm, Report, TimeOrder, Points, NO_ANOMALY, NO_SIGNALS;
  }

  /**
   Which requests are answered: size, header, tenant and continuity are right, and the text about the
   first alarming group, a matter of its names and of the printed ratio, fits.
   */
  lemma AnsweredExactlyWhen(window: seq<Datapoint>, header: Option<string>, env: Env)
    requires env.root > 0.0
    ensures PredictOutcome(window, header, env).Answer?
      <==> && 120 <= |window| <= 10000 && header.Some? && header.value != ""
           && (forall i :: 0 <= i < |window| ==> Follows(window, header.value, i))
           && TextFits(window, env)
  {
    if header.Some? {
      FaultMeaning(window, header.value, 0);
    }
    hide TextFits, Drift, FaultFrom, Follows, IsFirstFault;
    TextFitsMeaning(window, env);
  }

  lemma CleanMeaning(window: seq<Datapoint>, tenant: string)
    ensures Clean(window, tenant) <==> forall i :: 0 <= i < |window| ==> Follows(window, tenant, i)
  {
    forall i | 0 <= i < |window|
      ensures Follows(window, tenant, i) <==> !Foreign(window, tenant, i) && !Gap(window, i)
    {
    }
  }

  /** Which request is refused, and for what. */
  lemma RefusedExactlyWhen(window: seq<Datapoint>, header: Option<string>, env: Env)
    requires env.root > 0.0
    ensures var o, fits := PredictOutcome(window, header, env), 120 <= |window| <= 10000;
            var named := fits && header.Some? && header.value != "";
            && (o.Unprocessable? <==> !fits)
            && (o.Unauthorized? <==> fits && (header.None? || header.value == ""))
            && (o.TenantMismatch? <==>
                  named && exists i: nat :: IsFirstFault(window, header.value, 0, i) && window[i].tenant != header.value)
            && (o.DataGap? <==>
                  named && exists i: nat :: IsFirstFault(window, header.value, 0, i) && window[i].tenant == header.value)
            && (o.ServerError? <==>
                  && named && (forall i :: 0 <= i < |window| ==> Follows(window, header.value, i))
                  && |Drift(window, env).reasoning| > 300)
  {
    if header.Some? {
      FaultMeaning(window, header.value, 0);
    }
    hide FaultFrom, Drift, IsFirstFault, Follows, Gate;
  }

  /** The text of a report is the names it mentions, the printed ratio, and at most 120 characters. */
  lemma ReportText(points: seq<Datapoint>, key: Key, env: Env)
    requires |points| > 0 && env.root > 0.0
    ensures var r := Report(points, key, env).reasoning;
            |key.0| < |r| <= |key.0| + |key.1| + |env.show(VerdictOf(points, key, env).ratio)| + 120
  {
    hide VerdictOf, ResidualsOf, SigmaOf, BelowFraction, Severity, Recommend;
    var v := VerdictOf(points, key, env);
    RecommendationText(key, v.direction, v.ratio, 0.0, env);
    RecommendationText(key, v.direction, v.ratio, BelowFraction(ResidualsOf(points, key, env), SigmaOf(points, key, env)), env);
  }

  /** Names and printed ratios of ordinary length never run into the text limit. */
  lemma OrdinaryNamesAreAnswered(window: seq<Datapoint>, tenant: string, env: Env)
    requires env.root > 0.0 && Fits(window) && tenant != "" && Clean(window, tenant)
    requires forall key :: Alarms(window, key, env) ==>
               |key.0| + |key.1| + |env.show(VerdictOf(TimeOrder(Points(window, key)), key, env).ratio)| <= 180
    ensures PredictOutcome(window, Some(tenant), env).Answer?
  {
    AnsweredExactlyWhen(window, Some(tenant), env);
    CleanMeaning(window, tenant);
    FirstAlarmingAlarms(window, Keys(window), env);
    var first := FirstAlarming(window, Keys(window), env);
    if first.Some? {
      var points := TimeOrder(Points(window, first.value));
      ReportText(points, first.value, env);
      ReportLength(points, first.value, env);
    }
    hide Alarms, VerdictOf, TextLength, Report, FirstAlarming, FirstAlarm, TimeOrder, Points, Keys, PredictOutcome, Clean, Fits;
  }

  /** A service name of 300 characters turns its alarm into a server error. */
  lemma LongNameLosesItsAlarm(window: seq<Datapoint>, tenant: string, env: Env)
    requires env.root > 0.0 && Fits(window) && tenant != "" && Clean(window, tenant)
    requires Alarms(window, Keys(window)[0], env) && |Keys(window)[0].0| >= 300
    ensures PredictOutcome(window, Some(tenant), env).ServerError?
  {
    NoFaultMeansClean(window, tenant, 0);
    ReportText(TimeOrder(Points(window, Keys(window)[0])), Keys(window)[0], env);
  }

  // ---- A request that fails ----

  /** Two hours of one metric of one service, in the shape that breaches. */
  function WeightsWindow(tenant: string, service: string): (w: seq<Datapoint>)
    ensures |w| == 120
    ensures forall i :: 0 <= i < 120 ==>
              w[i] == Datapoint(i * 60_000_000, i, tenant, service, "api_latency_ms", Weights(120)[i])
  {
    seq(120, i requires 0 <= i < 120 =>
      Datapoint(i * 60_000_000, i, tenant, service, "api_latency_ms", Weights(120)[i]))
  }

  lemma {:induction false} OneGroup(window: seq<Datapoint>, key: Key)
    requires |window| > 0 && forall i :: 0 <= i < |window| ==> KeyOf(window[i]) == key
    ensures Keys(window) == [key] && Points(window, key) == window
  {
    var k := |window| - 1;
    assert window == window[..k] + [window[k]];
    if k > 0 {
      OneGroup(window[..k], key);
    } else {
      assert window[..k] == [];
    }
  }

  lemma SpacedIsOrdered(w: seq<Datapoint>)
    requires forall i :: 0 <= i < |w| ==> w[i].ts == i * 60_000_000
    ensures TimeOrder(w) == w
  {
    StableSort.SortKeepsOrdered(w, Earlier());
  }

  /** A group without a baseline that is in order and breaches by squares raises the alarm. */
  lemma OwnGroupAlarms(w: seq<Datapoint>, key: Key, env: Env)
    requires env.Valid() && key !in env.baselines && |w| >= MIN_POINTS
    requires Points(w, key) == w && TimeOrder(w) == w && GroupBreaches(Values(w))
    ensures Alarms(w, key, env)
  {
    hide GroupBreaches, GroupVerdict, VerdictOf, TimeOrder, Points, Values;
    OwnVerdict(w, key, env);
    GroupVerdictBySquares(Values(w), env.std(Values(w)), env.root);
  }

  lemma WeightsWindowFits(tenant: string, service: string)
    ensures Fits(WeightsWindow(tenant, service)) && Clean(WeightsWindow(tenant, service), tenant)
  {
    hide WeightsWindow, Weights;
  }

  lemma WeightsWindowAlarms(tenant: string, service: string, env: Env)
    requires env.Valid() && (service, "api_latency_ms") !in env.baselines
    ensures var w, key := WeightsWindow(tenant, service), (service, "api_latency_ms");
            Keys(w) == [key] && Alarms(w, key, env)
  {
    hide VerdictOf, GroupVerdict, Points, Keys, Weights, GroupBreaches, WeightsWindow;
    var w, key := WeightsWindow(tenant, service), (service, "api_latency_ms");
    OneGroup(w, key);
    SpacedIsOrdered(w);
    assert Values(w) == Weights(120);
    WeightsBreach(120);
    OwnGroupAlarms(w, key, env);
  }

  /** For every service name of at least 300 characters there is a request that ends in a server error. */
  lemma LongNameRequestFails(tenant: string, service: string, env: Env)
    requires env.Valid() && tenant != "" && |service| >= 300
    requires (service, "api_latency_ms") !in env.baselines
    ensures PredictOutcome(WeightsWindow(tenant, service), Some(tenant), env).ServerError?
  {
    hide Alarms, Keys, WeightsWindow, PredictOutcome, Fits, Clean;
    WeightsWindowAlarms(tenant, service, env);
    WeightsWindowFits(tenant, service);
    LongNameLosesItsAlarm(WeightsWindow(tenant, service), tenant, env);
  }
}
