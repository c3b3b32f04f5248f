/**
 process_job of src/prediction_worker/app.py: one prediction request, from the metric windows and
 the engine's reply to the audited decision.
 */
module PredictionJob {
  import opened Wrappers
  import opened RealArith
  import opened Signals
  import opened SignalWindow
  import opened MetricFallback
  import opened Json
  import opened AuditItem
  import BucketAlignment
  import PredictService
  import DriftDetector
  import PythonText

  const MAX_GAP_THRESHOLD: real := 0.5

  const ENGINE := "AI_ENGINE"
  const FALLBACK := "STATIC_THRESHOLD_FALLBACK"

  // ---- The engine's reply ----

  /** A raised exception, or a status with a body; no body when it is not JSON. */
  datatype Reply = Raised | Replied(status: int, body: Option<Json>)

  predicate ValidRecommendation(rec: Json) {
    && rec.Object?
    && "action_verb" in rec.fields && "target" in rec.fields && "from_to" in rec.fields
    && "confidence" in rec.fields && "evidence_link" in rec.fields
    && rec.fields["action_verb"].Str? && rec.fields["action_verb"].s in ACTION_VERBS
    && IsNumber(rec.fields["confidence"])
  }

  /** The schema checks on a reply with status 200. */
  predicate PassesSchema(result: Json) {
    && result.Object?
    && "anomaly" in result.fields && result.fields["anomaly"].Bool?
    && "severity" in result.fields && IsNumber(result.fields["severity"])
    && "reasoning" in result.fields && result.fields["reasoning"].Str?
    && (Get(result.fields, "recommendation") == Null || ValidRecommendation(Get(result.fields, "recommendation")))
  }

  predicate PassedSchema(reply: Reply) {
    reply.Replied? && reply.status == 200 && reply.body.Some? && PassesSchema(reply.body.value)
  }

  // ---- The locals of the function ----

  datatype Locals = Locals(source: string, status: string, decision: string, score: real, anomaly: bool,
                           severity: real, recommendation: Json, auditId: Json, engineStatus: int)

  const INITIAL := Locals(ENGINE, "complete", "UNKNOWN", 0.0, false, 0.0, Null, Null, 0)

  function ToFallback(l: Locals): Locals {
    l.(source := FALLBACK, status := "fallback")
  }

  /** The assignments after the schema checks; an OverflowError leaves the earlier ones in place. */
  function Adopt(result: Json, l: Locals): Locals
    requires PassesSchema(result)
  {
    var l1 := l.(anomaly := result.fields["anomaly"].b);
    match ToFloat(result.fields["severity"])
    case None => ToFallback(l1)
    case Some(severity) =>
      var rec := Get(result.fields, "recommendation");
      var l2 := l1.(severity := severity, recommendation := rec, auditId := Get(result.fields, "audit_id"));
      if Truthy(rec) then
        var l3 := l2.(decision := rec.fields["action_verb"].s);
        match ToFloat(rec.fields["confidence"])
        case None => ToFallback(l3)
        case Some(score) => l3.(score := score)
      else l2.(decision := "KEEP_ALIVE", score := severity)
  }

  /** The state after the call of the engine. */
  function AfterCall(reply: Reply): Locals {
    match reply
    case Raised => ToFallback(INITIAL)
    case Replied(status, body) =>
      var l := INITIAL.(engineStatus := status);
      if PassedSchema(reply) then Adopt(body.value, l) else ToFallback(l)
  }

  function BeforeFallback(data: seq<SignalData>, reply: Reply): Locals {
    if MaxGap(data) >= MAX_GAP_THRESHOLD || data == [] then ToFallback(INITIAL) else AfterCall(reply)
  }

  // ---- The fallback ----

  function AlignedMap(data: seq<SignalData>): map<string, seq<BucketAlignment.Bucket>> {
    if |data| == 0 then map[]
    else AlignedMap(data[..|data| - 1])[data[|data| - 1].signal := data[|data| - 1].buckets]
  }

  function CountMap(data: seq<SignalData>): map<string, int> {
    if |data| == 0 then map[]
    else CountMap(data[..|data| - 1])[data[|data| - 1].signal := data[|data| - 1].realCount]
  }

  function MetricsOf(data: seq<SignalData>): Metrics {
    Metrics(AlignedMap(data), CountMap(data))
  }

  function RecommendationJson(r: Recommendation): Json {
    Object(map["action_verb" := Str(r.verb), "target" := Str(r.target), "from_to" := Str(r.fromTo),
               "confidence" := Float(r.confidence), "evidence_link" := Str(r.evidence)])
  }

  function OptionJson(r: Option<Recommendation>): Json {
    match r case None => Null case Some(rec) => RecommendationJson(rec)
  }

  /** Step 7: the metric fallback, or the policy's static threshold without one. */
  function ApplyFallback(l: Locals, metric: Option<Fallback>, threshold: real): Locals {
    match metric
    case Some(f) =>
      l.(decision := f.decision, score := f.score, anomaly := f.anomaly, severity := f.severity,
         recommendation := OptionJson(f.recommendation))
    case None =>
      l.(score := threshold, decision := if threshold > 80.0 then "SCALE_UP" else "KEEP_ALIVE",
         anomaly := threshold > 80.0, severity := threshold / 100.0)
  }

  const DEFAULT_THRESHOLD: real := 85.0

  function ThresholdOf(policy: Option<real>): real {
    if policy.Some? then policy.value else DEFAULT_THRESHOLD
  }

  // ---- The outcome of a job ----

  datatype Job = Job(tenant: string, service: string, lookback: Json)

  /** int(lookback) and the two allowed values; None for a ValueError. */
  function LookbackOf(lookback: Json): Option<nat> {
    var parsed := match lookback
      case Null => Some(120)
      case Int(n) => Some(n)
      case Float(x) => Some(BucketAlignment.Truncate(x))
      case Bool(b) => Some(if b then 1 else 0)
      case Str(s) => PythonText.ParseInt(s)
      case List(_) => None
      case Object(_) => None;
    if parsed == Some(30) || parsed == Some(120) then Some(parsed.value) else None
  }

  datatype Audit = Audit(locals: Locals, evidence: string)

  function EvidenceOf(data: seq<SignalData>): string {
    if MaxGap(data) > 0.0 then "partial_window" else "complete_window"
  }

  predicate Alerts(l: Locals) {
    l.anomaly && (l.severity >= 0.8 || l.decision == "SCALE_UP" || l.decision == "RETIRE")
  }

  /** What is audited, given what the metric fallback decides. */
  function Audited(data: seq<SignalData>, reply: Reply, metric: Option<Fallback>, policy: Option<real>): Locals {
    var l := BeforeFallback(data, reply);
    if l.source == FALLBACK then ApplyFallback(l, metric, ThresholdOf(policy)) else l
  }

  ghost predicate Outcome(job: Job, data: seq<SignalData>, reply: Reply, policy: Option<real>, l: Locals) {
    if BeforeFallback(data, reply).source == FALLBACK then
      exists metric ::
        && Decides(DefaultRules(job.service), MetricsOf(data), job.tenant, job.service, metric)
        && l == Audited(data, reply, metric, policy)
    else l == BeforeFallback(data, reply)
  }

  /** Whether what was decided can be put into the audit table. */
  predicate IsWritable(l: Locals) {
    IsStorableItem(l.score, l.severity, l.recommendation)
  }

  /** A ValueError before anything happened, an exception of the audit put, or the end of the function. */
  datatype End = Invalid | PutRaised(audit: Audit) | Done(audit: Audit, alert: bool)

  /**
   The job.  The engine is asked through ask, with the window that was built; the metrics, the clock and
   the policy come from outside, and so does whether the table takes the put or finds its key occupied.
   */
  method ProcessJob(job: Job, fetch: string -> seq<seq<BucketAlignment.Sample>>, now: int,
                    ask: seq<Datapoint> -> Reply, policy: Option<real>, putWorks: bool)
    returns (end: End, ghost data: seq<SignalData>)
    ensures end.Invalid? <==> job.tenant == "" || job.service == "" || LookbackOf(job.lookback).None?
    ensures !end.Invalid? ==>
              && |data| == |SIGNALS| && Covers(data, now, LookbackOf(job.lookback).value)
              && (forall i :: 0 <= i < |data| ==>
                    && data[i].signal == SIGNALS[i]
                    && AlignedSignal(data[i], fetch(SIGNALS[i]), now, LookbackOf(job.lookback).value))
              && Outcome(job, data, ask(Payload(data, job.tenant, job.service)), policy, end.audit.locals)
              && end.audit.evidence == EvidenceOf(data)
              && (end.Done? <==> IsWritable(end.audit.locals) && putWorks)
    ensures end.Done? ==> end.alert == Alerts(end.audit.locals)
  {
    hide Decides, DefaultRules, MetricsOf, Payload, Covers, AlignedSignal, AfterCall, OptionJson, LookbackOf, IsWritable;
    data := [];
    if job.tenant == "" || job.service == "" {
      return Invalid, [];
    }
    var lookback := LookbackOf(job.lookback);
    if lookback.None? {
      return Invalid, [];
    }
    var metrics, maxGap := QueryAmpMetrics(fetch, now, lookback.value);
    data := metrics;
    QueriedDataCovers(metrics, fetch, now, lookback.value);
    var window := BuildPayload(metrics, job.tenant, job.service);
    var reply := ask(window);
    var l := INITIAL;
    if maxGap >= MAX_GAP_THRESHOLD {
      l := l.(source := FALLBACK, status := "fallback");
    } else if metrics != [] {
      l := CallEngine(reply);
    } else {
      l := l.(source := FALLBACK, status := "fallback");
    }
    assert l == BeforeFallback(metrics, reply);
    l := FallBack(job, metrics, l, reply, policy);
    hide Outcome, MaxGap, SIGNALS;
    var audit := Audit(l, if maxGap > 0.0 then "partial_window" else "complete_window");
    if !IsWritable(l) || !putWorks {
      return PutRaised(audit), data;
    }
    var alert := l.anomaly && (l.severity >= 0.8 || l.decision == "SCALE_UP" || l.decision == "RETIRE");
    end := Done(audit, alert);
  }

  /** Step 7 of the job: the metric rules, then the static threshold. */
  method FallBack(job: Job, data: seq<SignalData>, before: Locals, ghost reply: Reply, policy: Option<real>)
    returns (l: Locals)
    requires before == BeforeFallback(data, reply)
    ensures Outcome(job, data, reply, policy, l)
  {
    hide Decides, DefaultRules, MetricsOf, OptionJson, BeforeFallback;
    l := before;
    if l.source == FALLBACK {
      var metric := ComputeMetricFallback(DefaultRules(job.service), MetricsOf(data), job.tenant, job.service);
      if metric.Some? {
        var f := metric.value;
        l := l.(decision := f.decision, score := f.score, anomaly := f.anomaly, severity := f.severity,
                recommendation := OptionJson(f.recommendation));
      } else {
        var threshold := if policy.Some? then policy.value else DEFAULT_THRESHOLD;
        l := l.(score := threshold, decision := if threshold > 80.0 then "SCALE_UP" else "KEEP_ALIVE",
                anomaly := threshold > 80.0, severity := threshold / 100.0);
      }
      assert l == Audited(data, reply, metric, policy);
    }
  }

  /** The try block around the engine's reply, assignment by assignment. */
  method CallEngine(reply: Reply) returns (l: Locals)
    ensures l == AfterCall(reply)
  {
    l := INITIAL;
    if reply.Raised? {
      return ToFallback(l);
    }
    l := l.(engineStatus := reply.status);
    if reply.status != 200 || reply.body.None? || !PassesSchema(reply.body.value) {
      return ToFallback(l);
    }
    var result := reply.body.value.fields;
    l := l.(anomaly := result["anomaly"].b);
    var severity := ToFloat(result["severity"]);
    if severity.None? {
      return ToFallback(l);
    }
    l := l.(severity := severity.value);
    var rec := Get(result, "recommendation");
    l := l.(recommendation := rec);
    l := l.(auditId := Get(result, "audit_id"));
    if Truthy(rec) {
      l := l.(decision := rec.fields["action_verb"].s);
      var score := ToFloat(rec.fields["confidence"]);
      if score.None? {
        return ToFallback(l);
      }
      l := l.(score := score.value);
    } else {
      l := l.(decision := "KEEP_ALIVE");
      l := l.(score := l.severity);
    }
  }

  // ---- Which source decides ----

  predicate NumbersFit(result: Json)
    requires PassesSchema(result)
  {
    && ToFloat(result.fields["severity"]).Some?
    && (Get(result.fields, "recommendation") != Null ==>
          ToFloat(Get(result.fields, "recommendation").fields["confidence"]).Some?)
  }

  predicate Usable(reply: Reply) {
    PassedSchema(reply) && NumbersFit(reply.body.value)
  }

  predicate AsksEngine(data: seq<SignalData>) {
    MaxGap(data) < MAX_GAP_THRESHOLD && data != []
  }

  lemma ValidRecommendationIsTruthy(rec: Json)
    requires ValidRecommendation(rec)
    ensures Truthy(rec)
  {
    assert "action_verb" in rec.fields;
  }

  /** The engine decides exactly when it was asked and its reply passed every check and conversion. */
  lemma EngineDecidesExactlyWhen(data: seq<SignalData>, reply: Reply, metric: Option<Fallback>, policy: Option<real>)
    ensures Audited(data, reply, metric, policy).source == ENGINE <==> AsksEngine(data) && Usable(reply)
    ensures Audited(data, reply, metric, policy).source in {ENGINE, FALLBACK}
  {
    if PassedSchema(reply) {
      var rec := Get(reply.body.value.fields, "recommendation");
      if rec != Null {
        ValidRecommendationIsTruthy(rec);
      }
    }
  }

  /** A placeholder decision is never audited. */
  lemma DecisionIsNeverUnknown(job: Job, data: seq<SignalData>, reply: Reply, policy: Option<real>, l: Locals)
    requires Outcome(job, data, reply, policy, l)
    ensures l.decision in ACTION_VERBS || l.decision == "KEEP_ALIVE"
    ensures "UNKNOWN" !in ACTION_VERBS && l.decision != "UNKNOWN"
  {
    assert ACTION_VERBS[0] == "SCALE_UP";
    if BeforeFallback(data, reply).source == FALLBACK {
      var metric :| && Decides(DefaultRules(job.service), MetricsOf(data), job.tenant, job.service, metric)
                    && l == Audited(data, reply, metric, policy);
      if metric.Some? {
        FallbackSpeaksContract(job, data, metric);
      }
    }
    if PassedSchema(reply) {
      var rec := Get(reply.body.value.fields, "recommendation");
      if rec != Null {
        ValidRecommendationIsTruthy(rec);
      }
    }
  }

  lemma FallbackSpeaksContract(job: Job, data: seq<SignalData>, metric: Option<Fallback>)
    requires Decides(DefaultRules(job.service), MetricsOf(data), job.tenant, job.service, metric) && metric.Some?
    ensures metric.value.decision in ACTION_VERBS || metric.value.decision == "KEEP_ALIVE"
  {
    var rules, m := DefaultRules(job.service), MetricsOf(data);
    var readings := Readings(rules, m);
    if Breached(readings) != [] {
      var w :| IsWinner(w, Breached(readings)) && metric == Some(Act(w, job.tenant, job.service));
      BreachedAreBreached(readings);
      ReadingsAreOfRules(rules, m, w);
      DefaultRulesAreSound(job.service);
      assert ACTION_VERBS[0] == "SCALE_UP" && ACTION_VERBS[4] == "INVESTIGATE";
    }
  }

  // ---- What the fallback depends on ----

  /** A reply that was refused after its recommendation had been stored. */
  predicate LeavesRecommendation(reply: Reply) {
    && PassedSchema(reply)
    && Get(reply.body.value.fields, "recommendation") != Null
    && ToFloat(reply.body.value.fields["severity"]).Some?
    && ToFloat(Get(reply.body.value.fields, "recommendation").fields["confidence"]).None?
  }

  /** The audited fields that describe the decision itself. */
  predicate SameDecision(a: Locals, b: Locals) {
    && a.source == b.source && a.status == b.status && a.decision == b.decision && a.score == b.score
    && a.anomaly == b.anomaly && a.severity == b.severity
  }

  /** On the fallback path the decision is the same whatever went wrong with the engine. */
  lemma FaultsDecideAlike(data: seq<SignalData>, a: Reply, b: Reply, metric: Option<Fallback>, policy: Option<real>)
    requires !AsksEngine(data) || (!Usable(a) && !Usable(b))
    ensures SameDecision(Audited(data, a, metric, policy), Audited(data, b, metric, policy))
  {
    EngineDecidesExactlyWhen(data, a, metric, policy);
    EngineDecidesExactlyWhen(data, b, metric, policy);
    FallbackStatus(data, a, metric, policy);
    FallbackStatus(data, b, metric, policy);
  }

  lemma FallbackStatus(data: seq<SignalData>, reply: Reply, metric: Option<Fallback>, policy: Option<real>)
    ensures var l := Audited(data, reply, metric, policy);
            l.status == if l.source == FALLBACK then "fallback" else "complete"
  {
  }

  /**
   What is handed to the audit: the recommendation is the fallback's own exactly unless the static
   threshold had to decide after a reply whose confidence is an integer that no float can hold.
   */
  lemma ForeignRecommendationExactlyWhen(data: seq<SignalData>, reply: Reply, metric: Option<Fallback>, policy: Option<real>)
    requires !AsksEngine(data) || !Usable(reply)
    ensures var own := if metric.Some? then OptionJson(metric.value.recommendation) else Null;
            Audited(data, reply, metric, policy).recommendation != own
            <==> AsksEngine(data) && metric.None? && LeavesRecommendation(reply)
  {
    EngineDecidesExactlyWhen(data, reply, metric, policy);
    if PassedSchema(reply) {
      var rec := Get(reply.body.value.fields, "recommendation");
      if rec != Null {
        ValidRecommendationIsTruthy(rec);
      }
    }
  }

  /** An otherwise valid recommendation whose confidence is the integer 2^1024 - 2^970. */
  function OverflowingRecommendation(): Json {
    Object(RecommendationJson(Recommendation("RETIRE", "t", "N/A", 0.75, "e")).fields["confidence" := Int(FLOAT_OVERFLOW)])
  }

  function OverflowingReply(): Reply {
    Replied(200, Some(Object(map["anomaly" := Bool(true), "severity" := Float(0.5), "reasoning" := Str("r"),
                                 "recommendation" := OverflowingRecommendation()])))
  }

  lemma OverflowingReplyIsRefusedLate()
    ensures PassedSchema(OverflowingReply()) && !Usable(OverflowingReply())
    ensures LeavesRecommendation(OverflowingReply())
  {
    var r := Recommendation("RETIRE", "t", "N/A", 0.75, "e");
    assert ACTION_VERBS[2] == "RETIRE";
    RecommendationJsonIsValid(r);
    assert ValidRecommendation(OverflowingRecommendation());
    hide RecommendationJson, ValidRecommendation;
    assert ToFloat(Int(FLOAT_OVERFLOW)) == None;
  }

  /** That integer is also too long for the audit table, so the put is never reached. */
  lemma LeftRecommendationIsNotWritable(data: seq<SignalData>, reply: Reply, policy: Option<real>)
    requires AsksEngine(data) && LeavesRecommendation(reply)
    ensures !IsWritable(Audited(data, reply, None, policy))
  {
    var rec := Get(reply.body.value.fields, "recommendation");
    ValidRecommendationIsTruthy(rec);
    OverflowIsNotStorable(rec.fields["confidence"].n);
    hide FLOAT_OVERFLOW;
  }

  /** Whatever a fallback decision that can be audited is based on, its recommendation is the fallback's own. */
  lemma AuditedFallbackIsItsOwn(data: seq<SignalData>, reply: Reply, metric: Option<Fallback>, policy: Option<real>)
    requires !AsksEngine(data) || !Usable(reply)
    requires IsWritable(Audited(data, reply, metric, policy))
    ensures Audited(data, reply, metric, policy).recommendation
         == if metric.Some? then OptionJson(metric.value.recommendation) else Null
  {
    hide IsWritable, Audited, LeavesRecommendation;
    ForeignRecommendationExactlyWhen(data, reply, metric, policy);
    if AsksEngine(data) && metric.None? && LeavesRecommendation(reply) {
      LeftRecommendationIsNotWritable(data, reply, policy);
    }
  }

  /** A service without rules has no metric fallback. */
  lemma NoRulesNoMetricFallback(job: Job, data: seq<SignalData>, metric: Option<Fallback>)
    requires DefaultRules(job.service) == []
    requires Decides(DefaultRules(job.service), MetricsOf(data), job.tenant, job.service, metric)
    ensures metric == None
  {
  }

  /**
   A concrete reply that passes the schema and ends every job of a service without rules in an
   exception: its recommendation is left behind, and cannot be audited.
   */
  lemma OverflowingConfidence(job: Job, data: seq<SignalData>, policy: Option<real>, l: Locals)
    requires AsksEngine(data) && DefaultRules(job.service) == []
    requires Outcome(job, data, OverflowingReply(), policy, l)
    ensures PassedSchema(OverflowingReply())
    ensures l.source == FALLBACK && l.recommendation != Null && !IsWritable(l)
  {
    OverflowingReplyIsRefusedLate();
    EngineDecidesExactlyWhen(data, OverflowingReply(), None, policy);
    hide OverflowingReply, IsWritable, Decides, DefaultRules, MetricsOf, AsksEngine, PassedSchema, LeavesRecommendation;
    var metric :| && Decides(DefaultRules(job.service), MetricsOf(data), job.tenant, job.service, metric)
                  && l == Audited(data, OverflowingReply(), metric, policy);
    NoRulesNoMetricFallback(job, data, metric);
    ForeignRecommendationExactlyWhen(data, OverflowingReply(), None, policy);
    LeftRecommendationIsNotWritable(data, OverflowingReply(), policy);
    hide Audited;
  }

  // ---- What can be audited ----

  /** On the engine's path a decision can be audited exactly when the numbers of the reply fit the table as they stand. */
  lemma EngineDecisionIsWritableExactlyWhen(data: seq<SignalData>, reply: Reply, metric: Option<Fallback>, policy: Option<real>)
    requires AsksEngine(data) && Usable(reply)
    ensures var fields := reply.body.value.fields;
            var rec := Get(fields, "recommendation");
            IsWritable(Audited(data, reply, metric, policy)) <==>
              && IsStorableFloat(ToFloat(fields["severity"]).value)
              && (rec != Null ==>
                    IsStorableFloat(ToFloat(rec.fields["confidence"]).value) && IsStorableRecommendation(rec))
  {
    hide IsStorableFloat, IsStorableRecommendation, AsksEngine, ToFloat;
    var rec := Get(reply.body.value.fields, "recommendation");
    if rec != Null {
      ValidRecommendationIsTruthy(rec);
      hide ValidRecommendation;
    }
    EngineLocals(data, reply, metric, policy);
  }

  /** The field holds no float and no integer that is too long, at any depth. */
  ghost predicate HoldsNothingRefused(j: Json) {
    !exists x :: Holds(j, x) && IsRefused(x)
  }

  /**
   A recommendation that passed the schema fits the table exactly when its confidence is an integer or a
   float that fits, and its free fields hold no float and no integer that is too long.
   */
  lemma RecommendationIsStorableExactlyWhen(rec: Json)
    requires ValidRecommendation(rec)
    ensures IsStorableRecommendation(rec) <==>
              && (match rec.fields["confidence"]
                  case Int(n) => IsStorableInteger(n)
                  case Float(x) => IsStorableFloat(x)
                  case _ => false)
              && HoldsNothingRefused(rec.fields["target"]) && HoldsNothingRefused(rec.fields["from_to"])
              && HoldsNothingRefused(rec.fields["evidence_link"])
  {
    IsStorableExactlyWhen(rec.fields["target"]);
    IsStorableExactlyWhen(rec.fields["from_to"]);
    IsStorableExactlyWhen(rec.fields["evidence_link"]);
    hide IsStorableInteger, IsStorableFloat, Holds, IsRefused;
  }

  lemma EngineLocals(data: seq<SignalData>, reply: Reply, metric: Option<Fallback>, policy: Option<real>)
    requires AsksEngine(data) && Usable(reply)
    ensures var fields := reply.body.value.fields;
            var rec := Get(fields, "recommendation");
            var l := Audited(data, reply, metric, policy);
            && l.severity == ToFloat(fields["severity"]).value && l.recommendation == rec
            && l.score == if rec != Null then ToFloat(rec.fields["confidence"]).value else l.severity
  {
    var rec := Get(reply.body.value.fields, "recommendation");
    if rec != Null {
      ValidRecommendationIsTruthy(rec);
    }
  }

  /** A confidence of true passes every check as a number, decides, and cannot be audited. */
  function BooleanReply(): Reply {
    Replied(200, Some(Object(map["anomaly" := Bool(true), "severity" := Float(0.5), "reasoning" := Str("r"),
                                 "recommendation" := BooleanRecommendation()])))
  }

  function BooleanRecommendation(): Json {
    Object(RecommendationJson(Recommendation("RETIRE", "t", "N/A", 0.75, "e")).fields["confidence" := Bool(true)])
  }

  lemma BooleanConfidence(data: seq<SignalData>, metric: Option<Fallback>, policy: Option<real>)
    requires AsksEngine(data)
    ensures Usable(BooleanReply()) && !IsWritable(Audited(data, BooleanReply(), metric, policy))
    ensures Audited(data, BooleanReply(), metric, policy).score == 1.0
  {
    assert ACTION_VERBS[2] == "RETIRE";
    RecommendationJsonIsValid(Recommendation("RETIRE", "t", "N/A", 0.75, "e"));
    var rec := BooleanRecommendation();
    assert ValidRecommendation(rec);
    assert !IsStorableNumber(rec.fields["confidence"]);
    assert !IsStorableRecommendation(rec);
    EngineLocals(data, BooleanReply(), metric, policy);
    assert Audited(data, BooleanReply(), metric, policy).score == 1.0;
    hide RecommendationJson, ValidRecommendation, BooleanRecommendation, IsStorableRecommendation, IsWritable, Audited;
    EngineDecisionIsWritableExactlyWhen(data, BooleanReply(), metric, policy);
  }

  lemma RecommendationIsStorable(r: Recommendation)
    requires IsStorableFloat(r.confidence)
    ensures IsStorableRecommendation(RecommendationJson(r))
  {
    hide IsStorableFloat;
  }

  /** What the metric rules decide can be audited exactly when it is an anomaly or its pressure fits the table. */
  lemma MetricDecisionIsWritableExactlyWhen(job: Job, data: seq<SignalData>, reply: Reply, f: Fallback, policy: Option<real>)
    requires !AsksEngine(data) || !Usable(reply)
    requires Decides(DefaultRules(job.service), MetricsOf(data), job.tenant, job.service, Some(f))
    ensures IsWritable(Audited(data, reply, Some(f), policy))
       <==> f.anomaly || (IsStorableFloat(f.severity) && IsStorableFloat(f.score))
  {
    var rules, m := DefaultRules(job.service), MetricsOf(data);
    DefaultRulesAreSound(job.service);
    DecisionMeaning(rules, m, job.tenant, job.service, Some(f));
    ConfidenceIsSeverity(rules, m, job.tenant, job.service, f);
    EngineDecidesExactlyWhen(data, reply, Some(f), policy);
    OrdinaryFloatIsStorable(1.0);
    OrdinaryFloatIsStorable(100.0);
    if f.recommendation.Some? {
      RecommendationIsStorable(f.recommendation.value);
    }
    hide Decides, DefaultRules, MetricsOf, IsStorableFloat, IsStorableRecommendation, BeforeFallback, RecommendationJson;
    hide AsksEngine, Usable;
  }

  lemma ConfidenceIsSeverity(rules: seq<Rule>, m: Metrics, tenant: string, service: string, f: Fallback)
    requires Decides(rules, m, tenant, service, Some(f))
    ensures f.recommendation.Some? ==> f.recommendation.value.confidence == f.severity
  {
  }

  // ---- The static threshold is out of reach for services with rules ----

  lemma {:induction false} MapsOfData(data: seq<SignalData>, i: nat)
    requires i < |data|
    requires forall a, b :: 0 <= a < b < |data| ==> data[a].signal != data[b].signal
    ensures data[i].signal in AlignedMap(data) && AlignedMap(data)[data[i].signal] == data[i].buckets
    ensures data[i].signal in CountMap(data) && CountMap(data)[data[i].signal] == data[i].realCount
  {
    if i < |data| - 1 {
      MapsOfData(data[..|data| - 1], i);
    }
  }

  lemma {:induction false} MaxGapBounds(data: seq<SignalData>, i: nat)
    requires i < |data|
    ensures data[i].gapRatio <= MaxGap(data)
  {
    if i < |data| - 1 {
      MaxGapBounds(data[..|data| - 1], i);
    }
  }

  /** A window with less than half of its buckets missing holds a real sample. */
  lemma SmallGapMeansRealData(s: SignalData, raw: seq<seq<BucketAlignment.Sample>>, now: int, d: nat)
    requires AlignedSignal(s, raw, now, d) && s.gapRatio < MAX_GAP_THRESHOLD
    ensures s.realCount > 0 && |s.buckets| == d + 1
  {
    WindowHasOneMoreBucket(now, d);
    var minutes := Minutes(now, d);
    var actual := BucketAlignment.ActualData(BucketAlignment.Flatten(raw), STEP);
    Quotient(BucketAlignment.Missing(actual, minutes) as real, |minutes| as real);
    if actual == map[] {
      AllMissing(minutes);
      Quotient(|minutes| as real, |minutes| as real);
    }
  }

  lemma {:induction false} AllMissing(minutes: seq<int>)
    ensures BucketAlignment.Missing(map[], minutes) == |minutes|
  {
    if |minutes| > 0 {
      AllMissing(minutes[..|minutes| - 1]);
    }
  }

  predicate IsSignal(metric: string) {
    exists i :: 0 <= i < |SIGNALS| && SIGNALS[i] == metric
  }

  /** Every table starts with a rule about one of the seven signals. */
  lemma FirstRuleIsAboutASignal(service: string)
    requires DefaultRules(service) != []
    ensures IsSignal(DefaultRules(service)[0].metric)
  {
    assert SIGNALS[3] == "db_connection_pool_pct" && SIGNALS[4] == "queue_depth" && SIGNALS[6] == "api_latency_ms";
  }

  lemma RuleHasReading(rule: Rule, index: nat, m: Metrics)
    requires rule.metric in m.realCounts && m.realCounts[rule.metric] > 0
    requires |BucketsOf(m, rule.metric)| > 0
    ensures ReadingOf(rule, index, m).Some?
  {
    StableSort.SortPermutes(BucketsOf(m, rule.metric), ByTime());
  }

  /**
   For a service with rules, an engine failure is always covered by the metrics: the job that asked
   the engine has a metric fallback, so nothing of a refused reply survives into the decision.
   */
  lemma KnownServiceHasMetricFallback(job: Job, data: seq<SignalData>, fetch: string -> seq<seq<BucketAlignment.Sample>>,
                                      now: int, d: nat, metric: Option<Fallback>)
    requires DefaultRules(job.service) != [] && AsksEngine(data) && |data| == |SIGNALS|
    requires forall i :: 0 <= i < |data| ==>
               data[i].signal == SIGNALS[i] && AlignedSignal(data[i], fetch(SIGNALS[i]), now, d)
    requires Decides(DefaultRules(job.service), MetricsOf(data), job.tenant, job.service, metric)
    ensures metric.Some?
  {
    var rules, m := DefaultRules(job.service), MetricsOf(data);
    var rule := rules[0];
    FirstRuleIsAboutASignal(job.service);
    var i :| 0 <= i < |SIGNALS| && SIGNALS[i] == rule.metric;
    SignalsAreDistinct();
    MapsOfData(data, i);
    MaxGapBounds(data, i);
    SmallGapMeansRealData(data[i], fetch(SIGNALS[i]), now, d);
    RuleHasReading(rule, 0, m);
    ReadingsMeaning(rules, m);
  }

  /**
   Over whole jobs of a service with rules: two faults of the engine lead to the same audited
   decision and recommendation, whatever the refused replies held.
   */
  lemma FaultsAuditAlike(job: Job, data: seq<SignalData>, fetch: string -> seq<seq<BucketAlignment.Sample>>,
                         now: int, d: nat, a: Reply, b: Reply, policy: Option<real>, la: Locals, lb: Locals)
    requires DefaultRules(job.service) != [] && |data| == |SIGNALS|
    requires forall i :: 0 <= i < |data| ==>
               data[i].signal == SIGNALS[i] && AlignedSignal(data[i], fetch(SIGNALS[i]), now, d)
    requires !AsksEngine(data) || (!Usable(a) && !Usable(b))
    requires Outcome(job, data, a, policy, la) && Outcome(job, data, b, policy, lb)
    ensures SameDecision(la, lb) && la.recommendation == lb.recommendation
  {
    var rules, m := DefaultRules(job.service), MetricsOf(data);
    EngineDecidesExactlyWhen(data, a, None, policy);
    EngineDecidesExactlyWhen(data, b, None, policy);
    var x :| Decides(rules, m, job.tenant, job.service, x) && la == Audited(data, a, x, policy);
    var y :| Decides(rules, m, job.tenant, job.service, y) && lb == Audited(data, b, y, policy);
    DecisionIsUnique(rules, m, job.tenant, job.service, x, y);
    FaultsDecideAlike(data, a, b, x, policy);
    hide Decides, Outcome, SameDecision, AlignedSignal;
    if AsksEngine(data) {
      KnownServiceHasMetricFallback(job, data, fetch, now, d, x);
    }
    ForeignRecommendationExactlyWhen(data, a, x, policy);
    ForeignRecommendationExactlyWhen(data, b, x, policy);
  }

  lemma SignalsAreDistinct()
    ensures forall a, b :: 0 <= a < b < |SIGNALS| ==> SIGNALS[a] != SIGNALS[b]
  {
    forall a, b | 0 <= a < b < |SIGNALS| ensures SIGNALS[a] != SIGNALS[b] {
    }
  }

  // ---- The engine's own answers ----

  function ResponseJson(r: PredictService.Response, auditId: string): Json {
    Object(map["anomaly" := Bool(r.anomaly), "severity" := Float(r.severity),
               "recommendation" := OptionJson(r.recommendation), "reasoning" := Str(r.reasoning),
               "audit_id" := Str(auditId)])
  }

  lemma RecommendationJsonIsValid(r: Recommendation)
    requires r.Valid()
    ensures ValidRecommendation(RecommendationJson(r))
  {
  }

  /** What is audited is the engine's response. */
  predicate Adopted(l: Locals, r: PredictService.Response) {
    && l.source == ENGINE && l.anomaly == r.anomaly && l.severity == r.severity
    && l.recommendation == OptionJson(r.recommendation)
    && (match r.recommendation
        case Some(rec) => l.decision == rec.verb && l.score == rec.confidence
        case None => l.decision == "KEEP_ALIVE" && l.score == r.severity)
  }

  lemma ResponsePassesSchema(r: PredictService.Response, auditId: string)
    requires PredictService.MeetsContract(r)
    ensures ResponseJson(r, auditId).Object? && PassesSchema(ResponseJson(r, auditId))
    ensures var fields := ResponseJson(r, auditId).fields;
            && fields["anomaly"] == Bool(r.anomaly) && fields["severity"] == Float(r.severity)
            && Get(fields, "recommendation") == OptionJson(r.recommendation)
            && Get(fields, "audit_id") == Str(auditId)
  {
    if r.recommendation.Some? {
      RecommendationJsonIsValid(r.recommendation.value);
      hide ValidRecommendation, RecommendationJson;
    }
  }

  lemma AdoptedResponse(r: PredictService.Response, result: Json, l: Locals)
    requires PassesSchema(result) && l.source == ENGINE
    requires result.fields["anomaly"] == Bool(r.anomaly) && result.fields["severity"] == Float(r.severity)
    requires Get(result.fields, "recommendation") == OptionJson(r.recommendation)
    ensures Adopted(Adopt(result, l), r) && Adopt(result, l).auditId == Get(result.fields, "audit_id")
    ensures Adopt(result, l).status == l.status && Adopt(result, l).engineStatus == l.engineStatus
  {
    if r.recommendation.Some? {
      ValidRecommendationIsTruthy(RecommendationJson(r.recommendation.value));
    }
  }

  lemma ContractIsAdopted(data: seq<SignalData>, r: PredictService.Response, auditId: string,
                          metric: Option<Fallback>, policy: Option<real>)
    requires AsksEngine(data) && PredictService.MeetsContract(r)
    ensures var l := Audited(data, Replied(200, Some(ResponseJson(r, auditId))), metric, policy);
            Adopted(l, r) && l.auditId == Str(auditId) && l.status == "complete" && l.engineStatus == 200
  {
    ResponsePassesSchema(r, auditId);
    hide ResponseJson, PassesSchema, Adopt, OptionJson, PredictService.MeetsContract;
    AdoptedResponse(r, ResponseJson(r, auditId), INITIAL.(engineStatus := 200));
  }

  lemma AdoptedIsWritable(l: Locals, r: PredictService.Response)
    requires Adopted(l, r) && (r.severity == 0.0 || 0.01 <= r.severity <= 1.0)
    requires r.recommendation.Some? ==> 0.6 <= r.recommendation.value.confidence <= 1.0
    ensures IsWritable(l)
  {
    OrdinaryFloatIsStorable(r.severity);
    if r.recommendation.Some? {
      OrdinaryFloatIsStorable(r.recommendation.value.confidence);
      RecommendationIsStorable(r.recommendation.value);
    }
    hide IsStorableFloat, IsStorableRecommendation, RecommendationJson;
  }

  /** Every answer of the engine passes the worker's checks, and is audited as the engine gave it. */
  lemma EngineAnswersAreAdopted(data: seq<SignalData>, window: seq<Datapoint>, header: Option<string>,
                                env: DriftDetector.Env, auditId: string, metric: Option<Fallback>, policy: Option<real>)
    requires env.root > 0.0 && AsksEngine(data)
    requires PredictService.PredictOutcome(window, header, env).Answer?
    ensures var r := PredictService.PredictOutcome(window, header, env).response;
            var l := Audited(data, Replied(200, Some(ResponseJson(r, auditId))), metric, policy);
            && Adopted(l, r) && IsWritable(l)
            && l.auditId == Str(auditId) && l.status == "complete" && l.engineStatus == 200
  {
    hide PredictService.PredictOutcome, PredictService.MeetsContract, Adopted, Audited, ResponseJson, AsksEngine, IsWritable;
    PredictService.AnswersMeetContract(window, header, env);
    PredictService.AnswersHaveOrdinaryNumbers(window, header, env);
    var r := PredictService.PredictOutcome(window, header, env).response;
    ContractIsAdopted(data, r, auditId, metric, policy);
    AdoptedIsWritable(Audited(data, Replied(200, Some(ResponseJson(r, auditId))), metric, policy), r);
  }

  // ---- Alerts ----

  /** On the fallback path every anomaly is alerted: the metric rules give severity 1, the static threshold scales up. */
  lemma FallbackAnomalyAlerts(job: Job, data: seq<SignalData>, reply: Reply, policy: Option<real>, l: Locals)
    requires Outcome(job, data, reply, policy, l) && l.source == FALLBACK
    ensures Alerts(l) <==> l.anomaly
  {
    var metric :| && Decides(DefaultRules(job.service), MetricsOf(data), job.tenant, job.service, metric)
                  && l == Audited(data, reply, metric, policy);
    DefaultRulesAreSound(job.service);
    DecisionMeaning(DefaultRules(job.service), MetricsOf(data), job.tenant, job.service, metric);
  }
}
