/**
 The in-process counters of src/telemetry_api/observability/metrics.py, and the routing of rejection
 reasons by the exception handlers of src/telemetry_api/main.py.
 */
module TelemetryCounters {

  /** get_metrics_snapshot, without the object age gauge. */
  datatype Snapshot = Snapshot(
    accepted: nat, rejected: nat, pii: nat, cardinality: nat, unsupported: nat, internalOnly: nat,
    metricLabel: nat, byReason: map<string, nat>,
    attempts: nat, retries: nat, failed: nat, bufferWrites: nat, bufferFailed: nat, buffered: nat)

  const ZERO := Snapshot(0, 0, 0, 0, 0, 0, 0, map[], 0, 0, 0, 0, 0, 0)

  function CountOf(s: Snapshot, reason: string): nat {
    if reason in s.byReason then s.byReason[reason] else 0
  }

  const PII := "pii_denylist_label"
  const HIGH_CARDINALITY := "high_cardinality_label"
  const RAW_PATH := "raw_endpoint_path_with_ids"
  const UNSUPPORTED := "unsupported_metric_type"
  const INTERNAL_ONLY := "internal_only_metric_not_ai_signal"
  const MISSING_LABEL := "missing_required_label"
  const EMPTY_LABEL := "empty_required_label"

  // ---- The sum over reasons ----

  ghost function SumValues(m: map<string, nat>): nat
    decreases |m|
  {
    if m.Keys == {} then 0
    else
      var k := Pick(m.Keys);
      m[k] + SumValues(m - {k})
  }

  ghost function Pick(keys: set<string>): (k: string)
    requires keys != {}
    ensures k in keys
  {
    var k :| k in keys; k
  }

  /** Any key can be taken out first. */
  lemma {:induction false} SumByKey(m: map<string, nat>, k: string)
    requires k in m
    ensures SumValues(m) == m[k] + SumValues(m - {k})
    decreases |m|
  {
    var p := Pick(m.Keys);
    if p != k {
      SumByKey(m - {p}, k);
      SumByKey(m - {k}, p);
      assert (m - {p}) - {k} == (m - {k}) - {p};
    }
  }

  lemma SumAfterUpdate(m: map<string, nat>, k: string, v: nat)
    ensures SumValues(m[k := v]) == SumValues(m) - (if k in m then m[k] else 0) + v
  {
    var n := m[k := v];
    SumByKey(n, k);
    assert n - {k} == m - {k};
    if k in m {
      SumByKey(m, k);
    } else {
      assert m - {k} == m;
    }
  }

  // ---- What the handlers do to a snapshot ----

  /** record_ingest_rejected. */
  function Rejected(s: Snapshot, reason: string): Snapshot {
    s.(rejected := s.rejected + 1, byReason := s.byReason[reason := CountOf(s, reason) + 1])
  }

  /** telemetry_api_error_handler. */
  function Routed(s: Snapshot, reason: string): Snapshot {
    if reason == PII then Rejected(s.(pii := s.pii + 1), reason)
    else if reason == HIGH_CARDINALITY || reason == RAW_PATH then
      Rejected(s.(cardinality := s.cardinality + 1), reason)
    else if reason == UNSUPPORTED then Rejected(s.(unsupported := s.unsupported + 1), reason)
    else if reason == INTERNAL_ONLY then Rejected(s.(internalOnly := s.internalOnly + 1), reason)
    else if reason == MISSING_LABEL || reason == EMPTY_LABEL then
      Rejected(s.(metricLabel := s.metricLabel + 1), reason)
    else Rejected(s, reason)
  }

  /** Every total is the sum of its reasons. */
  ghost predicate ReasonsAgree(s: Snapshot) {
    && s.rejected == SumValues(s.byReason)
    && s.pii == CountOf(s, PII)
    && s.cardinality == CountOf(s, HIGH_CARDINALITY) + CountOf(s, RAW_PATH)
    && s.unsupported == CountOf(s, UNSUPPORTED)
    && s.internalOnly == CountOf(s, INTERNAL_ONLY)
    && s.metricLabel == CountOf(s, MISSING_LABEL) + CountOf(s, EMPTY_LABEL)
  }

  /** The reasons with a counter of their own are seven different ones. */
  lemma ReasonsDiffer()
    ensures PII !in {HIGH_CARDINALITY, RAW_PATH, UNSUPPORTED, INTERNAL_ONLY, MISSING_LABEL, EMPTY_LABEL}
    ensures HIGH_CARDINALITY !in {RAW_PATH, UNSUPPORTED, INTERNAL_ONLY, MISSING_LABEL, EMPTY_LABEL}
    ensures RAW_PATH !in {UNSUPPORTED, INTERNAL_ONLY, MISSING_LABEL, EMPTY_LABEL}
    ensures UNSUPPORTED !in {INTERNAL_ONLY, MISSING_LABEL, EMPTY_LABEL}
    ensures INTERNAL_ONLY !in {MISSING_LABEL, EMPTY_LABEL}
    ensures MISSING_LABEL != EMPTY_LABEL
  {
    assert PII[0] == 'p' && HIGH_CARDINALITY[0] == 'h' && RAW_PATH[0] == 'r' && UNSUPPORTED[0] == 'u';
    assert INTERNAL_ONLY[0] == 'i' && MISSING_LABEL[0] == 'm' && EMPTY_LABEL[0] == 'e';
  }

  /** One rejection moves the count of its own reason, and the total. */
  lemma RejectionCounts(s: Snapshot, reason: string, other: string)
    ensures CountOf(Rejected(s, reason), other) == CountOf(s, other) + if other == reason then 1 else 0
    ensures SumValues(Rejected(s, reason).byReason) == SumValues(s.byReason) + 1
  {
    SumAfterUpdate(s.byReason, reason, CountOf(s, reason) + 1);
  }

  /** Routing a rejection keeps every total equal to the sum of its reasons. */
  lemma RoutingKeepsAgreement(s: Snapshot, reason: string)
    requires ReasonsAgree(s)
    ensures ReasonsAgree(Routed(s, reason))
  {
    hide SumValues, CountOf, PII, HIGH_CARDINALITY, RAW_PATH, UNSUPPORTED, INTERNAL_ONLY, MISSING_LABEL, EMPTY_LABEL;
    ReasonsDiffer();
    var t := Routed(s, reason);
    RoutedReasons(s, reason);
    forall r ensures CountOf(t, r) == CountOf(s, r) + if r == reason then 1 else 0 {
      RejectionCounts(s, reason, r);
      SameReasonsSameCount(t, Rejected(s, reason), r);
    }
    RejectionCounts(s, reason, reason);
  }

  lemma RoutedReasons(s: Snapshot, reason: string)
    ensures Routed(s, reason).byReason == Rejected(s, reason).byReason
  {
  }

  lemma SameReasonsSameCount(s: Snapshot, t: Snapshot, reason: string)
    requires s.byReason == t.byReason
    ensures CountOf(s, reason) == CountOf(t, reason)
  {
  }

  /** The reasons that are recorded without going through the handler have no counter of their own. */
  predicate IsPlain(reason: string) {
    reason !in {PII, HIGH_CARDINALITY, RAW_PATH, UNSUPPORTED, INTERNAL_ONLY, MISSING_LABEL, EMPTY_LABEL}
  }

  lemma PlainRejection(s: Snapshot, reason: string)
    requires IsPlain(reason)
    ensures Rejected(s, reason) == Routed(s, reason)
  {
  }

  lemma FrameworkReasonsArePlain()
    ensures IsPlain("payload_too_large") && IsPlain("bad_request") && IsPlain("missing_tenant_header")
         && IsPlain("internal_error")
  {
    assert "payload_too_large"[1] == 'a' && PII[1] == 'i';
    assert "bad_request"[0] == 'b';
    assert "missing_tenant_header"[8] == 't' && MISSING_LABEL[8] == 'r';
    assert "internal_error"[9] == 'e' && INTERNAL_ONLY[9] == 'o';
    ReasonsDiffer();
  }

  // ---- The counters ----

  class Counters {
    var accepted: nat
    var rejected: nat
    var pii: nat
    var cardinality: nat
    var unsupported: nat
    var internalOnly: nat
    var metricLabel: nat
    var byReason: map<string, nat>
    var attempts: nat
    var retries: nat
    var failed: nat
    var bufferWrites: nat
    var bufferFailed: nat
    var buffered: nat

    function Snap(): Snapshot
      reads this
    {
      Snapshot(accepted, rejected, pii, cardinality, unsupported, internalOnly, metricLabel, byReason,
               attempts, retries, failed, bufferWrites, bufferFailed, buffered)
    }

    constructor ()
      ensures Snap() == ZERO
    {
      accepted, rejected, pii, cardinality, unsupported, internalOnly, metricLabel := 0, 0, 0, 0, 0, 0, 0;
      byReason := map[];
      attempts, retries, failed, bufferWrites, bufferFailed, buffered := 0, 0, 0, 0, 0, 0;
    }

    method RecordAccepted()
      modifies this
      ensures Snap() == old(Snap()).(accepted := old(accepted) + 1)
    {
      accepted := accepted + 1;
    }

    method RecordRejected(reason: string)
      modifies this
      ensures Snap() == Rejected(old(Snap()), reason)
    {
      rejected := rejected + 1;
      byReason := byReason[reason := (if reason in byReason then byReason[reason] else 0) + 1];
    }

    method RecordPiiRejection(reason: string)
      modifies this
      ensures Snap() == Rejected(old(Snap()).(pii := old(pii) + 1), reason)
    {
      pii := pii + 1;
      RecordRejected(reason);
    }

    method RecordCardinalityRejection(reason: string)
      modifies this
      ensures Snap() == Rejected(old(Snap()).(cardinality := old(cardinality) + 1), reason)
    {
      cardinality := cardinality + 1;
      RecordRejected(reason);
    }

    /** record_metric_rejection: which counter moves depends on the reason. */
    method RecordMetricRejection(reason: string)
      modifies this
      ensures var s := old(Snap());
              && (reason == UNSUPPORTED ==> Snap() == Rejected(s.(unsupported := s.unsupported + 1), reason))
              && (reason == INTERNAL_ONLY ==> Snap() == Rejected(s.(internalOnly := s.internalOnly + 1), reason))
              && (reason == MISSING_LABEL || reason == EMPTY_LABEL ==>
                    Snap() == Rejected(s.(metricLabel := s.metricLabel + 1), reason))
              && (reason !in {UNSUPPORTED, INTERNAL_ONLY, MISSING_LABEL, EMPTY_LABEL} ==> Snap() == Rejected(s, reason))
    {
      ReasonsDiffer();
      if reason == UNSUPPORTED {
        unsupported := unsupported + 1;
      } else if reason == INTERNAL_ONLY {
        internalOnly := internalOnly + 1;
      } else if reason == MISSING_LABEL || reason == EMPTY_LABEL {
        metricLabel := metricLabel + 1;
      }
      RecordRejected(reason);
    }

    /** The exception handler's dispatch. */
    method RouteRejection(reason: string)
      modifies this
      ensures Snap() == Routed(old(Snap()), reason)
      ensures old(ReasonsAgree(Snap())) ==> ReasonsAgree(Snap())
    {
      ReasonsDiffer();
      if reason == PII {
        RecordPiiRejection(reason);
      } else if reason == HIGH_CARDINALITY || reason == RAW_PATH {
        RecordCardinalityRejection(reason);
      } else if reason == UNSUPPORTED || reason == INTERNAL_ONLY || reason == MISSING_LABEL || reason == EMPTY_LABEL {
        RecordMetricRejection(reason);
      } else {
        RecordRejected(reason);
      }
      if old(ReasonsAgree(Snap())) {
        RoutingKeepsAgreement(old(Snap()), reason);
      }
    }

    method RecordAttempt()
      modifies this
      ensures Snap() == old(Snap()).(attempts := old(attempts) + 1)
    {
      attempts := attempts + 1;
    }

    method RecordRetry()
      modifies this
      ensures Snap() == old(Snap()).(retries := old(retries) + 1)
    {
      retries := retries + 1;
    }

    method RecordFailed()
      modifies this
      ensures Snap() == old(Snap()).(failed := old(failed) + 1)
    {
      failed := failed + 1;
    }

    method RecordBufferWrite()
      modifies this
      ensures Snap() == old(Snap()).(bufferWrites := old(bufferWrites) + 1)
    {
      bufferWrites := bufferWrites + 1;
    }

    method RecordBufferFailed()
      modifies this
      ensures Snap() == old(Snap()).(bufferFailed := old(bufferFailed) + 1)
    {
      bufferFailed := bufferFailed + 1;
    }

    method RecordBuffered()
      modifies this
      ensures Snap() == old(Snap()).(buffered := old(buffered) + 1)
    {
      buffered := buffered + 1;
    }
  }
}
