/**
 The runs of AuditProtocol with the decisions of PredictionJob: an attempt can put its item only when
 the decision it came to can be written.
 */
module JobRuns {
  import opened AuditProtocol
  import opened PredictionJob
  import opened Wrappers
  import Json
  import MetricFallback
  import SignalWindow

  /** The i-th step, if it hands out a message, starts an attempt that comes to the i-th decision. */
  ghost predicate Decided(steps: seq<Step>, decisions: nat -> Locals) {
    forall i :: 0 <= i < |steps| && steps[i].Receive? ==> steps[i].writable == IsWritable(decisions(i))
  }

  /** A message about which only unwritable decisions are made leaves no trace but its place in the queue. */
  ghost predicate OnlyWaits(states: seq<State>, steps: seq<Step>, i: nat, m: Message)
    requires i < |states| && |states| == |steps| + 1
  {
    && ItemsOf(states[i], m) == {}
    && (forall a :: a in states[i].deletions || a in states[i].alerts ==> a.message != m)
    && (m in states[i].receives && !DeadLettered(steps, i, m) ==> m in states[i].pending)
  }

  lemma UnwritableDecisionsOnlyWait(states: seq<State>, steps: seq<Step>, decisions: nat -> Locals, i: nat, m: Message)
    requires IsRun(states, steps) && Decided(steps, decisions) && i < |states|
    requires forall j :: 0 <= j < |steps| && steps[j].Receive? && steps[j].message == m ==> !IsWritable(decisions(j))
    ensures |states| == |steps| + 1 && OnlyWaits(states, steps, i, m)
  {
    StartOfRun(states, steps);
    assert NeverWritable(steps, m);
    hide IsRun, IsWritable, NeverWritable, Decided;
    UnwritableIsNeverPut(states, steps, m);
    UnwritableStays(states, steps, i, m);
  }

  /** The decision was made about a service without rules, from the reply with the overflowing confidence. */
  ghost predicate FromOverflow(l: Locals) {
    exists job: Job, data: seq<SignalWindow.SignalData>, policy ::
      && AsksEngine(data) && MetricFallback.DefaultRules(job.service) == []
      && Outcome(job, data, OverflowingReply(), policy, l)
  }

  lemma SearchHasNoRules()
    ensures MetricFallback.DefaultRules("search") == []
  {
    assert "search"[0] == 's' && "payment-gw"[0] == 'p' && "ledger"[0] == 'l' && "fraud-detector"[0] == 'f';
  }

  lemma CompleteSignalAsks(data: seq<SignalWindow.SignalData>)
    requires |data| == 1 && data[0].gapRatio == 0.0
    ensures AsksEngine(data)
  {
    assert data[..0] == [];
  }

  lemma NoRulesDecideNothing(m: MetricFallback.Metrics, tenant: string, service: string)
    ensures MetricFallback.Decides([], m, tenant, service, None)
  {
  }

  /** There are such decisions: a job of a service without rules that asks the engine makes one. */
  lemma OverflowOccurs(tenant: string, policy: Option<real>) returns (job: Job, data: seq<SignalWindow.SignalData>)
    ensures AsksEngine(data) && MetricFallback.DefaultRules(job.service) == []
    ensures FromOverflow(Audited(data, OverflowingReply(), None, policy))
  {
    hide AsksEngine, MetricFallback.DefaultRules, MetricFallback.Decides, Outcome, Audited, OverflowingReply, MetricsOf;
    job := Job(tenant, "search", Json.Null);
    data := [SignalWindow.SignalData("cpu_usage_percent", [], 0.0, 1)];
    CompleteSignalAsks(data);
    SearchHasNoRules();
    NoRulesDecideNothing(MetricsOf(data), tenant, "search");
    OverflowOutcome(job, data, policy);
  }

  lemma OverflowOutcome(job: Job, data: seq<SignalWindow.SignalData>, policy: Option<real>)
    requires AsksEngine(data) && MetricFallback.DefaultRules(job.service) == []
    requires MetricFallback.Decides([], MetricsOf(data), job.tenant, job.service, None)
    ensures Outcome(job, data, OverflowingReply(), policy, Audited(data, OverflowingReply(), None, policy))
  {
    OverflowingReplyIsRefusedLate();
    EngineDecidesExactlyWhen(data, OverflowingReply(), None, policy);
    hide OverflowingReply, AsksEngine, Usable, MetricFallback.Decides, MetricsOf, PassedSchema;
  }

  lemma OverflowIsUnwritable(l: Locals)
    requires FromOverflow(l)
    ensures !IsWritable(l)
  {
    hide IsWritable, Outcome, OverflowingReply, AsksEngine, MetricFallback.DefaultRules, PassedSchema;
    var job: Job, data: seq<SignalWindow.SignalData>, policy :|
      && AsksEngine(data) && MetricFallback.DefaultRules(job.service) == []
      && Outcome(job, data, OverflowingReply(), policy, l);
    OverflowingConfidence(job, data, policy, l);
  }

  /**
   While the engine keeps giving that reply about such a service, its message is never audited, alerted
   or deleted, in any interleaving: it is received again and again until it is dead-lettered.
   */
  lemma OverflowPoisonsTheMessage(states: seq<State>, steps: seq<Step>, decisions: nat -> Locals, i: nat, m: Message)
    requires IsRun(states, steps) && Decided(steps, decisions) && i < |states|
    requires forall j :: 0 <= j < |steps| && steps[j].Receive? && steps[j].message == m ==> FromOverflow(decisions(j))
    ensures |states| == |steps| + 1 && OnlyWaits(states, steps, i, m)
  {
    hide IsWritable, FromOverflow, IsRun, Decided, OnlyWaits;
    forall j | 0 <= j < |steps| && steps[j].Receive? && steps[j].message == m ensures !IsWritable(decisions(j)) {
      OverflowIsUnwritable(decisions(j));
    }
    UnwritableDecisionsOnlyWait(states, steps, decisions, i, m);
  }
}
