/**
 What the prediction worker sends to the engine (query_amp_metrics and step 4 of process_job in
 src/prediction_worker/app.py), and that the engine's own validation accepts it.
 */
module SignalWindow {
  import opened Wrappers
  import opened BucketAlignment
  import opened Signals
  import opened PredictService
  import DriftAnswers
  import DriftDetector
  import StableSort

  const STEP := 60
  const MICROSECONDS := 1_000_000

  const SIGNALS: seq<string> := [
    "cpu_usage_percent", "memory_usage_percent", "active_connections", "db_connection_pool_pct",
    "queue_depth", "cache_hit_rate_pct", "api_latency_ms"
  ]

  function PolicyOf(signal: string): FillPolicy {
    if signal == "queue_depth" then ZeroFill else ForwardFill
  }

  /** The outcome of querying one signal. */
  datatype SignalData = SignalData(signal: string, buckets: seq<Bucket>, gapRatio: real, realCount: nat)

  function Max(x: real, y: real): real { if y > x then y else x }

  function MaxGap(data: seq<SignalData>): (g: real)
  {
    if |data| == 0 then 0.0 else Max(MaxGap(data[..|data| - 1]), data[|data| - 1].gapRatio)
  }

  /** The bucket starts of the last d minutes before now. */
  function Minutes(now: int, d: nat): seq<int> {
    Expected(BucketStart(now - d * 60, STEP), BucketStart(now, STEP), STEP)
  }

  /** One signal, aligned on the minutes of the window. */
  ghost predicate AlignedSignal(s: SignalData, raw: seq<seq<Sample>>, now: int, d: nat) {
    var actual := ActualData(Flatten(raw), STEP);
    && Aligned(actual, Minutes(now, d), PolicyOf(s.signal), s.buckets)
    && s.gapRatio == GapRatio(Missing(actual, Minutes(now, d)), |Minutes(now, d)|)
    && s.realCount == |actual|
  }

  /** The seven queries, one after the other; fetch gives the empty list for a failed query. */
  method QueryAmpMetrics(fetch: string -> seq<seq<Sample>>, now: int, d: nat)
    returns (data: seq<SignalData>, maxGap: real)
    ensures |data| == |SIGNALS|
    ensures forall i :: 0 <= i < |data| ==>
      data[i].signal == SIGNALS[i] && AlignedSignal(data[i], fetch(SIGNALS[i]), now, d)
    ensures maxGap == MaxGap(data)
  {
    hide SIGNALS, ActualData, GapRatio, Missing, Aligned, Flatten, PolicyOf;
    data, maxGap := [], 0.0;
    for i := 0 to |SIGNALS|
      invariant |data| == i
      invariant forall j :: 0 <= j < i ==>
        data[j].signal == SIGNALS[j] && AlignedSignal(data[j], fetch(SIGNALS[j]), now, d)
      invariant maxGap == MaxGap(data)
    {
      var signal := SIGNALS[i];
      var aligned, gapRatio, realCount :=
        AlignAndImpute(fetch(signal), now - d * 60, now, STEP, PolicyOf(signal));
      var entry := SignalData(signal, aligned, gapRatio, realCount);
      assert (data + [entry])[..i] == data;
      data := data + [entry];
      maxGap := if gapRatio > maxGap then gapRatio else maxGap;
    }
  }

  /** Whatever the clock shows, a lookback of d minutes has d + 1 buckets. */
  lemma WindowHasOneMoreBucket(now: int, d: nat)
    ensures |Minutes(now, d)| == d + 1
    ensures forall i :: 0 <= i <= d ==> Minutes(now, d)[i] == BucketStart(now, STEP) - (d - i) * STEP
  {
    assert BucketStart(now - d * 60, STEP) == BucketStart(now, STEP) - d * STEP;
  }

  // ---- The payload ----

  function ToDatapoint(b: Bucket, signal: string, tenant: string, service: string): Datapoint {
    Datapoint(b.ts * MICROSECONDS, (b.ts / 60) % 1440, tenant, service, signal, b.value)
  }

  function Block(s: SignalData, tenant: string, service: string): (r: seq<Datapoint>)
    ensures |r| == |s.buckets|
    ensures forall i :: 0 <= i < |r| ==> r[i] == ToDatapoint(s.buckets[i], s.signal, tenant, service)
  {
    seq(|s.buckets|, i requires 0 <= i < |s.buckets| => ToDatapoint(s.buckets[i], s.signal, tenant, service))
  }

  function Payload(data: seq<SignalData>, tenant: string, service: string): seq<Datapoint> {
    if |data| == 0 then []
    else Payload(data[..|data| - 1], tenant, service) + Block(data[|data| - 1], tenant, service)
  }

  method BuildPayload(data: seq<SignalData>, tenant: string, service: string) returns (window: seq<Datapoint>)
    ensures window == Payload(data, tenant, service)
  {
    window := [];
    for i := 0 to |data|
      invariant window == Payload(data[..i], tenant, service)
    {
      assert data[..i + 1][..i] == data[..i];
      ghost var before := window;
      for k := 0 to |data[i].buckets|
        invariant window == before + Block(data[i], tenant, service)[..k]
      {
        window := window + [ToDatapoint(data[i].buckets[k], data[i].signal, tenant, service)];
      }
    }
    assert data[..|data|] == data;
  }

  /** Every signal covers exactly the minutes of the window. */
  ghost predicate Covers(data: seq<SignalData>, now: int, d: nat) {
    forall i :: 0 <= i < |data| ==>
      && |data[i].buckets| == d + 1
      && forall k :: 0 <= k <= d ==> data[i].buckets[k].ts == BucketStart(now, STEP) - (d - k) * STEP
  }

  lemma QueriedDataCovers(data: seq<SignalData>, fetch: string -> seq<seq<Sample>>, now: int, d: nat)
    requires forall i :: 0 <= i < |data| ==> AlignedSignal(data[i], fetch(data[i].signal), now, d)
    ensures Covers(data, now, d)
  {
    WindowHasOneMoreBucket(now, d);
  }

  lemma {:induction false} PayloadIsClean(data: seq<SignalData>, tenant: string, service: string, now: int, d: nat)
    requires Covers(data, now, d)
    ensures var w := Payload(data, tenant, service);
            && |w| == |data| * (d + 1)
            && (|data| > 0 ==> |w| > 0 && w[|w| - 1].ts == BucketStart(now, STEP) * MICROSECONDS)
            && Clean(w, tenant)
  {
    if |data| == 0 {
    } else {
      var k := |data| - 1;
      PayloadIsClean(data[..k], tenant, service, now, d);
      var before, block := Payload(data[..k], tenant, service), Block(data[k], tenant, service);
      BlockTimes(data[k], tenant, service, now, d);
      OneMoreBlock(k, d + 1);
      hide Payload, Block, Covers, Clean;
      AppendingKeepsClean(before, block, tenant);
      assert before + block == before + block[..|block|];
      assert (before + block)[|before| + d] == block[d];
    }
  }

  // ---- The values that are sent ----

  /** Minute m of the day is the one in which second t of some day falls. */
  predicate IsMinuteOf(m: int, t: int) {
    m * 60 <= t % 86400 < m * 60 + 60
  }

  lemma MinuteOfDay(t: int)
    ensures IsMinuteOf((t / 60) % 1440, t)
  {
    var day, rest := t / 86400, t % 86400;
    assert t == day * 86400 + rest;
    assert t / 60 == day * 1440 + rest / 60;
  }

  lemma MinuteIsUnique(m: int, n: int, t: int)
    requires IsMinuteOf(m, t) && IsMinuteOf(n, t)
    ensures m == n
  {
  }

  /** A datapoint that reports a bucket of a signal. */
  predicate Reports(p: Datapoint, b: Bucket, signal: string, tenant: string, service: string) {
    && p.ts == b.ts * 1_000_000 && IsMinuteOf(p.minuteOfDay, b.ts)
    && p.tenant == tenant && p.service == service && p.metric == signal && p.value == b.value
  }

  lemma BlockReports(s: SignalData, tenant: string, service: string)
    ensures var block := Block(s, tenant, service);
            && |block| == |s.buckets|
            && forall k :: 0 <= k < |block| ==> Reports(block[k], s.buckets[k], s.signal, tenant, service)
  {
    forall k | 0 <= k < |s.buckets|
      ensures Reports(Block(s, tenant, service)[k], s.buckets[k], s.signal, tenant, service)
    {
      MinuteOfDay(s.buckets[k].ts);
    }
  }

  /** Where bucket k of signal i stands in a request of equally long blocks. */
  function Position(i: nat, k: nat, size: nat): nat { i * size + k }

  lemma EarlierBlock(i: nat, n: nat, k: nat, size: nat)
    requires i < n && k < size
    ensures Position(i, k, size) < Position(n, 0, size)
  {
    var rest := n - i - 1;
    assert n * size == i * size + size + rest * size;
  }

  lemma OwnBlock(n: nat, k: nat, size: nat)
    ensures Position(n, k, size) == Position(n, 0, size) + k
  {
  }

  lemma {:induction false} PayloadEntry(data: seq<SignalData>, tenant: string, service: string, d: nat, i: nat, k: nat)
    requires forall j :: 0 <= j < |data| ==> |data[j].buckets| == d + 1
    requires i < |data| && k <= d
    ensures var w, at := Payload(data, tenant, service), Position(i, k, d + 1);
            at < |w| && Reports(w[at], data[i].buckets[k], data[i].signal, tenant, service)
  {
    var n := |data| - 1;
    var before, block := Payload(data[..n], tenant, service), Block(data[n], tenant, service);
    assert Payload(data, tenant, service) == before + block;
    BlockReports(data[n], tenant, service);
    PayloadSize(data[..n], tenant, service, d);
    assert |before| == Position(n, 0, d + 1);
    hide Payload, Block, Reports, Position;
    if i < n {
      EarlierBlock(i, n, k, d + 1);
      PayloadEntry(data[..n], tenant, service, d, i, k);
    } else {
      OwnBlock(n, k, d + 1);
      assert (before + block)[|before| + k] == block[k];
    }
  }

  /** Bucket k of signal i is datapoint i (d + 1) + k of the request, field by field. */
  lemma PayloadReports(data: seq<SignalData>, tenant: string, service: string, d: nat, i: nat, k: nat)
    requires forall j :: 0 <= j < |data| ==> |data[j].buckets| == d + 1
    requires i < |data| && k <= d
    ensures var w, at := Payload(data, tenant, service), i * (d + 1) + k;
            && |w| == |data| * (d + 1) && at < |w|
            && Reports(w[at], data[i].buckets[k], data[i].signal, tenant, service)
  {
    PayloadSize(data, tenant, service, d);
    PayloadEntry(data, tenant, service, d, i, k);
    hide Payload, Reports;
  }

  lemma {:induction false} PayloadSize(data: seq<SignalData>, tenant: string, service: string, d: nat)
    requires forall j :: 0 <= j < |data| ==> |data[j].buckets| == d + 1
    ensures |Payload(data, tenant, service)| == |data| * (d + 1)
  {
    if |data| == 0 {
    } else {
      PayloadSize(data[..|data| - 1], tenant, service, d);
      OneMoreBlock(|data| - 1, d + 1);
    }
  }

  lemma OneMoreBlock(k: nat, size: nat)
    ensures (k + 1) * size == k * size + size
  {
  }

  /** Within a block the time advances by exactly one step, and the block ends at the last minute. */
  lemma BlockTimes(s: SignalData, tenant: string, service: string, now: int, d: nat)
    requires |s.buckets| == d + 1
    requires forall k :: 0 <= k <= d ==> s.buckets[k].ts == BucketStart(now, STEP) - (d - k) * STEP
    ensures var block := Block(s, tenant, service);
            && |block| == d + 1 && Clean(block, tenant)
            && block[0].ts <= BucketStart(now, STEP) * MICROSECONDS == block[d].ts
  {
    var block := Block(s, tenant, service);
    assert d * STEP >= 0;
    forall i | 0 <= i < |block| ensures !Foreign(block, tenant, i) && !Gap(block, i) {
      if i > 0 {
        assert s.buckets[i].ts == s.buckets[i - 1].ts + STEP;
      }
    }
  }

  /** A clean block may follow a clean window that it does not run ahead of. */
  lemma AppendingKeepsClean(before: seq<Datapoint>, block: seq<Datapoint>, tenant: string)
    requires Clean(before, tenant) && Clean(block, tenant)
    requires |before| > 0 && |block| > 0 ==> block[0].ts <= before[|before| - 1].ts
    ensures Clean(before + block, tenant)
  {
    var w := before + block;
    forall i | 0 <= i < |w| ensures !Foreign(w, tenant, i) && !Gap(w, i) {
      if i < |before| {
        assert !Foreign(before, tenant, i) && !Gap(before, i);
      } else {
        assert !Foreign(block, tenant, i - |before|) && !Gap(block, i - |before|);
      }
    }
  }

  /** The engine's checks pass for a worker window exactly when the lookback is 17 to 1427 minutes. */
  lemma WorkerWindowIsAccepted(data: seq<SignalData>, tenant: string, service: string, now: int, d: nat)
    requires Covers(data, now, d) && |data| == |SIGNALS|
    ensures var w := Payload(data, tenant, service);
            && |w| == 7 * (d + 1)
            && Clean(w, tenant)
            && (Fits(w) <==> 17 <= d <= 1427)
  {
    PayloadIsClean(data, tenant, service, now, d);
  }

  /** So a worker request is never refused for its window: it is answered, or its text is too long. */
  lemma WorkerRequestOutcome(data: seq<SignalData>, tenant: string, service: string, now: int, d: nat,
                             env: DriftDetector.Env)
    requires Covers(data, now, d) && |data| == |SIGNALS| && tenant != "" && env.root > 0.0
    ensures var o := PredictOutcome(Payload(data, tenant, service), Some(tenant), env);
            if 17 <= d <= 1427 then o.Answer? || o.ServerError? else o.Unprocessable?
  {
    WorkerWindowIsAccepted(data, tenant, service, now, d);
    NoFaultMeansClean(Payload(data, tenant, service), tenant, 0);
  }

  // ---- What the engine can conclude from a worker window ----

  lemma {:induction false} GroupOfAppended(before: seq<Datapoint>, block: seq<Datapoint>, key: DriftDetector.Key)
    ensures DriftDetector.Points(before + block, key)
         == DriftDetector.Points(before, key) + DriftDetector.Points(block, key)
  {
    if |block| == 0 {
      assert before + block == before;
    } else {
      var k := |block| - 1;
      GroupOfAppended(before, block[..k], key);
      assert (before + block)[..|before| + k] == before + block[..k];
    }
  }

  lemma {:induction false} GroupSizeAtMost(points: seq<Datapoint>, key: DriftDetector.Key)
    ensures |DriftDetector.Points(points, key)| <= |points|
    ensures (forall i :: 0 <= i < |points| ==> DriftDetector.KeyOf(points[i]) != key)
            ==> DriftDetector.Points(points, key) == []
  {
    if |points| == 0 {
    } else {
      GroupSizeAtMost(points[..|points| - 1], key);
    }
  }

  lemma CoversPrefix(data: seq<SignalData>, now: int, d: nat)
    requires Covers(data, now, d) && |data| > 0
    ensures Covers(data[..|data| - 1], now, d) && |data[|data| - 1].buckets| == d + 1
  {
  }

  /** No group of a worker window has more than d + 1 points. */
  lemma {:induction false} WorkerGroupSize(data: seq<SignalData>, tenant: string, service: string, now: int, d: nat,
                                          key: DriftDetector.Key)
    requires Covers(data, now, d)
    requires forall i, j :: 0 <= i < j < |data| ==> data[i].signal != data[j].signal
    ensures |DriftDetector.Points(Payload(data, tenant, service), key)| <= d + 1
    ensures (forall i :: 0 <= i < |data| ==> data[i].signal != key.1)
            ==> DriftDetector.Points(Payload(data, tenant, service), key) == []
  {
    if |data| == 0 {
    } else {
      hide Covers, DriftDetector.Points;
      var k := |data| - 1;
      CoversPrefix(data, now, d);
      WorkerGroupSize(data[..k], tenant, service, now, d, key);
      var block := Block(data[k], tenant, service);
      GroupOfAppended(Payload(data[..k], tenant, service), block, key);
      GroupSizeAtMost(block, key);
    }
  }

  /** Without baselines, a lookback under 21 minutes cannot raise an anomaly, whatever the metrics show. */
  lemma ShortLookbackIsSilent(data: seq<SignalData>, tenant: string, service: string, now: int, d: nat,
                              env: DriftDetector.Env)
    requires Covers(data, now, d) && d < 21 && env.Valid() && env.baselines == map[]
    requires forall i, j :: 0 <= i < j < |data| ==> data[i].signal != data[j].signal
    ensures !DriftDetector.Drift(Payload(data, tenant, service), env).anomaly
  {
    var w := Payload(data, tenant, service);
    forall key ensures |DriftDetector.Points(w, key)| < 22 {
      WorkerGroupSize(data, tenant, service, now, d, key);
    }
    DriftDetector.ShortWindowIsSilent(w, env);
  }

  /** The engine's group of a signal is the block that was sent for it. */
  lemma {:induction false} GroupIsBlock(data: seq<SignalData>, tenant: string, service: string, i: nat)
    requires i < |data|
    requires forall j, l :: 0 <= j < l < |data| ==> data[j].signal != data[l].signal
    ensures DriftDetector.Points(Payload(data, tenant, service), (service, data[i].signal))
         == Block(data[i], tenant, service)
  {
    var n, key := |data| - 1, (service, data[i].signal);
    var before, block := Payload(data[..n], tenant, service), Block(data[n], tenant, service);
    GroupOfAppended(before, block, key);
    if i < n {
      GroupIsBlock(data[..n], tenant, service, i);
      GroupSizeAtMost(block, key);
    } else {
      OtherSignals(data[..n], tenant, service, key);
      if |block| > 0 {
        OneGroup(block, key);
      }
    }
  }

  lemma {:induction false} OtherSignals(data: seq<SignalData>, tenant: string, service: string, key: DriftDetector.Key)
    requires forall j :: 0 <= j < |data| ==> data[j].signal != key.1
    ensures DriftDetector.Points(Payload(data, tenant, service), key) == []
  {
    if |data| == 0 {
    } else {
      var n := |data| - 1;
      OtherSignals(data[..n], tenant, service, key);
      var block := Block(data[n], tenant, service);
      GroupOfAppended(Payload(data[..n], tenant, service), block, key);
      GroupSizeAtMost(block, key);
    }
  }

  lemma BlockIsInOrder(s: SignalData, tenant: string, service: string, now: int, d: nat)
    requires |s.buckets| == d + 1
    requires forall k :: 0 <= k <= d ==> s.buckets[k].ts == BucketStart(now, STEP) - (d - k) * STEP
    ensures DriftDetector.TimeOrder(Block(s, tenant, service)) == Block(s, tenant, service)
  {
    StableSort.SortKeepsOrdered(Block(s, tenant, service), DriftDetector.Earlier());
  }

  /** What the engine judges for a signal, in time order: exactly the signal's buckets. */
  lemma EngineJudgesBuckets(data: seq<SignalData>, tenant: string, service: string, now: int, d: nat, i: nat)
    requires Covers(data, now, d) && i < |data|
    requires forall j, l :: 0 <= j < l < |data| ==> data[j].signal != data[l].signal
    ensures var group := DriftDetector.Points(Payload(data, tenant, service), (service, data[i].signal));
            && DriftDetector.TimeOrder(group) == group && |group| == d + 1
            && forall k :: 0 <= k <= d ==> Reports(group[k], data[i].buckets[k], data[i].signal, tenant, service)
  {
    GroupIsBlock(data, tenant, service, i);
    BlockReports(data[i], tenant, service);
    BlockIsInOrder(data[i], tenant, service, now, d);
    hide Reports, Payload, Block, DriftDetector.Points, DriftDetector.TimeOrder;
  }

  /** Every bucket of the signal lies delta above the seasonal value of its minute. */
  ghost predicate Departs(buckets: seq<Bucket>, b: DriftDetector.Baseline, delta: real) {
    forall k, m: nat :: 0 <= k < |buckets| && IsMinuteOf(m, buckets[k].ts) ==>
      buckets[k].value == b.profile[m % |b.profile|] + delta
  }

  lemma {:induction false} PayloadIsOfData(data: seq<SignalData>, tenant: string, service: string, p: Datapoint)
    requires p in Payload(data, tenant, service)
    ensures exists i, k :: 0 <= i < |data| && 0 <= k < |data[i].buckets|
                           && Reports(p, data[i].buckets[k], data[i].signal, tenant, service)
  {
    var n := |data| - 1;
    var block := Block(data[n], tenant, service);
    if p in block {
      BlockReports(data[n], tenant, service);
      var k :| 0 <= k < |block| && block[k] == p;
      assert Reports(p, data[n].buckets[k], data[n].signal, tenant, service);
    } else {
      PayloadIsOfData(data[..n], tenant, service, p);
      var i, k :| 0 <= i < n && 0 <= k < |data[..n][i].buckets|
                  && Reports(p, data[..n][i].buckets[k], data[..n][i].signal, tenant, service);
      assert Reports(p, data[i].buckets[k], data[i].signal, tenant, service);
    }
  }

  /**
   From the metrics to the alarm: a trained signal whose buckets all lie delta from its season alarms
   exactly when the lookback is at least two minutes and delta, weakened by the chart's slow start, is
   beyond the control limit; then the verdict points to the side of delta.
   */
  lemma WorkerSeesDeparture(data: seq<SignalData>, tenant: string, service: string, now: int, d: nat, i: nat,
                            delta: real, env: DriftDetector.Env)
    requires Covers(data, now, d) && i < |data| && env.root > 0.0
    requires forall j, l :: 0 <= j < l < |data| ==> data[j].signal != data[l].signal
    requires (service, data[i].signal) in env.baselines
    requires Departs(data[i].buckets, env.baselines[(service, data[i].signal)], delta)
    ensures var w, key := Payload(data, tenant, service), (service, data[i].signal);
            && (DriftDetector.Alarms(w, key, env)
                <==> d >= 2 && DriftAnswers.Strength(delta, d + 1)
                               > DriftAnswers.LimitOf(env.baselines[key].residStd, env.root))
            && (DriftDetector.Alarms(w, key, env) ==>
                  DriftAnswers.GroupVerdictOf(w, key, env).direction == if delta > 0.0 then 1 else -1)
  {
    var w, key := Payload(data, tenant, service), (service, data[i].signal);
    EngineJudgesBuckets(data, tenant, service, now, d, i);
    WindowIsSteady(data, tenant, service, i, delta, env.baselines[key]);
    hide Reports, Payload, DriftDetector.Points, DriftDetector.TimeOrder, DriftDetector.Alarms, DriftDetector.VerdictOf,
      DriftAnswers.Strength, DriftAnswers.LimitOf, DriftAnswers.Steady, Departs, Covers;
    DriftAnswers.SteadyDeparture(w, key, delta, env);
  }

  lemma WindowIsSteady(data: seq<SignalData>, tenant: string, service: string, i: nat, delta: real,
                       b: DriftDetector.Baseline)
    requires i < |data| && Departs(data[i].buckets, b, delta)
    requires forall j, l :: 0 <= j < l < |data| ==> data[j].signal != data[l].signal
    ensures DriftAnswers.Steady(Payload(data, tenant, service), (service, data[i].signal), b, delta)
  {
    var w := Payload(data, tenant, service);
    forall n | 0 <= n < |w| && w[n].service == service && w[n].metric == data[i].signal
      ensures w[n].value == b.profile[w[n].minuteOfDay % |b.profile|] + delta
    {
      PayloadIsOfData(data, tenant, service, w[n]);
      var j, k :| 0 <= j < |data| && 0 <= k < |data[j].buckets|
                  && Reports(w[n], data[j].buckets[k], data[j].signal, tenant, service);
      assert j == i;
    }
  }

  // ---- How gaps are filled ----

  /** Some sample falls into the minute that starts at t. */
  ghost predicate IsSampled(samples: seq<Sample>, t: int) {
    exists j :: 0 <= j < |samples| && BucketOfSample(samples[j], STEP) == t
  }

  /** A minute without a sample repeats the minute before it, except that a queue's depth is then zero. */
  lemma GapIsFilled(s: SignalData, raw: seq<seq<Sample>>, now: int, d: nat, k: nat)
    requires AlignedSignal(s, raw, now, d) && k < |s.buckets|
    requires !IsSampled(Flatten(raw), s.buckets[k].ts)
    ensures s.buckets[k].value
         == if s.signal == "queue_depth" || k == 0 then 0.0 else s.buckets[k - 1].value
  {
    var actual, minutes := ActualData(Flatten(raw), STEP), Minutes(now, d);
    ActualDataMeaning(Flatten(raw), STEP, s.buckets[k].ts);
    assert minutes[k] !in actual;
    hide ActualData, Minutes;
    assert k > 0 ==> s.buckets[k - 1].value == Filled(actual, minutes, k - 1, PolicyOf(s.signal));
  }

  /** Sample i is the last one of the minute that starts at t. */
  ghost predicate IsLastSample(samples: seq<Sample>, i: nat, t: int) {
    && i < |samples| && BucketOfSample(samples[i], STEP) == t
    && forall j :: i < j < |samples| ==> BucketOfSample(samples[j], STEP) != t
  }

  /** A minute with samples holds the last of them. */
  lemma SampleIsKept(s: SignalData, raw: seq<seq<Sample>>, now: int, d: nat, k: nat)
    requires AlignedSignal(s, raw, now, d) && k < |s.buckets|
    requires IsSampled(Flatten(raw), s.buckets[k].ts)
    ensures exists i: nat :: IsLastSample(Flatten(raw), i, s.buckets[k].ts) && s.buckets[k].value == Flatten(raw)[i].value
  {
    var samples, t := Flatten(raw), s.buckets[k].ts;
    var actual, minutes := ActualData(samples, STEP), Minutes(now, d);
    assert s.buckets[k] == Bucket(minutes[k], Filled(actual, minutes, k, PolicyOf(s.signal)));
    assert t in actual ==> s.buckets[k].value == actual[t];
    hide Flatten, Filled, Minutes, AlignedSignal, BucketOfSample;
    ActualDataMeaning(samples, STEP, t);
    hide ActualData;
    var i :| && 0 <= i < |samples| && BucketOfSample(samples[i], STEP) == t && samples[i].value == actual[t]
             && forall j :: i < j < |samples| ==> BucketOfSample(samples[j], STEP) != t;
    assert IsLastSample(samples, i, t);
  }
}
