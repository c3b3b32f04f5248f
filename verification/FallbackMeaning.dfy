/**
 What the rule evaluation of src/prediction_worker/app.py means for the buckets: which minutes a rule
 looks at, said through their times, when it is breached, and which breached rule decides.
 */
module FallbackMeaning {
  import opened Wrappers
  import opened RealArith
  import opened Signals
  import opened BucketAlignment
  import opened MetricFallback
  import StableSort

  // ---- The latest buckets ----

  /** How many buckets are later than t. */
  function CountLater(buckets: seq<Bucket>, t: int): nat {
    if |buckets| == 0 then 0
    else CountLater(buckets[1..], t) + if buckets[0].ts > t then 1 else 0
  }

  ghost predicate DistinctMinutes(buckets: seq<Bucket>) {
    forall i, j :: 0 <= i < j < |buckets| ==> buckets[i].ts != buckets[j].ts
  }

  /** One of the latest buckets; a window of no minutes still holds the last one. */
  predicate IsLatest(b: Bucket, buckets: seq<Bucket>, minutes: int) {
    b in buckets && CountLater(buckets, b.ts) < if minutes > 1 then minutes else 1
  }

  /** Number and sum of the latest buckets of `all` among these. */
  function CountLatest(buckets: seq<Bucket>, all: seq<Bucket>, minutes: int): nat {
    if |buckets| == 0 then 0
    else CountLatest(buckets[1..], all, minutes) + if IsLatest(buckets[0], all, minutes) then 1 else 0
  }

  function SumLatest(buckets: seq<Bucket>, all: seq<Bucket>, minutes: int): real {
    if |buckets| == 0 then 0.0
    else SumLatest(buckets[1..], all, minutes) + if IsLatest(buckets[0], all, minutes) then buckets[0].value else 0.0
  }

  // ---- Sorting by time ----

  lemma {:induction false} CountLaterOfInsert(b: Bucket, s: seq<Bucket>, t: int)
    ensures CountLater(StableSort.Insert(b, s, ByTime()), t) == CountLater(s, t) + if b.ts > t then 1 else 0
  {
    if |s| == 0 || b.ts <= s[0].ts {
      assert ([b] + s)[1..] == s;
    } else {
      CountLaterOfInsert(b, s[1..], t);
      var rest := StableSort.Insert(b, s[1..], ByTime());
      assert ([s[0]] + rest)[1..] == rest;
    }
  }

  lemma {:induction false} CountLaterOfSort(s: seq<Bucket>, t: int)
    ensures CountLater(StableSort.Sort(s, ByTime()), t) == CountLater(s, t)
  {
    if |s| == 0 {
    } else {
      CountLaterOfSort(s[1..], t);
      CountLaterOfInsert(s[0], StableSort.Sort(s[1..], ByTime()), t);
    }
  }

  lemma InSort(s: seq<Bucket>, b: Bucket)
    ensures b in StableSort.Sort(s, ByTime()) <==> b in s
  {
    StableSort.SortPermutes(s, ByTime());
    StableSort.SameElements(StableSort.Sort(s, ByTime()), s, b);
  }

  /** Sorting changes which buckets are the latest ones as little as it changes the buckets. */
  lemma LatestOfSort(b: Bucket, s: seq<Bucket>, minutes: int)
    ensures IsLatest(b, StableSort.Sort(s, ByTime()), minutes) <==> IsLatest(b, s, minutes)
  {
    InSort(s, b);
    CountLaterOfSort(s, b.ts);
  }

  lemma {:induction false} SumOfInsert(b: Bucket, s: seq<Bucket>, all: seq<Bucket>, minutes: int)
    ensures var r := StableSort.Insert(b, s, ByTime());
            && CountLatest(r, all, minutes) == CountLatest(s, all, minutes) + (if IsLatest(b, all, minutes) then 1 else 0)
            && SumLatest(r, all, minutes)
            == SumLatest(s, all, minutes) + (if IsLatest(b, all, minutes) then b.value else 0.0)
  {
    hide IsLatest;
    if |s| == 0 || b.ts <= s[0].ts {
      assert ([b] + s)[1..] == s;
    } else {
      SumOfInsert(b, s[1..], all, minutes);
      var rest := StableSort.Insert(b, s[1..], ByTime());
      assert ([s[0]] + rest)[1..] == rest;
    }
  }

  lemma {:induction false} SumOfSort(s: seq<Bucket>, all: seq<Bucket>, minutes: int)
    ensures CountLatest(StableSort.Sort(s, ByTime()), all, minutes) == CountLatest(s, all, minutes)
    ensures SumLatest(StableSort.Sort(s, ByTime()), all, minutes) == SumLatest(s, all, minutes)
  {
    hide IsLatest;
    if |s| == 0 {
    } else {
      SumOfSort(s[1..], all, minutes);
      SumOfInsert(s[0], StableSort.Sort(s[1..], ByTime()), all, minutes);
    }
  }

  lemma {:induction false} SumOfSame(buckets: seq<Bucket>, all: seq<Bucket>, all': seq<Bucket>, minutes: int)
    requires forall b :: IsLatest(b, all, minutes) <==> IsLatest(b, all', minutes)
    ensures CountLatest(buckets, all, minutes) == CountLatest(buckets, all', minutes)
    ensures SumLatest(buckets, all, minutes) == SumLatest(buckets, all', minutes)
  {
    hide IsLatest;
    if |buckets| > 0 {
      SumOfSame(buckets[1..], all, all', minutes);
    }
  }

  // ---- A sorted sequence of distinct minutes ----

  ghost predicate Increasing(s: seq<Bucket>) {
    forall i, j :: 0 <= i < j < |s| ==> s[i].ts < s[j].ts
  }

  lemma {:induction false} AllLater(s: seq<Bucket>, t: int)
    requires forall i :: 0 <= i < |s| ==> s[i].ts > t
    ensures CountLater(s, t) == |s|
  {
    if |s| > 0 {
      AllLater(s[1..], t);
    }
  }

  lemma {:induction false} CountLaterAt(s: seq<Bucket>, j: nat)
    requires Increasing(s) && j < |s|
    ensures CountLater(s, s[j].ts) == |s| - 1 - j
  {
    if j == 0 {
      AllLater(s[1..], s[0].ts);
    } else {
      CountLaterAt(s[1..], j - 1);
    }
  }

  lemma LatestAt(s: seq<Bucket>, j: nat, minutes: int)
    requires Increasing(s) && j < |s|
    ensures IsLatest(s[j], s, minutes) <==> |s| - 1 - j < if minutes > 1 then minutes else 1
  {
    CountLaterAt(s, j);
  }

  /** Where the window starts in the sorted sequence. */
  function Start(size: nat, minutes: int): nat {
    var n := if minutes > 1 then minutes else 1;
    if size <= n then 0 else size - n
  }

  /** From position k on, the sums are those of the part of the window that is left. */
  lemma {:induction false} SumOfSuffix(s: seq<Bucket>, k: nat, minutes: int)
    requires Increasing(s) && k <= |s|
    ensures var from := if k > Start(|s|, minutes) then k else Start(|s|, minutes);
            && from <= |s|
            && CountLatest(s[k..], s, minutes) == |s| - from
            && SumLatest(s[k..], s, minutes) == Total(ValuesOf(s[from..]))
    decreases |s| - k
  {
    if k == |s| {
    } else {
      SumOfSuffix(s, k + 1, minutes);
      assert s[k..][1..] == s[k + 1..];
      LatestAt(s, k, minutes);
      hide IsLatest, Increasing;
      if k >= Start(|s|, minutes) {
        assert ValuesOf(s[k..])[1..] == ValuesOf(s[k + 1..]);
      }
    }
  }

  lemma {:induction false} InsertIncreasing(b: Bucket, s: seq<Bucket>)
    requires Increasing(s) && forall i :: 0 <= i < |s| ==> s[i].ts != b.ts
    ensures Increasing(StableSort.Insert(b, s, ByTime()))
    ensures forall x :: x in StableSort.Insert(b, s, ByTime()) ==> x == b || x in s
  {
    if |s| == 0 || b.ts <= s[0].ts {
    } else {
      InsertIncreasing(b, s[1..]);
      var rest := StableSort.Insert(b, s[1..], ByTime());
      forall i | 0 <= i < |rest| ensures s[0].ts < rest[i].ts {
        assert rest[i] in rest;
      }
    }
  }

  lemma {:induction false} SortedIsIncreasing(s: seq<Bucket>)
    requires DistinctMinutes(s)
    ensures Increasing(StableSort.Sort(s, ByTime()))
  {
    if |s| > 0 {
      var rest := StableSort.Sort(s[1..], ByTime());
      SortedIsIncreasing(s[1..]);
      forall i | 0 <= i < |rest| ensures rest[i].ts != s[0].ts {
        InSort(s[1..], rest[i]);
      }
      InsertIncreasing(s[0], rest);
    }
  }

  /** The window of a rule is made of the latest buckets, each once. */
  lemma WindowMeaning(buckets: seq<Bucket>, minutes: int)
    requires DistinctMinutes(buckets)
    ensures var w := WindowOf(buckets, minutes);
            && (forall b :: b in w <==> IsLatest(b, buckets, minutes))
            && |w| == CountLatest(buckets, buckets, minutes)
            && Total(ValuesOf(w)) == SumLatest(buckets, buckets, minutes)
            && (w == [] <==> buckets == [])
  {
    var s, w := StableSort.Sort(buckets, ByTime()), WindowOf(buckets, minutes);
    StableSort.SortPermutes(buckets, ByTime());
    SortedIsIncreasing(buckets);
    assert w == s[Start(|s|, minutes)..];
    hide WindowOf, IsLatest, Increasing, DistinctMinutes;
    SumOfSuffix(s, 0, minutes);
    assert s[0..] == s;
    forall b ensures IsLatest(b, s, minutes) <==> IsLatest(b, buckets, minutes) {
      LatestOfSort(b, buckets, minutes);
    }
    SumOfSort(buckets, s, minutes);
    SumOfSame(buckets, s, buckets, minutes);
    forall b ensures b in w <==> IsLatest(b, s, minutes) {
      SortedWindow(s, minutes, b);
    }
  }

  lemma SortedWindow(s: seq<Bucket>, minutes: int, b: Bucket)
    requires Increasing(s)
    ensures Start(|s|, minutes) <= |s|
    ensures b in s[Start(|s|, minutes)..] <==> IsLatest(b, s, minutes)
  {
    if b in s {
      var j :| 0 <= j < |s| && s[j] == b;
      LatestAt(s, j, minutes);
      if j >= Start(|s|, minutes) {
        assert s[Start(|s|, minutes)..][j - Start(|s|, minutes)] == b;
      } else {
        assert forall i :: 0 <= i < |s| && s[i] == b ==> i == j;
      }
    }
  }

  // ---- What a rule observes ----

  /** The aggregate that a rule goes by, said about the latest buckets. */
  ghost predicate IsAggregate(x: real, buckets: seq<Bucket>, minutes: int, aggregate: Aggregate) {
    match aggregate
    case MaxValue =>
      && (exists b :: IsLatest(b, buckets, minutes) && b.value == x)
      && (forall b :: IsLatest(b, buckets, minutes) ==> b.value <= x)
    case MinValue =>
      && (exists b :: IsLatest(b, buckets, minutes) && b.value == x)
      && (forall b :: IsLatest(b, buckets, minutes) ==> b.value >= x)
    case Average =>
      x * CountLatest(buckets, buckets, minutes) as real == SumLatest(buckets, buckets, minutes)
  }

  lemma InValues(w: seq<Bucket>, v: real)
    ensures v in ValuesOf(w) <==> exists b :: b in w && b.value == v
  {
    if v in ValuesOf(w) {
      var i :| 0 <= i < |w| && ValuesOf(w)[i] == v;
      assert w[i] in w;
    }
    if exists b :: b in w && b.value == v {
      var b :| b in w && b.value == v;
      var i :| 0 <= i < |w| && w[i] == b;
      assert ValuesOf(w)[i] == v;
    }
  }

  lemma AggregateIsAggregate(w: seq<Bucket>, buckets: seq<Bucket>, minutes: int, aggregate: Aggregate)
    requires |w| > 0 && forall b :: b in w <==> IsLatest(b, buckets, minutes)
    requires |w| == CountLatest(buckets, buckets, minutes)
    requires Total(ValuesOf(w)) == SumLatest(buckets, buckets, minutes)
    ensures IsAggregate(AggregateOf(ValuesOf(w), aggregate), buckets, minutes, aggregate)
  {
    hide IsLatest, CountLatest, SumLatest;
    var x := AggregateOf(ValuesOf(w), aggregate);
    InValues(w, x);
    forall b | b in w ensures b.value in ValuesOf(w) {
      InValues(w, b.value);
    }
  }

  /** A rule observes nothing exactly without buckets, and otherwise its aggregate of the latest ones. */
  lemma ObservedMeaning(buckets: seq<Bucket>, minutes: int, aggregate: Aggregate)
    requires DistinctMinutes(buckets)
    ensures var x := Observed(buckets, minutes, aggregate);
            && (x.None? <==> buckets == [])
            && (x.Some? ==> IsAggregate(x.value, buckets, minutes, aggregate))
  {
    WindowMeaning(buckets, minutes);
    hide IsLatest, IsAggregate, WindowOf, AggregateOf, CountLatest, SumLatest;
    var w := WindowOf(buckets, minutes);
    if |w| > 0 {
      AggregateIsAggregate(w, buckets, minutes, aggregate);
    }
  }

  // ---- When a rule is breached ----

  /** Some, all or the average of the latest buckets are beyond the threshold, as the rule has it. */
  ghost predicate IsBroken(rule: Rule, buckets: seq<Bucket>) {
    match (rule.operator, rule.aggregate)
    case (Greater, MaxValue) => exists b :: IsLatest(b, buckets, rule.minutes) && b.value > rule.threshold
    case (Greater, MinValue) => forall b :: IsLatest(b, buckets, rule.minutes) ==> b.value > rule.threshold
    case (Less, MinValue) => exists b :: IsLatest(b, buckets, rule.minutes) && b.value < rule.threshold
    case (Less, MaxValue) => forall b :: IsLatest(b, buckets, rule.minutes) ==> b.value < rule.threshold
    case (Greater, Average) =>
      SumLatest(buckets, buckets, rule.minutes) > rule.threshold * CountLatest(buckets, buckets, rule.minutes) as real
    case (Less, Average) =>
      SumLatest(buckets, buckets, rule.minutes) < rule.threshold * CountLatest(buckets, buckets, rule.minutes) as real
    case (Unknown, _) => false
  }

  lemma AverageAgainst(x: real, n: real, sum: real, threshold: real)
    requires n > 0.0 && x * n == sum
    ensures x > threshold <==> sum > threshold * n
    ensures x < threshold <==> sum < threshold * n
  {
    ProductOrder(n, x, threshold);
    assert n * x == x * n && n * threshold == threshold * n;
  }

  lemma BreachMeaning(rule: Rule, buckets: seq<Bucket>, x: real)
    requires IsAggregate(x, buckets, rule.minutes, rule.aggregate) && CountLatest(buckets, buckets, rule.minutes) > 0
    ensures Breaches(x, rule.operator, rule.threshold) <==> IsBroken(rule, buckets)
  {
    hide IsLatest, CountLatest, SumLatest;
    if rule.aggregate.Average? {
      AverageAgainst(x, CountLatest(buckets, buckets, rule.minutes) as real,
                     SumLatest(buckets, buckets, rule.minutes), rule.threshold);
    }
  }

  ghost predicate DistinctAll(m: Metrics) {
    forall metric :: metric in m.aligned ==> DistinctMinutes(m.aligned[metric])
  }

  /** The rule's metric has a real sample and a bucket. */
  ghost predicate HasReal(rule: Rule, m: Metrics) {
    && rule.metric in m.realCounts && m.realCounts[rule.metric] > 0
    && rule.metric in m.aligned && m.aligned[rule.metric] != []
  }

  /** Whether a rule speaks against the metrics. */
  ghost predicate Broken(rule: Rule, m: Metrics) {
    HasReal(rule, m) && IsBroken(rule, m.aligned[rule.metric])
  }

  /** A rule is read exactly with real data, and what is read is the aggregate of the latest buckets. */
  lemma ReadingMeaning(rule: Rule, index: nat, m: Metrics)
    requires DistinctAll(m)
    ensures var r := ReadingOf(rule, index, m);
            && (r.Some? <==> HasReal(rule, m))
            && (r.Some? ==>
                  && r.value.rule == rule && r.value.index == index
                  && IsAggregate(r.value.observed, m.aligned[rule.metric], rule.minutes, rule.aggregate)
                  && r.value.pressure == PressureOf(r.value.observed, rule.operator, rule.threshold)
                  && (IsBreached(r.value) <==> Broken(rule, m)))
  {
    hide IsLatest, IsAggregate, Observed, CountLatest, IsBroken, PressureOf, Breaches;
    var buckets := BucketsOf(m, rule.metric);
    if rule.metric in m.aligned {
      ObservedMeaning(buckets, rule.minutes, rule.aggregate);
      if HasReal(rule, m) {
        WindowMeaning(buckets, rule.minutes);
        BreachMeaning(rule, buckets, Observed(buckets, rule.minutes, rule.aggregate).value);
      }
    } else {
      assert DistinctMinutes([]);
      ObservedMeaning([], rule.minutes, rule.aggregate);
    }
  }

  /** Pressure is the observed value in thresholds, or for a lower bound the threshold in observed values. */
  lemma PressureMeaning(observed: real, operator: Operator, threshold: real)
    ensures var p := PressureOf(observed, operator, threshold);
            && (p.Infinite? <==> operator.Less? && threshold > 0.0 && observed <= 0.0)
            && (threshold <= 0.0 ==> p == Finite(0.0))
            && (p.Finite? && threshold > 0.0 ==>
                  if operator.Less? then p.ratio * observed == threshold else p.ratio * threshold == observed)
  {
  }

  // ---- Which breached rule decides ----

  const RISKS: seq<string> := ["critical", "high", "medium", "low"]
  const METRICS: seq<string> := [
    "queue_depth", "db_connection_pool_pct", "api_latency_ms", "cpu_usage_percent", "memory_usage_percent",
    "active_connections", "cache_hit_rate_pct"
  ]

  /** The first name comes before the second in the list; what is not listed comes last. */
  ghost predicate Before(list: seq<string>, a: string, b: string) {
    exists i :: 0 <= i < |list| && list[i] == a && b !in list[..i + 1]
  }

  lemma RiskOrder(a: string, b: string)
    ensures RiskPriority(a) > RiskPriority(b) <==> Before(RISKS, a, b)
  {
    RankIsPlace(a);
    RankIsPlace(b);
    if RiskPriority(a) > RiskPriority(b) {
      var i := 4 - RiskPriority(a);
      assert RISKS[i] == a && b !in RISKS[..i + 1];
    }
  }

  lemma RankIsPlace(a: string)
    ensures if a in RISKS then 1 <= RiskPriority(a) <= 4 && RISKS[4 - RiskPriority(a)] == a else RiskPriority(a) == 0
    ensures forall i :: 0 <= i < 4 && RISKS[i] == a ==> RiskPriority(a) == 4 - i
  {
  }

  lemma MetricIsPlace(a: string)
    ensures if a in METRICS then 1 <= MetricPriority(a) <= 7 && METRICS[7 - MetricPriority(a)] == a else MetricPriority(a) == 0
    ensures forall i :: 0 <= i < 7 && METRICS[i] == a ==> MetricPriority(a) == 7 - i
  {
  }

  lemma MetricOrder(a: string, b: string)
    ensures MetricPriority(a) > MetricPriority(b) <==> Before(METRICS, a, b)
  {
    MetricIsPlace(a);
    MetricIsPlace(b);
    hide MetricPriority;
    if MetricPriority(a) > MetricPriority(b) {
      var i := 7 - MetricPriority(a);
      assert METRICS[i] == a && b !in METRICS[..i + 1];
    }
  }

  /** Breached rules are weighed by risk, then by pressure, then by metric, then by their place in the table. */
  ghost predicate Weighs(a: Reading, b: Reading) {
    || Before(RISKS, a.rule.risk, b.rule.risk)
    || (!Before(RISKS, b.rule.risk, a.rule.risk)
        && (|| Above(a.pressure, b.pressure)
            || (a.pressure == b.pressure
                && (|| Before(METRICS, a.rule.metric, b.rule.metric)
                    || (!Before(METRICS, b.rule.metric, a.rule.metric) && a.index < b.index)))))
  }

  lemma OutranksMeaning(a: Reading, b: Reading)
    ensures Outranks(a, b) <==> Weighs(a, b)
  {
    RiskOrder(a.rule.risk, b.rule.risk);
    RiskOrder(b.rule.risk, a.rule.risk);
    MetricOrder(a.rule.metric, b.rule.metric);
    MetricOrder(b.rule.metric, a.rule.metric);
    hide Before, RiskPriority, MetricPriority, RISKS, METRICS, Above;
  }

  /** What is read of rule i. */
  ghost predicate ReadsRule(r: Reading, rules: seq<Rule>, i: nat, m: Metrics)
    requires i < |rules|
  {
    ReadingOf(rules[i], i, m) == Some(r)
  }

  lemma BrokenAreBreached(rules: seq<Rule>, m: Metrics, i: nat)
    requires DistinctAll(m) && i < |rules| && Broken(rules[i], m)
    ensures var r := ReadingOf(rules[i], i, m);
            r.Some? && r.value in Breached(Readings(rules, m))
  {
    ReadingMeaning(rules[i], i, m);
    hide Broken, ReadingOf, Breached, Readings, IsBreached, IsAggregate;
    ReadingsAreOfRules(rules, m, ReadingOf(rules[i], i, m).value);
    BreachedAreBreached(Readings(rules, m));
  }

  lemma BreachedAreBroken(rules: seq<Rule>, m: Metrics, r: Reading)
    requires DistinctAll(m) && r in Breached(Readings(rules, m))
    ensures r.index < |rules| && ReadsRule(r, rules, r.index, m) && Broken(rules[r.index], m) && r.rule == rules[r.index]
  {
    BreachedAreBreached(Readings(rules, m));
    ReadingsAreOfRules(rules, m, r);
    hide Broken, ReadingOf, Breached, Readings, IsBreached, IsAggregate;
    ReadingMeaning(rules[r.index], r.index, m);
  }

  /** Rule i is broken and weighs more than every other broken rule. */
  ghost predicate Governs(rules: seq<Rule>, m: Metrics, i: nat) {
    && i < |rules| && Broken(rules[i], m) && ReadingOf(rules[i], i, m).Some?
    && forall j :: 0 <= j < |rules| && j != i && Broken(rules[j], m) ==>
         ReadingOf(rules[j], j, m).Some? && Weighs(ReadingOf(rules[i], i, m).value, ReadingOf(rules[j], j, m).value)
  }

  lemma WinnerGoverns(rules: seq<Rule>, m: Metrics, w: Reading)
    requires DistinctAll(m) && IsWinner(w, Breached(Readings(rules, m)))
    ensures Governs(rules, m, w.index) && w.rule == rules[w.index]
  {
    BreachedAreBroken(rules, m, w);
    hide Broken, Outranks, Weighs, Breached, Readings;
    forall j | 0 <= j < |rules| && j != w.index && Broken(rules[j], m)
      ensures ReadingOf(rules[j], j, m).Some? && Weighs(w, ReadingOf(rules[j], j, m).value)
    {
      BrokenAreBreached(rules, m, j);
      OutranksMeaning(w, ReadingOf(rules[j], j, m).value);
    }
  }

  /**
   The decision over the metrics: none exactly when no rule has real data, an anomaly exactly when some
   rule is broken, and then the action of the broken rule that weighs most.
   */
  lemma DecisionOverMetrics(rules: seq<Rule>, m: Metrics, tenant: string, service: string, result: Option<Fallback>)
    requires DistinctAll(m) && Decides(rules, m, tenant, service, result)
    ensures result.None? <==> forall i :: 0 <= i < |rules| ==> !HasReal(rules[i], m)
    ensures result.Some? ==> (result.value.anomaly <==> exists i :: 0 <= i < |rules| && Broken(rules[i], m))
    ensures result.Some? && !result.value.anomaly ==> result.value.decision == "KEEP_ALIVE"
    ensures result.Some? && result.value.anomaly ==>
              exists i: nat :: && Governs(rules, m, i) && result.value.decision == rules[i].action
                               && result.value.recommendation.Some?
                               && result.value.recommendation.value.verb == rules[i].action
                               && result.value.recommendation.value.target == service
                               && result.value.recommendation.value.evidence
                               == "amp://" + tenant + "/" + service + "/" + rules[i].metric
  {
    ReadingsMeaning(rules, m);
    hide Readings, Breached, IsBreached, Outranks, Governs, Broken, HasReal;
    forall i | 0 <= i < |rules|
      ensures ReadingOf(rules[i], i, m).Some? <==> HasReal(rules[i], m)
      ensures ReadingOf(rules[i], i, m).Some? && IsBreached(ReadingOf(rules[i], i, m).value) <==> Broken(rules[i], m)
    {
      BrokenIsBreach(rules[i], i, m);
    }
    hide ReadingOf, IsWinner;
    var breached := Breached(Readings(rules, m));
    if Readings(rules, m) != [] && breached != [] {
      var w :| IsWinner(w, breached) && result == Some(Act(w, tenant, service));
      WinnerGoverns(rules, m, w);
    }
  }

  lemma BrokenIsBreach(rule: Rule, i: nat, m: Metrics)
    requires DistinctAll(m)
    ensures ReadingOf(rule, i, m).Some? <==> HasReal(rule, m)
    ensures ReadingOf(rule, i, m).Some? && IsBreached(ReadingOf(rule, i, m).value) <==> Broken(rule, m)
  {
    ReadingMeaning(rule, i, m);
    hide ReadingOf, HasReal, IsBreached, IsBroken, IsAggregate;
  }

  // ---- The default tables ----

  ghost predicate HasMetric(m: Metrics, metric: string) {
    && metric in m.realCounts && m.realCounts[metric] > 0
    && metric in m.aligned && m.aligned[metric] != []
  }

  ghost predicate SomeAbove(m: Metrics, metric: string, minutes: int, threshold: real) {
    HasMetric(m, metric) && exists b :: IsLatest(b, m.aligned[metric], minutes) && b.value > threshold
  }

  ghost predicate SomeBelow(m: Metrics, metric: string, minutes: int, threshold: real) {
    HasMetric(m, metric) && exists b :: IsLatest(b, m.aligned[metric], minutes) && b.value < threshold
  }

  ghost predicate AverageAbove(m: Metrics, metric: string, minutes: int, threshold: real) {
    && HasMetric(m, metric)
    && SumLatest(m.aligned[metric], m.aligned[metric], minutes)
       > threshold * CountLatest(m.aligned[metric], m.aligned[metric], minutes) as real
  }

  lemma BrokenCases(rule: Rule, m: Metrics)
    ensures rule.operator.Greater? && rule.aggregate.MaxValue? ==>
              (Broken(rule, m) <==> SomeAbove(m, rule.metric, rule.minutes, rule.threshold))
    ensures rule.operator.Less? && rule.aggregate.MinValue? ==>
              (Broken(rule, m) <==> SomeBelow(m, rule.metric, rule.minutes, rule.threshold))
    ensures rule.operator.Greater? && rule.aggregate.Average? ==>
              (Broken(rule, m) <==> AverageAbove(m, rule.metric, rule.minutes, rule.threshold))
  {
    hide IsLatest, SumLatest, CountLatest;
  }

  /** Six rules, one of them broken. */
  lemma OneOfSix(rules: seq<Rule>, m: Metrics)
    requires |rules| == 6
    ensures (exists i :: 0 <= i < |rules| && Broken(rules[i], m))
       <==> || Broken(rules[0], m) || Broken(rules[1], m) || Broken(rules[2], m)
            || Broken(rules[3], m) || Broken(rules[4], m) || Broken(rules[5], m)
  {
    hide Broken;
  }

  lemma PaymentIsBroken(m: Metrics)
    ensures (exists i :: 0 <= i < |PAYMENT_RULES| && Broken(PAYMENT_RULES[i], m))
       <==> || SomeAbove(m, "api_latency_ms", 10, 1000.0) || SomeAbove(m, "active_connections", 10, 5000.0)
            || SomeAbove(m, "cpu_usage_percent", 10, 85.0) || AverageAbove(m, "memory_usage_percent", 15, 85.0)
            || SomeAbove(m, "db_connection_pool_pct", 10, 80.0) || SomeBelow(m, "cache_hit_rate_pct", 15, 80.0)
  {
    hide Broken, SomeAbove, SomeBelow, AverageAbove;
    OneOfSix(PAYMENT_RULES, m);
    forall i | 0 <= i < 6 { BrokenCases(PAYMENT_RULES[i], m); }
  }

  lemma LedgerIsBroken(m: Metrics)
    ensures (exists i :: 0 <= i < |LEDGER_RULES| && Broken(LEDGER_RULES[i], m))
       <==> || SomeAbove(m, "db_connection_pool_pct", 10, 80.0) || SomeAbove(m, "api_latency_ms", 10, 1000.0)
            || SomeAbove(m, "cpu_usage_percent", 10, 85.0) || AverageAbove(m, "memory_usage_percent", 15, 85.0)
            || SomeAbove(m, "active_connections", 10, 3000.0) || SomeBelow(m, "cache_hit_rate_pct", 15, 75.0)
  {
    hide Broken, SomeAbove, SomeBelow, AverageAbove;
    OneOfSix(LEDGER_RULES, m);
    forall i | 0 <= i < 6 { BrokenCases(LEDGER_RULES[i], m); }
  }

  lemma FraudIsBroken(m: Metrics)
    ensures (exists i :: 0 <= i < |FRAUD_RULES| && Broken(FRAUD_RULES[i], m))
       <==> || SomeAbove(m, "queue_depth", 10, 5000.0) || AverageAbove(m, "queue_depth", 30, 1000.0)
            || SomeAbove(m, "api_latency_ms", 10, 1500.0) || SomeAbove(m, "cpu_usage_percent", 10, 85.0)
            || AverageAbove(m, "memory_usage_percent", 15, 85.0) || SomeAbove(m, "active_connections", 10, 2000.0)
  {
    hide Broken, SomeAbove, SomeBelow, AverageAbove;
    OneOfSix(FRAUD_RULES, m);
    forall i | 0 <= i < 6 { BrokenCases(FRAUD_RULES[i], m); }
  }

  /** The metric whose limit is critical for a service, with that limit over ten minutes. */
  ghost predicate IsCritical(m: Metrics, service: string) {
    || (service == "payment-gw" && SomeAbove(m, "api_latency_ms", 10, 1000.0))
    || (service == "ledger" && SomeAbove(m, "db_connection_pool_pct", 10, 80.0))
    || (service == "fraud-detector" && SomeAbove(m, "queue_depth", 10, 5000.0))
  }

  lemma TablesStartCritical(m: Metrics, service: string)
    requires IsCritical(m, service)
    ensures var rules := DefaultRules(service);
            && |rules| == 6 && Broken(rules[0], m) && rules[0].risk == "critical" && rules[0].action == "SCALE_UP"
            && forall i :: 0 < i < 6 ==> rules[i].risk != "critical"
  {
    hide Broken, SomeAbove;
    BrokenCases(DefaultRules(service)[0], m);
  }

  lemma CriticalComesFirst(risk: string)
    requires risk != "critical"
    ensures Before(RISKS, "critical", risk) && !Before(RISKS, risk, "critical")
  {
    assert RISKS[0] == "critical" && risk !in RISKS[..1];
    forall i | 0 <= i < |RISKS| && RISKS[i] == risk ensures "critical" in RISKS[..i + 1] {
      assert RISKS[..i + 1][0] == "critical";
    }
  }

  /** A critical metric decides alone: the service is scaled up, whatever else is broken. */
  lemma CriticalMetricScalesUp(m: Metrics, tenant: string, service: string, result: Option<Fallback>)
    requires DistinctAll(m) && Decides(DefaultRules(service), m, tenant, service, result)
    requires IsCritical(m, service)
    ensures result.Some? && result.value.anomaly && result.value.decision == "SCALE_UP"
    ensures result.value.severity == 1.0 && result.value.score == 100.0
  {
    var rules := DefaultRules(service);
    TablesStartCritical(m, service);
    DefaultRulesAreSound(service);
    DecisionOverMetrics(rules, m, tenant, service, result);
    DecisionMeaning(rules, m, tenant, service, result);
    hide IsCritical, DefaultRules, Decides, Broken, ReadingOf, Sound, SomeRuleBreaks;
    BrokenHasReal(rules[0], m);
    var i: nat :| Governs(rules, m, i) && result.value.decision == rules[i].action;
    if i != 0 {
      CriticalComesFirst(rules[i].risk);
    }
  }

  lemma BrokenHasReal(rule: Rule, m: Metrics)
    requires Broken(rule, m)
    ensures HasReal(rule, m)
  {
  }
}