/**
 The rule-based fallback of src/prediction_worker/app.py: windowed aggregates of the aligned
 metrics are held against the service's rules, and the weightiest breached rule decides.
 float("inf") is a datatype case.
 */
module MetricFallback {
  import opened Wrappers
  import opened RealArith
  import opened Signals
  import opened BucketAlignment
  import StableSort

  datatype Operator = Greater | Less | Unknown
  datatype Aggregate = MaxValue | MinValue | Average

  datatype Rule = Rule(metric: string, operator: Operator, threshold: real, minutes: int, aggregate: Aggregate,
                       risk: string, action: string)

  datatype Pressure = Infinite | Finite(ratio: real)

  datatype Reading = Reading(rule: Rule, observed: real, pressure: Pressure, index: nat)

  datatype Fallback = Fallback(decision: string, score: real, anomaly: bool, severity: real,
                               recommendation: Option<Recommendation>)

  function RiskPriority(risk: string): int {
    if risk == "critical" then 4 else if risk == "high" then 3
    else if risk == "medium" then 2 else if risk == "low" then 1 else 0
  }

  function MetricPriority(metric: string): int {
    if metric == "queue_depth" then 7
    else if metric == "db_connection_pool_pct" then 6
    else if metric == "api_latency_ms" then 5
    else if metric == "cpu_usage_percent" then 4
    else if metric == "memory_usage_percent" then 3
    else if metric == "active_connections" then 2
    else if metric == "cache_hit_rate_pct" then 1 else 0
  }

  // ---- Aggregation ----

  function ByTime(): (Bucket, Bucket) -> bool {
    (a: Bucket, b: Bucket) => a.ts <= b.ts
  }

  function Latest<T>(s: seq<T>, n: nat): (r: seq<T>)
    ensures |r| == if |s| <= n then |s| else n
  {
    if |s| <= n then s else s[|s| - n..]
  }

  function ValuesOf(buckets: seq<Bucket>): (r: seq<real>)
    ensures |r| == |buckets|
    ensures forall i :: 0 <= i < |r| ==> r[i] == buckets[i].value
  {
    seq(|buckets|, i requires 0 <= i < |buckets| => buckets[i].value)
  }

  function Maximum(values: seq<real>): (m: real)
    requires |values| > 0
    ensures m in values && forall v :: v in values ==> v <= m
  {
    if |values| == 1 then values[0]
    else
      var rest := Maximum(values[1..]);
      assert values == [values[0]] + values[1..];
      if values[0] >= rest then values[0] else rest
  }

  function Minimum(values: seq<real>): (m: real)
    requires |values| > 0
    ensures m in values && forall v :: v in values ==> m <= v
  {
    if |values| == 1 then values[0]
    else
      var rest := Minimum(values[1..]);
      assert values == [values[0]] + values[1..];
      if values[0] <= rest then values[0] else rest
  }

  function Total(values: seq<real>): real {
    if |values| == 0 then 0.0 else values[0] + Total(values[1..])
  }

  function AggregateOf(values: seq<real>, aggregate: Aggregate): real
    requires |values| > 0
  {
    match aggregate
    case MaxValue => Maximum(values)
    case MinValue => Minimum(values)
    case Average => Ratio(Total(values), |values| as real)
  }

  function WindowOf(buckets: seq<Bucket>, minutes: int): seq<Bucket> {
    Latest(StableSort.Sort(buckets, ByTime()), if minutes > 1 then minutes else 1)
  }

  /** aggregate_rule_values. */
  function Observed(buckets: seq<Bucket>, minutes: int, aggregate: Aggregate): Option<real> {
    var window := WindowOf(buckets, minutes);
    if |window| == 0 then None else Some(AggregateOf(ValuesOf(window), aggregate))
  }

  // ---- One rule ----

  /** compare_rule. */
  predicate Breaches(observed: real, operator: Operator, threshold: real) {
    match operator
    case Greater => observed > threshold
    case Less => observed < threshold
    case Unknown => false
  }

  /** _rule_ratio. */
  function PressureOf(observed: real, operator: Operator, threshold: real): Pressure {
    if threshold <= 0.0 then Finite(0.0)
    else if operator.Less? then
      if observed <= 0.0 then Infinite else Finite(Ratio(threshold, observed))
    else Finite(Ratio(observed, threshold))
  }

  predicate Above(a: Pressure, b: Pressure) {
    match (a, b)
    case (_, Infinite) => false
    case (Infinite, Finite(_)) => true
    case (Finite(x), Finite(y)) => x > y
  }

  /** min(ratio, limit). */
  function Capped(p: Pressure, scale: real, limit: real): real {
    if p.Infinite? then limit
    else if p.ratio * scale < limit then p.ratio * scale else limit
  }

  /** With a positive threshold, a rule is breached exactly when its pressure is above 1. */
  lemma BreachIsPressure(observed: real, operator: Operator, threshold: real)
    requires threshold > 0.0 && operator != Unknown
    ensures Breaches(observed, operator, threshold) <==> Above(PressureOf(observed, operator, threshold), Finite(1.0))
  {
    if operator.Greater? {
      Quotient(observed, threshold);
    } else if observed > 0.0 {
      Quotient(threshold, observed);
    }
  }

  // ---- All rules ----

  datatype Metrics = Metrics(aligned: map<string, seq<Bucket>>, realCounts: map<string, int>)

  function BucketsOf(m: Metrics, metric: string): seq<Bucket> {
    if metric in m.aligned then m.aligned[metric] else []
  }

  /** What a rule reads; nothing when its metric has no real sample or no bucket. */
  function ReadingOf(rule: Rule, index: nat, m: Metrics): (r: Option<Reading>)
    ensures r.Some? ==> r.value.rule == rule && r.value.index == index
  {
    if rule.metric !in m.realCounts || m.realCounts[rule.metric] <= 0 then None
    else
      match Observed(BucketsOf(m, rule.metric), rule.minutes, rule.aggregate)
      case None => None
      case Some(x) => Some(Reading(rule, x, PressureOf(x, rule.operator, rule.threshold), index))
  }

  function Readings(rules: seq<Rule>, m: Metrics): seq<Reading> {
    if |rules| == 0 then []
    else
      var k := |rules| - 1;
      var before := Readings(rules[..k], m);
      match ReadingOf(rules[k], k, m)
      case None => before
      case Some(r) => before + [r]
  }

  predicate IsBreached(r: Reading) {
    Breaches(r.observed, r.rule.operator, r.rule.threshold)
  }

  function Breached(readings: seq<Reading>): seq<Reading> {
    if |readings| == 0 then []
    else
      var k := |readings| - 1;
      var before := Breached(readings[..k]);
      if IsBreached(readings[k]) then before + [readings[k]] else before
  }

  /** The first reading of the highest pressure. */
  function Strongest(readings: seq<Reading>): (best: Reading)
    requires |readings| > 0
    ensures best in readings
    ensures forall r :: r in readings ==> !Above(r.pressure, best.pressure)
  {
    var k := |readings| - 1;
    if k == 0 then readings[0]
    else
      var before := Strongest(readings[..k]);
      assert readings == readings[..k] + [readings[k]];
      if Above(readings[k].pressure, before.pressure) then readings[k] else before
  }

  /** The lexicographic order of sort_key. */
  predicate Outranks(a: Reading, b: Reading) {
    var ra, rb := RiskPriority(a.rule.risk), RiskPriority(b.rule.risk);
    var ma, mb := MetricPriority(a.rule.metric), MetricPriority(b.rule.metric);
    || ra > rb
    || (ra == rb && Above(a.pressure, b.pressure))
    || (ra == rb && a.pressure == b.pressure && ma > mb)
    || (ra == rb && a.pressure == b.pressure && ma == mb && a.index < b.index)
  }

  /** The rules that were read keep their place in the table. */
  lemma {:induction false} ReadingsKeepOrder(rules: seq<Rule>, m: Metrics)
    ensures var rs := Readings(rules, m);
            && (forall i :: 0 <= i < |rs| ==> rs[i].index < |rules|)
            && (forall i, j :: 0 <= i < j < |rs| ==> rs[i].index < rs[j].index)
  {
    hide ReadingOf;
    if |rules| == 0 {
    } else {
      var k := |rules| - 1;
      ReadingsKeepOrder(rules[..k], m);
      var r := ReadingOf(rules[k], k, m);
      assert Readings(rules, m) == Readings(rules[..k], m) + if r.None? then [] else [r.value];
    }
  }

  /** The readings are exactly those of the rules that have one. */
  lemma {:induction false} ReadingsAreOfRules(rules: seq<Rule>, m: Metrics, r: Reading)
    ensures r in Readings(rules, m) <==> r.index < |rules| && ReadingOf(rules[r.index], r.index, m) == Some(r)
  {
    hide ReadingOf;
    if |rules| == 0 {
    } else {
      var k := |rules| - 1;
      ReadingsAreOfRules(rules[..k], m, r);
      if r.index < k {
        assert rules[..k][r.index] == rules[r.index];
      }
    }
  }

  lemma {:induction false} BreachedAreBreached(readings: seq<Reading>)
    ensures forall r :: r in Breached(readings) <==> r in readings && IsBreached(r)
    ensures (forall i, j :: 0 <= i < j < |readings| ==> readings[i].index < readings[j].index)
        ==> forall i, j :: 0 <= i < j < |Breached(readings)| ==> Breached(readings)[i].index < Breached(readings)[j].index
  {
    if |readings| == 0 {
    } else {
      var k := |readings| - 1;
      BreachedAreBreached(readings[..k]);
      assert readings == readings[..k] + [readings[k]];
      var before := Breached(readings[..k]);
      if (forall i, j :: 0 <= i < j < |readings| ==> readings[i].index < readings[j].index) {
        forall i | 0 <= i < |before| ensures before[i].index < readings[k].index {
          assert before[i] in readings[..k];
        }
      }
    }
  }

  function KeepAlive(best: Reading): Fallback {
    Fallback("KEEP_ALIVE", Capped(best.pressure, 100.0, 100.0), false, Capped(best.pressure, 1.0, 1.0), None)
  }

  function Act(winner: Reading, tenant: string, service: string): Fallback {
    var confidence := Capped(winner.pressure, 1.0, 1.0);
    Fallback(winner.rule.action, Capped(winner.pressure, 100.0, 100.0), true, confidence,
             Some(Recommendation(winner.rule.action, service, "current->review capacity", confidence,
                                 "amp://" + tenant + "/" + service + "/" + winner.rule.metric)))
  }

  ghost predicate IsWinner(w: Reading, breached: seq<Reading>) {
    w in breached && forall r :: r in breached && r != w ==> Outranks(w, r)
  }

  /** What the metrics decide: nothing to go by, no breach, or the winner among the breaches. */
  ghost predicate Decides(rules: seq<Rule>, m: Metrics, tenant: string, service: string, result: Option<Fallback>) {
    var readings := Readings(rules, m);
    var breached := Breached(readings);
    if readings == [] then result == None
    else if breached == [] then result == Some(KeepAlive(Strongest(readings)))
    else exists w :: IsWinner(w, breached) && result == Some(Act(w, tenant, service))
  }

  lemma OutranksIsAsymmetric(a: Reading, b: Reading)
    ensures !(Outranks(a, b) && Outranks(b, a))
  {
  }

  lemma WinnerIsUnique(v: Reading, w: Reading, breached: seq<Reading>)
    requires IsWinner(v, breached) && IsWinner(w, breached)
    ensures v == w
  {
    OutranksIsAsymmetric(v, w);
    hide Outranks;
  }

  /** The decision is determined: there is never a second winner. */
  lemma DecisionIsUnique(rules: seq<Rule>, m: Metrics, tenant: string, service: string,
                         a: Option<Fallback>, b: Option<Fallback>)
    requires Decides(rules, m, tenant, service, a) && Decides(rules, m, tenant, service, b)
    ensures a == b
  {
    hide IsWinner, Act, Readings, Breached;
    var breached := Breached(Readings(rules, m));
    if Readings(rules, m) != [] && breached != [] {
      var v :| IsWinner(v, breached) && a == Some(Act(v, tenant, service));
      var w :| IsWinner(w, breached) && b == Some(Act(w, tenant, service));
      WinnerIsUnique(v, w, breached);
    }
  }

  // ---- The computation ----

  method ComputeMetricFallback(rules: seq<Rule>, m: Metrics, tenant: string, service: string)
    returns (result: Option<Fallback>)
    ensures Decides(rules, m, tenant, service, result)
  {
    var best: Option<Reading> := None;
    var breached: seq<Reading> := [];
    for i := 0 to |rules|
      invariant var rs := Readings(rules[..i], m);
                && breached == Breached(rs)
                && best == if rs == [] then None else Some(Strongest(rs))
    {
      assert rules[..i + 1][..i] == rules[..i];
      ghost var rs := Readings(rules[..i], m);
      var reading := ReadingOf(rules[i], i, m);
      if reading.None? {
        continue;
      }
      var r := reading.value;
      assert (rs + [r])[..|rs|] == rs;
      if best.None? || Above(r.pressure, best.value.pressure) {
        best := Some(r);
      }
      if IsBreached(r) {
        breached := breached + [r];
      }
    }
    assert rules[..|rules|] == rules;
    if best.None? {
      return None;
    }
    if breached == [] {
      return Some(KeepAlive(best.value));
    }
    ReadingsKeepOrder(rules, m);
    BreachedAreBreached(Readings(rules, m));
    var winner := PickWinner(breached);
    return Some(Act(winner, tenant, service));
  }

  lemma OutranksIsTransitive(a: Reading, b: Reading, c: Reading)
    requires Outranks(a, b) && Outranks(b, c)
    ensures Outranks(a, c)
  {
  }

  lemma OutranksIsTotal(a: Reading, b: Reading)
    requires a.index != b.index
    ensures Outranks(a, b) || Outranks(b, a)
  {
  }

  /** max(breached, key=sort_key). */
  method PickWinner(breached: seq<Reading>) returns (winner: Reading)
    requires breached != []
    requires forall i, j :: 0 <= i < j < |breached| ==> breached[i].index < breached[j].index
    ensures IsWinner(winner, breached)
  {
    hide Outranks;
    winner := breached[0];
    for i := 1 to |breached|
      invariant winner in breached[..i]
      invariant forall j :: 0 <= j < i && breached[j] != winner ==> Outranks(winner, breached[j])
    {
      var next := breached[i];
      if Outranks(next, winner) {
        forall j | 0 <= j < i && breached[j] != winner ensures Outranks(next, breached[j]) {
          OutranksIsTransitive(next, winner, breached[j]);
        }
        winner := next;
      } else {
        OutranksIsTotal(next, winner);
      }
    }
  }

  // ---- What a decision means ----

  ghost predicate Sound(rules: seq<Rule>) {
    forall i :: 0 <= i < |rules| ==> rules[i].threshold > 0.0 && rules[i].operator != Unknown
  }

  /** Some rule reads real data. */
  ghost predicate HasData(rules: seq<Rule>, m: Metrics) {
    exists i :: 0 <= i < |rules| && ReadingOf(rules[i], i, m).Some?
  }

  ghost predicate SomeRuleBreaks(rules: seq<Rule>, m: Metrics) {
    exists i :: 0 <= i < |rules| && ReadingOf(rules[i], i, m).Some? && IsBreached(ReadingOf(rules[i], i, m).value)
  }

  lemma ReadingsMeaning(rules: seq<Rule>, m: Metrics)
    ensures Readings(rules, m) != [] <==> HasData(rules, m)
    ensures Breached(Readings(rules, m)) != [] <==> SomeRuleBreaks(rules, m)
  {
    hide ReadingOf;
    var rs := Readings(rules, m);
    BreachedAreBreached(rs);
    if rs != [] {
      ReadingsAreOfRules(rules, m, rs[0]);
      assert ReadingOf(rules[rs[0].index], rs[0].index, m).Some?;
    }
    if Breached(rs) != [] {
      var b := Breached(rs)[0];
      assert b in Breached(rs);
      ReadingsAreOfRules(rules, m, b);
      assert IsBreached(ReadingOf(rules[b.index], b.index, m).value);
    }
    if HasData(rules, m) {
      var i :| 0 <= i < |rules| && ReadingOf(rules[i], i, m).Some?;
      ReadingsAreOfRules(rules, m, ReadingOf(rules[i], i, m).value);
    }
    if SomeRuleBreaks(rules, m) {
      var i :| 0 <= i < |rules| && ReadingOf(rules[i], i, m).Some? && IsBreached(ReadingOf(rules[i], i, m).value);
      ReadingsAreOfRules(rules, m, ReadingOf(rules[i], i, m).value);
    }
  }

  /** Severity is the pressure, at most 1, and the score its percentage. */
  lemma SeverityIsPressure(r: Reading, tenant: string, service: string)
    ensures var severity := if Above(r.pressure, Finite(1.0)) then 1.0 else r.pressure.ratio;
            && KeepAlive(r).severity == Act(r, tenant, service).severity == severity
            && KeepAlive(r).score == Act(r, tenant, service).score == 100.0 * severity
  {
  }

  lemma ActMeaning(w: Reading, tenant: string, service: string)
    requires w.rule.threshold > 0.0 && w.rule.operator != Unknown && IsBreached(w)
    requires w.pressure == PressureOf(w.observed, w.rule.operator, w.rule.threshold)
    ensures var f := Act(w, tenant, service); f.severity == 1.0 && f.score == 100.0
  {
    BreachIsPressure(w.observed, w.rule.operator, w.rule.threshold);
  }

  lemma KeepAliveMeaning(best: Reading)
    requires !Above(best.pressure, Finite(1.0))
    ensures var f := KeepAlive(best);
            f.severity == best.pressure.ratio <= 1.0 && f.score == 100.0 * best.pressure.ratio
  {
  }

  /** Without a breach no reading is above pressure 1, the strongest included. */
  lemma UnbreachedPressure(rules: seq<Rule>, m: Metrics, r: Reading)
    requires Sound(rules) && r in Readings(rules, m) && Breached(Readings(rules, m)) == []
    ensures !Above(r.pressure, Finite(1.0))
  {
    ReadingsAreOfRules(rules, m, r);
    BreachedAreBreached(Readings(rules, m));
    BreachIsPressure(r.observed, r.rule.operator, r.rule.threshold);
  }

  /**
   For rules with positive thresholds: no result exactly without data, an anomaly exactly with a
   breach, full score and severity for every anomaly, and the strongest pressure otherwise.
   */
  lemma DecisionMeaning(rules: seq<Rule>, m: Metrics, tenant: string, service: string, result: Option<Fallback>)
    requires Sound(rules) && Decides(rules, m, tenant, service, result)
    ensures result.None? <==> !HasData(rules, m)
    ensures result.Some? ==>
              && (result.value.anomaly <==> SomeRuleBreaks(rules, m))
              && (result.value.anomaly <==> result.value.recommendation.Some?)
              && (result.value.anomaly ==> result.value.severity == 1.0 && result.value.score == 100.0)
              && (!result.value.anomaly ==> result.value.decision == "KEEP_ALIVE")
              && result.value.severity <= 1.0 && result.value.score == 100.0 * result.value.severity
  {
    ReadingsMeaning(rules, m);
    var rs := Readings(rules, m);
    hide Readings, Breached, SomeRuleBreaks, HasData, Outranks, PressureOf, Breaches;
    if rs != [] {
      if Breached(rs) == [] {
        var best := Strongest(rs);
        UnbreachedPressure(rules, m, best);
        KeepAliveMeaning(best);
      } else {
        var w :| IsWinner(w, Breached(rs)) && result == Some(Act(w, tenant, service));
        BreachedAreBreached(rs);
        ReadingsAreOfRules(rules, m, w);
        ActMeaning(w, tenant, service);
      }
    }
  }

  // ---- Monotonicity ----

  /** Same time stamps, and every value moved in the breaching direction, or left where it was. */
  ghost predicate Pushed(a: seq<Bucket>, b: seq<Bucket>, operator: Operator) {
    && |a| == |b|
    && forall i :: 0 <= i < |a| ==>
         && a[i].ts == b[i].ts
         && (operator.Greater? ==> a[i].value <= b[i].value)
         && (operator.Less? ==> a[i].value >= b[i].value)
  }

  lemma {:induction false} InsertPushed(x: Bucket, y: Bucket, a: seq<Bucket>, b: seq<Bucket>, operator: Operator)
    requires Pushed([x], [y], operator) && Pushed(a, b, operator)
    ensures Pushed(StableSort.Insert(x, a, ByTime()), StableSort.Insert(y, b, ByTime()), operator)
  {
    assert [x][0].ts == [y][0].ts;
    if |a| == 0 || x.ts <= a[0].ts {
    } else {
      InsertPushed(x, y, a[1..], b[1..], operator);
    }
  }

  lemma {:induction false} SortPushed(a: seq<Bucket>, b: seq<Bucket>, operator: Operator)
    requires Pushed(a, b, operator)
    ensures Pushed(StableSort.Sort(a, ByTime()), StableSort.Sort(b, ByTime()), operator)
  {
    if |a| == 0 {
    } else {
      SortPushed(a[1..], b[1..], operator);
      InsertPushed(a[0], b[0], StableSort.Sort(a[1..], ByTime()), StableSort.Sort(b[1..], ByTime()), operator);
    }
  }

  ghost predicate AtMost(a: seq<real>, b: seq<real>) {
    |a| == |b| && forall i :: 0 <= i < |a| ==> a[i] <= b[i]
  }

  lemma {:induction false} TotalGrows(a: seq<real>, b: seq<real>)
    requires AtMost(a, b)
    ensures Total(a) <= Total(b)
  {
    if |a| == 0 {
    } else {
      TotalGrows(a[1..], b[1..]);
    }
  }

  lemma AggregateGrows(a: seq<real>, b: seq<real>, aggregate: Aggregate)
    requires AtMost(a, b) && |a| > 0
    ensures AggregateOf(a, aggregate) <= AggregateOf(b, aggregate)
  {
    match aggregate
    case MaxValue =>
      var i :| 0 <= i < |a| && a[i] == Maximum(a);
      assert b[i] in b;
    case MinValue =>
      var i :| 0 <= i < |b| && b[i] == Minimum(b);
      assert a[i] in a;
    case Average =>
      TotalGrows(a, b);
      QuotientOrder(Total(a), Total(b), |a| as real);
  }

  lemma ObservedPushed(a: seq<Bucket>, b: seq<Bucket>, operator: Operator, minutes: int, aggregate: Aggregate)
    requires Pushed(a, b, operator)
    ensures var x, y := Observed(a, minutes, aggregate), Observed(b, minutes, aggregate);
            && x.Some? == y.Some?
            && (x.Some? && operator.Greater? ==> x.value <= y.value)
            && (x.Some? && operator.Less? ==> x.value >= y.value)
  {
    SortPushed(a, b, operator);
    var u, v := WindowOf(a, minutes), WindowOf(b, minutes);
    assert Pushed(u, v, operator);
    if |u| > 0 {
      if operator.Greater? {
        AggregateGrows(ValuesOf(u), ValuesOf(v), aggregate);
      } else if operator.Less? {
        AggregateGrows(ValuesOf(v), ValuesOf(u), aggregate);
      }
    }
  }

  /** The same metrics under more pressure: every rule's metric is pushed in its breaching direction. */
  ghost predicate UnderMorePressure(rules: seq<Rule>, m: Metrics, m': Metrics) {
    && m.realCounts == m'.realCounts
    && forall i :: 0 <= i < |rules| ==>
         Pushed(BucketsOf(m, rules[i].metric), BucketsOf(m', rules[i].metric), rules[i].operator)
  }

  lemma BreachSurvivesPressure(rules: seq<Rule>, m: Metrics, m': Metrics, i: nat)
    requires UnderMorePressure(rules, m, m') && i < |rules|
    ensures ReadingOf(rules[i], i, m).Some? == ReadingOf(rules[i], i, m').Some?
    ensures ReadingOf(rules[i], i, m).Some? && IsBreached(ReadingOf(rules[i], i, m).value)
        ==> IsBreached(ReadingOf(rules[i], i, m').value)
  {
    var r := rules[i];
    ObservedPushed(BucketsOf(m, r.metric), BucketsOf(m', r.metric), r.operator, r.minutes, r.aggregate);
  }

  /** The rule behind the decision has the highest risk of all breached rules. */
  ghost predicate WinningRisk(rules: seq<Rule>, m: Metrics, risk: int) {
    exists w :: IsWinner(w, Breached(Readings(rules, m))) && risk == RiskPriority(w.rule.risk)
  }

  /** More pressure never turns an anomaly off and never lowers the risk of the winning rule. */
  lemma PressureNeverCalms(rules: seq<Rule>, m: Metrics, m': Metrics, tenant: string, service: string,
                           calm: Option<Fallback>, tense: Option<Fallback>, risk: int, risk': int)
    requires UnderMorePressure(rules, m, m')
    requires Decides(rules, m, tenant, service, calm) && Decides(rules, m', tenant, service, tense)
    ensures calm.Some? == tense.Some?
    ensures calm.Some? && calm.value.anomaly ==> tense.value.anomaly
    ensures WinningRisk(rules, m, risk) && WinningRisk(rules, m', risk') ==> risk <= risk'
  {
    ReadingsMeaning(rules, m);
    ReadingsMeaning(rules, m');
    forall i | 0 <= i < |rules|
      ensures ReadingOf(rules[i], i, m).Some? == ReadingOf(rules[i], i, m').Some?
      ensures ReadingOf(rules[i], i, m).Some? && IsBreached(ReadingOf(rules[i], i, m).value)
          ==> IsBreached(ReadingOf(rules[i], i, m').value)
    {
      BreachSurvivesPressure(rules, m, m', i);
    }
    if WinningRisk(rules, m, risk) && WinningRisk(rules, m', risk') {
      RiskNeverFalls(rules, m, m', risk, risk');
    }
  }

  lemma WinnerHasTopRisk(w: Reading, breached: seq<Reading>, r: Reading)
    requires IsWinner(w, breached) && r in breached
    ensures RiskPriority(r.rule.risk) <= RiskPriority(w.rule.risk)
  {
  }

  lemma RiskNeverFalls(rules: seq<Rule>, m: Metrics, m': Metrics, risk: int, risk': int)
    requires UnderMorePressure(rules, m, m')
    requires WinningRisk(rules, m, risk) && WinningRisk(rules, m', risk')
    ensures risk <= risk'
  {
    var w :| IsWinner(w, Breached(Readings(rules, m))) && risk == RiskPriority(w.rule.risk);
    var v :| IsWinner(v, Breached(Readings(rules, m'))) && risk' == RiskPriority(v.rule.risk);
    assert w in Breached(Readings(rules, m));
    hide IsWinner, Readings, Breached, IsBreached, ReadingOf;
    var w' := BreachCarriesOver(rules, m, m', w);
    WinnerHasTopRisk(v, Breached(Readings(rules, m')), w');
  }

  /** A breached rule is breached by a reading of the same rule under more pressure. */
  lemma BreachCarriesOver(rules: seq<Rule>, m: Metrics, m': Metrics, w: Reading) returns (w': Reading)
    requires UnderMorePressure(rules, m, m') && w in Breached(Readings(rules, m))
    ensures w' in Breached(Readings(rules, m')) && w'.rule == w.rule
  {
    hide ReadingOf;
    BreachedAreBreached(Readings(rules, m));
    ReadingsAreOfRules(rules, m, w);
    BreachSurvivesPressure(rules, m, m', w.index);
    w' := ReadingOf(rules[w.index], w.index, m').value;
    ReadingsAreOfRules(rules, m', w');
    BreachedAreBreached(Readings(rules, m'));
  }

  // ---- The rule table ----

  const PAYMENT_RULES: seq<Rule> := [
    Rule("api_latency_ms", Greater, 1000.0, 10, MaxValue, "critical", "SCALE_UP"),
    Rule("active_connections", Greater, 5000.0, 10, MaxValue, "high", "SCALE_UP"),
    Rule("cpu_usage_percent", Greater, 85.0, 10, MaxValue, "high", "SCALE_UP"),
    Rule("memory_usage_percent", Greater, 85.0, 15, Average, "high", "SCALE_UP"),
    Rule("db_connection_pool_pct", Greater, 80.0, 10, MaxValue, "high", "INVESTIGATE"),
    Rule("cache_hit_rate_pct", Less, 80.0, 15, MinValue, "medium", "INVESTIGATE")
  ]

  const LEDGER_RULES: seq<Rule> := [
    Rule("db_connection_pool_pct", Greater, 80.0, 10, MaxValue, "critical", "SCALE_UP"),
    Rule("api_latency_ms", Greater, 1000.0, 10, MaxValue, "high", "INVESTIGATE"),
    Rule("cpu_usage_percent", Greater, 85.0, 10, MaxValue, "high", "SCALE_UP"),
    Rule("memory_usage_percent", Greater, 85.0, 15, Average, "high", "INVESTIGATE"),
    Rule("active_connections", Greater, 3000.0, 10, MaxValue, "medium", "INVESTIGATE"),
    Rule("cache_hit_rate_pct", Less, 75.0, 15, MinValue, "medium", "INVESTIGATE")
  ]

  const FRAUD_RULES: seq<Rule> := [
    Rule("queue_depth", Greater, 5000.0, 10, MaxValue, "critical", "SCALE_UP"),
    Rule("queue_depth", Greater, 1000.0, 30, Average, "high", "SCALE_UP"),
    Rule("api_latency_ms", Greater, 1500.0, 10, MaxValue, "high", "INVESTIGATE"),
    Rule("cpu_usage_percent", Greater, 85.0, 10, MaxValue, "high", "SCALE_UP"),
    Rule("memory_usage_percent", Greater, 85.0, 15, Average, "high", "INVESTIGATE"),
    Rule("active_connections", Greater, 2000.0, 10, MaxValue, "medium", "INVESTIGATE")
  ]

  function DefaultRules(service: string): seq<Rule> {
    if service == "payment-gw" then PAYMENT_RULES
    else if service == "ledger" then LEDGER_RULES
    else if service == "fraud-detector" then FRAUD_RULES
    else []
  }

  function Direction(metric: string): Operator {
    if metric == "cache_hit_rate_pct" then Less else Greater
  }

  /** A positive threshold, the metric's one direction, a verb of the contract and a known risk. */
  predicate SoundRule(r: Rule) {
    && r.threshold > 0.0 && r.operator == Direction(r.metric)
    && (r.action == "SCALE_UP" || r.action == "INVESTIGATE")
    && RiskPriority(r.risk) > 0
  }

  lemma PaymentRulesAreSound()
    ensures forall i :: 0 <= i < |PAYMENT_RULES| ==> SoundRule(PAYMENT_RULES[i])
  {
  }

  lemma LedgerRulesAreSound()
    ensures forall i :: 0 <= i < |LEDGER_RULES| ==> SoundRule(LEDGER_RULES[i])
  {
  }

  lemma FraudRulesAreSound()
    ensures forall i :: 0 <= i < |FRAUD_RULES| ==> SoundRule(FRAUD_RULES[i])
  {
  }

  lemma DefaultRulesAreSound(service: string)
    ensures forall i :: 0 <= i < |DefaultRules(service)| ==> SoundRule(DefaultRules(service)[i])
    ensures Sound(DefaultRules(service))
  {
    hide PAYMENT_RULES, LEDGER_RULES, FRAUD_RULES;
    PaymentRulesAreSound();
    LedgerRulesAreSound();
    FraudRulesAreSound();
  }
}
