/**
 align_and_impute of src/prediction_worker/app.py: samples fall into buckets, and every expected
 bucket of the window receives a value.  Dafny's division by a positive step rounds down, as
 Python's // does.
 */
module BucketAlignment {
  import opened Wrappers
  import opened RealArith

  datatype Sample = Sample(ts: real, value: real)
  datatype Bucket = Bucket(ts: int, value: real)
  datatype FillPolicy = ForwardFill | ZeroFill

  /** int(x) of a Python float: towards zero. */
  function Truncate(x: real): int {
    if x >= 0.0 then x.Floor else -(-x).Floor
  }

  function BucketStart(t: int, step: int): int
    requires step > 0
  {
    (t / step) * step
  }

  function Flatten(raw: seq<seq<Sample>>): seq<Sample> {
    if |raw| == 0 then [] else Flatten(raw[..|raw| - 1]) + raw[|raw| - 1]
  }

  /** The bucket map that the samples leave behind; a later sample overwrites an earlier one. */
  function ActualData(samples: seq<Sample>, step: int): map<int, real>
    requires step > 0
  {
    if |samples| == 0 then map[]
    else
      var last := samples[|samples| - 1];
      ActualData(samples[..|samples| - 1], step)[BucketStart(Truncate(last.ts), step) := last.value]
  }

  function BucketOfSample(s: Sample, step: int): int
    requires step > 0
  {
    BucketStart(Truncate(s.ts), step)
  }

  /** A sample belongs to the bucket whose span of whole seconds holds its time, cut towards zero. */
  lemma BucketOfSampleMeaning(s: Sample, step: int, k: int)
    requires step > 0
    ensures var b := k * step;
            BucketOfSample(s, step) == b
            <==> if s.ts >= 0.0 then b as real <= s.ts < (b + step) as real
                 else (b - 1) as real < s.ts <= (b + step - 1) as real
  {
    var t, b := Truncate(s.ts), k * step;
    StartMeaning(t, k, step);
    assert b <= t < b + step
      <==> if s.ts >= 0.0 then b as real <= s.ts < (b + step) as real
           else (b - 1) as real < s.ts <= (b + step - 1) as real;
  }

  lemma StartMeaning(t: int, k: int, step: int)
    requires step > 0
    ensures BucketStart(t, step) == k * step <==> k * step <= t < k * step + step
  {
    var q, r := t / step, t % step;
    assert t == q * step + r;
    var d := k - q;
    assert k * step == q * step + d * step;
    MultipleGrows(d, step);
  }

  /** A bucket is real exactly when a sample falls into it, and holds the last such sample. */
  lemma {:induction false} ActualDataMeaning(samples: seq<Sample>, step: int, b: int)
    requires step > 0
    ensures b in ActualData(samples, step)
      <==> exists i :: 0 <= i < |samples| && BucketOfSample(samples[i], step) == b
    ensures b in ActualData(samples, step) ==>
      exists i :: && 0 <= i < |samples| && BucketOfSample(samples[i], step) == b
                  && samples[i].value == ActualData(samples, step)[b]
                  && forall j :: i < j < |samples| ==> BucketOfSample(samples[j], step) != b
  {
    if |samples| == 0 {
    } else {
      var k := |samples| - 1;
      var rest := samples[..k];
      ActualDataMeaning(rest, step, b);
      if BucketOfSample(samples[k], step) == b {
        assert ActualData(samples, step)[b] == samples[k].value;
      } else if b in ActualData(rest, step) {
        var i :| && 0 <= i < k && BucketOfSample(rest[i], step) == b
                 && rest[i].value == ActualData(rest, step)[b]
                 && forall j :: i < j < k ==> BucketOfSample(rest[j], step) != b;
        assert BucketOfSample(samples[i], step) == b;
        forall j | i < j < |samples| ensures BucketOfSample(samples[j], step) != b {
          if j < k {
            assert rest[j] == samples[j];
          }
        }
      } else {
        forall i | 0 <= i < |samples| ensures BucketOfSample(samples[i], step) != b {
          if i < k {
            assert rest[i] == samples[i];
          }
        }
      }
    }
  }

  // ---- The expected buckets ----

  function BucketCount(first: int, last: int, step: int): nat
    requires step > 0
  {
    if last < first then 0 else (last - first) / step + 1
  }

  /** range(first, last + step, step) for bucket starts first and last. */
  function Expected(first: int, last: int, step: int): (r: seq<int>)
    requires step > 0
    ensures |r| == BucketCount(first, last, step)
    ensures forall i :: 0 <= i < |r| ==> r[i] == first + i * step
  {
    seq(BucketCount(first, last, step), i requires 0 <= i => first + i * step)
  }

  lemma QuotientMeaning(n: int, step: int, i: int)
    requires step > 0
    ensures i <= n / step <==> i * step <= n
  {
    var q, r := n / step, n % step;
    assert n == q * step + r;
    var d := i - q;
    assert i * step == q * step + d * step;
    MultipleGrows(d, step);
  }

  /** The window is every step from the first start up to the last. */
  lemma ExpectedMeaning(first: int, last: int, step: int, i: nat)
    requires step > 0
    ensures i < |Expected(first, last, step)| <==> first + i * step <= last
  {
    QuotientMeaning(last - first, step, i);
    if last < first {
      assert i * step >= 0;
    }
  }

  /** The latest real bucket at or before position i, or -1. */
  function LatestReal(actual: map<int, real>, expected: seq<int>, i: int): (r: int)
    requires -1 <= i < |expected|
    ensures -1 <= r <= i
    ensures r >= 0 ==> expected[r] in actual
    ensures forall j :: r < j <= i ==> expected[j] !in actual
    decreases i + 1
  {
    if i < 0 || expected[i] in actual then i else LatestReal(actual, expected, i - 1)
  }

  /** What a bucket must hold. */
  function Filled(actual: map<int, real>, expected: seq<int>, i: nat, policy: FillPolicy): real
    requires i < |expected|
  {
    var r := LatestReal(actual, expected, i);
    if r == i then actual[expected[i]]
    else if policy.ForwardFill? && r >= 0 then actual[expected[r]]
    else 0.0
  }

  function Missing(actual: map<int, real>, expected: seq<int>): (n: nat)
    ensures n <= |expected|
  {
    if |expected| == 0 then 0
    else
      var before := Missing(actual, expected[..|expected| - 1]);
      before + if expected[|expected| - 1] in actual then 0 else 1
  }

  predicate Aligned(actual: map<int, real>, expected: seq<int>, policy: FillPolicy, aligned: seq<Bucket>) {
    && |aligned| == |expected|
    && forall i :: 0 <= i < |aligned| ==>
         aligned[i] == Bucket(expected[i], Filled(actual, expected, i, policy))
  }

  function GapRatio(missing: nat, total: nat): real {
    if total > 0 then Ratio(missing as real, total as real) else 1.0
  }

  // ---- The method ----

  /** The first loop: every sample goes into its bucket. */
  method CollectSamples(raw: seq<seq<Sample>>, step: int) returns (actual: map<int, real>)
    requires step > 0
    ensures actual == ActualData(Flatten(raw), step)
  {
    actual := map[];
    for s := 0 to |raw|
      invariant actual == ActualData(Flatten(raw[..s]), step)
    {
      ghost var before := Flatten(raw[..s]);
      assert raw[..s + 1][..s] == raw[..s];
      assert before + raw[s][..0] == before;
      for k := 0 to |raw[s]|
        invariant actual == ActualData(before + raw[s][..k], step)
      {
        var sample := raw[s][k];
        assert (before + raw[s][..k + 1])[..|before| + k] == before + raw[s][..k];
        actual := actual[BucketStart(Truncate(sample.ts), step) := sample.value];
      }
      assert raw[s][..|raw[s]|] == raw[s];
    }
    assert raw[..|raw|] == raw;
  }

  /** The value behind the latest real bucket before i fills bucket i when it is missing. */
  lemma FilledFromLast(actual: map<int, real>, expected: seq<int>, i: nat, policy: FillPolicy)
    requires i < |expected|
    ensures var last := ValueAt(actual, expected, LatestReal(actual, expected, i - 1));
            && Filled(actual, expected, i, policy)
            == (if expected[i] in actual then actual[expected[i]]
                else if policy.ForwardFill? && last.Some? then last.value else 0.0)
            && ValueAt(actual, expected, LatestReal(actual, expected, i))
            == if expected[i] in actual then Some(actual[expected[i]]) else last
  {
  }

  lemma MissingStep(actual: map<int, real>, expected: seq<int>, i: nat)
    requires i < |expected|
    ensures Missing(actual, expected[..i + 1]) == Missing(actual, expected[..i]) + if expected[i] in actual then 0 else 1
  {
    assert expected[..i + 1][..i] == expected[..i];
  }

  /** The second loop: every expected bucket is filled, and the missing ones are counted. */
  method Impute(actual: map<int, real>, expected: seq<int>, policy: FillPolicy)
    returns (aligned: seq<Bucket>, missing: nat)
    ensures Aligned(actual, expected, policy, aligned)
    ensures missing == Missing(actual, expected)
  {
    hide Filled, LatestReal, Missing, ValueAt;
    aligned, missing := [], 0;
    var lastKnown: Option<real> := None;
    NothingYet(actual, expected);
    for i := 0 to |expected|
      invariant |aligned| == i
      invariant forall j :: 0 <= j < i ==> aligned[j] == Bucket(expected[j], Filled(actual, expected, j, policy))
      invariant lastKnown == ValueAt(actual, expected, LatestReal(actual, expected, i - 1))
      invariant missing == Missing(actual, expected[..i])
    {
      var ts := expected[i];
      FilledFromLast(actual, expected, i, policy);
      MissingStep(actual, expected, i);
      if ts in actual {
        aligned := aligned + [Bucket(ts, actual[ts])];
        lastKnown := Some(actual[ts]);
      } else {
        missing := missing + 1;
        if policy.ForwardFill? && lastKnown.Some? {
          aligned := aligned + [Bucket(ts, lastKnown.value)];
        } else {
          aligned := aligned + [Bucket(ts, 0.0)];
        }
      }
    }
    assert expected[..|expected|] == expected;
  }

  lemma NothingYet(actual: map<int, real>, expected: seq<int>)
    ensures ValueAt(actual, expected, LatestReal(actual, expected, -1)) == None && Missing(actual, expected[..0]) == 0
  {
  }

  function ValueAt(actual: map<int, real>, expected: seq<int>, r: int): Option<real>
    requires -1 <= r < |expected| && (r >= 0 ==> expected[r] in actual)
  {
    if r < 0 then None else Some(actual[expected[r]])
  }

  method AlignAndImpute(raw: seq<seq<Sample>>, startTime: int, endTime: int, step: int, policy: FillPolicy)
    returns (aligned: seq<Bucket>, gapRatio: real, realCount: nat)
    requires step > 0
    ensures var actual := ActualData(Flatten(raw), step);
            var expected := Expected(BucketStart(startTime, step), BucketStart(endTime, step), step);
            && Aligned(actual, expected, policy, aligned)
            && gapRatio == GapRatio(Missing(actual, expected), |expected|)
            && realCount == |actual|
  {
    var expected := Expected(BucketStart(startTime, step), BucketStart(endTime, step), step);
    var actual := CollectSamples(raw, step);
    var missing;
    aligned, missing := Impute(actual, expected, policy);
    gapRatio := if |expected| > 0 then Ratio(missing as real, |expected| as real) else 1.0;
    realCount := |actual|;
  }

  // ---- Counting ----

  function InWindow(actual: map<int, real>, expected: seq<int>): set<int> {
    set b | b in actual && b in expected
  }

  /** Missing buckets and real buckets of the window add up to its length. */
  lemma {:induction false} MissingPlusReal(actual: map<int, real>, expected: seq<int>)
    requires forall i, j :: 0 <= i < j < |expected| ==> expected[i] != expected[j]
    ensures Missing(actual, expected) + |InWindow(actual, expected)| == |expected|
  {
    if |expected| == 0 {
      assert InWindow(actual, expected) == {};
    } else {
      var k := |expected| - 1;
      var b := expected[k];
      MissingPlusReal(actual, expected[..k]);
      assert expected == expected[..k] + [b];
      if b in actual {
        assert InWindow(actual, expected) == InWindow(actual, expected[..k]) + {b};
      } else {
        assert InWindow(actual, expected) == InWindow(actual, expected[..k]);
      }
    }
  }

  lemma {:induction false} NoneMissing(actual: map<int, real>, expected: seq<int>)
    ensures Missing(actual, expected) == 0 <==> forall i :: 0 <= i < |expected| ==> expected[i] in actual
  {
    if |expected| == 0 {
    } else {
      var k := |expected| - 1;
      NoneMissing(actual, expected[..k]);
      assert forall i :: 0 <= i < k ==> expected[..k][i] == expected[i];
      if Missing(actual, expected) != 0 && expected[k] in actual {
        var i :| 0 <= i < k && expected[..k][i] !in actual;
        assert expected[i] !in actual;
      }
    }
  }

  /** The gap ratio is between 0 and 1, and 0 exactly when every expected bucket is real. */
  lemma GapRatioMeaning(actual: map<int, real>, expected: seq<int>)
    ensures var g := GapRatio(Missing(actual, expected), |expected|);
            && 0.0 <= g <= 1.0
            && (g == 0.0 <==> expected != [] && forall i :: 0 <= i < |expected| ==> expected[i] in actual)
  {
    NoneMissing(actual, expected);
    if |expected| > 0 {
      Quotient(Missing(actual, expected) as real, |expected| as real);
    }
  }

  // ---- Aligning twice ----

  function ToSamples(buckets: seq<Bucket>): (r: seq<Sample>)
    ensures |r| == |buckets|
  {
    seq(|buckets|, i requires 0 <= i < |buckets| => Sample(buckets[i].ts as real, buckets[i].value))
  }

  lemma BucketStartIsFixed(k: int, step: int)
    requires step > 0
    ensures BucketStart(k * step, step) == k * step
  {
    var n := k * step;
    var q, r := n / step, n % step;
    assert n == q * step + r;
    var d := k - q;
    assert d * step == r;
    MultipleGrows(d, step);
  }

  lemma MultipleGrows(d: int, step: int)
    requires step > 0
    ensures d >= 1 ==> d * step >= step
    ensures d <= -1 ==> d * step <= -step
  {
  }

  lemma ExpectedAreStarts(startTime: int, endTime: int, step: int, i: nat)
    requires step > 0
    requires i < BucketCount(BucketStart(startTime, step), BucketStart(endTime, step), step)
    ensures var e := Expected(BucketStart(startTime, step), BucketStart(endTime, step), step);
            BucketStart(e[i], step) == e[i]
  {
    var k := startTime / step + i;
    assert BucketStart(startTime, step) + i * step == k * step;
    BucketStartIsFixed(k, step);
  }

  lemma ExpectedIncrease(first: int, last: int, step: int)
    requires step > 0
    ensures var e := Expected(first, last, step);
            forall i, j :: 0 <= i < j < |e| ==> e[i] < e[j]
  {
    var e := Expected(first, last, step);
    forall i, j | 0 <= i < j < |e| ensures e[i] < e[j] {
      assert (j - i) * step > 0;
      assert j * step == i * step + (j - i) * step;
    }
  }

  /** An aligned window, aligned again with any policy, comes back as it was and without gaps. */
  lemma RealigningChangesNothing(actual: map<int, real>, startTime: int, endTime: int, step: int,
                                 policy: FillPolicy, again: FillPolicy, aligned: seq<Bucket>)
    requires step > 0
    requires Aligned(actual, Expected(BucketStart(startTime, step), BucketStart(endTime, step), step), policy, aligned)
    ensures var expected := Expected(BucketStart(startTime, step), BucketStart(endTime, step), step);
            var second := ActualData(ToSamples(aligned), step);
            && Aligned(second, expected, again, aligned)
            && Missing(second, expected) == 0
  {
    var expected := Expected(BucketStart(startTime, step), BucketStart(endTime, step), step);
    var samples := ToSamples(aligned);
    var second := ActualData(samples, step);
    ExpectedIncrease(BucketStart(startTime, step), BucketStart(endTime, step), step);
    forall i | 0 <= i < |samples| ensures BucketOfSample(samples[i], step) == expected[i] {
      ExpectedAreStarts(startTime, endTime, step, i);
      assert Truncate(expected[i] as real) == expected[i];
    }
    forall i | 0 <= i < |expected| ensures expected[i] in second && second[expected[i]] == aligned[i].value {
      ActualDataMeaning(samples, step, expected[i]);
      assert BucketOfSample(samples[i], step) == expected[i];
      var k :| && 0 <= k < |samples| && BucketOfSample(samples[k], step) == expected[i]
               && samples[k].value == second[expected[i]];
      assert k == i;
    }
    NoneMissing(second, expected);
  }
}
