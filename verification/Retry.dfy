/**
 execute_with_retry of src/telemetry_api/core/retry.py.  The action's outcomes and the random
 numbers come from outside; delays are in seconds.
 */
module Retry {
  import opened Wrappers
  import opened RealArith
  import opened Powers
  import opened PythonText

  datatype DeliveryResult = DeliveryResult(success: bool, errorType: Option<string>)

  /** One call of the action. */
  datatype Attempt = Returned(result: DeliveryResult) | Raised

  const EXCEPTION_RAISED := DeliveryResult(false, Some("ExceptionRaised"))

  function ResultOf(a: Attempt): DeliveryResult {
    match a case Returned(r) => r case Raised => EXCEPTION_RAISED
  }

  /** result.error_type or "UnknownError". */
  function ErrorTypeOf(r: DeliveryResult): string {
    if r.errorType.None? || r.errorType.value == "" then "UnknownError" else r.errorType.value
  }

  /** The callback is given an error type that is never empty, and the result's own when it has one. */
  lemma ErrorTypeIsNamed(r: DeliveryResult)
    ensures ErrorTypeOf(r) != ""
    ensures r.errorType.Some? && r.errorType.value != "" ==> ErrorTypeOf(r) == r.errorType.value
  {
    assert |"UnknownError"| > 0;
  }

  const HTTP_PREFIX := "HTTP_"

  predicate IsClientError(code: int) {
    400 <= code < 500 && code != 429
  }

  predicate IsTransient(errorType: string) {
    if HTTP_PREFIX <= errorType then
      var field := SecondField(errorType);
      var code := if field.Some? then ParseInt(field.value) else None;
      code.None? || !IsClientError(code.value)
    else true
  }

  /** An attempt after which nothing is retried. */
  predicate IsFinal(a: Attempt) {
    a.Returned? && (a.result.success || !IsTransient(ErrorTypeOf(a.result)))
  }

  lemma FindInHead(s: string, t: string, c: char)
    requires c !in s
    ensures Find(s + [c] + t, c) == |s|
    ensures Find(s, c) == |s|
  {
    var whole := s + [c] + t;
    assert whole[|s|] == c;
    assert forall i :: 0 <= i < |s| ==> whole[i] == s[i];
  }

  /** The statuses that the delivery adapter reports: the 4xx except 429 are not retried. */
  lemma HttpClassification(code: nat)
    ensures IsTransient(HTTP_PREFIX + Decimal(code)) <==> !IsClientError(code)
  {
    var digits := Decimal(code);
    var e := HTTP_PREFIX + digits;
    assert HTTP_PREFIX == "HTTP" + ['_'];
    assert e == "HTTP" + ['_'] + digits;
    FindInHead("HTTP", digits, '_');
    assert e[5..] == digits;
    FindInHead(digits, "", '_');
    assert digits[..|digits|] == digits;
    IntOfDecimal(code);
  }

  // ---- Which failures end the loop, said about their texts ----

  /** The text is "HTTP_" with this field, alone or before another underscore. */
  predicate IsHttpField(e: string, field: string) {
    && |e| >= 5 + |field| && e[..5] == "HTTP_" && e[5..5 + |field|] == field && '_' !in field
    && (|e| == 5 + |field| || e[5 + |field|] == '_')
  }

  /** An HTTP status from 400 to 499 other than 429, wherever int() reads one. */
  ghost predicate NamesClientError(e: string) {
    exists field: string, code: int :: IsHttpField(e, field) && Denotes(field, code) && 400 <= code <= 499 && code != 429
  }

  ghost predicate Succeeds(a: Attempt) { a.Returned? && a.result.success }

  ghost predicate IsClientFailure(a: Attempt) {
    && a.Returned? && !a.result.success
    && a.result.errorType.Some? && NamesClientError(a.result.errorType.value)
  }

  lemma FieldOfHttp(e: string, field: string)
    requires IsHttpField(e, field)
    ensures HTTP_PREFIX <= e && SecondField(e) == Some(field)
  {
    var rest := e[5..];
    assert e == "HTTP" + ['_'] + rest by { assert "HTTP_" == "HTTP" + ['_']; assert e == e[..5] + e[5..]; }
    FindInHead("HTTP", rest, '_');
    assert e[4 + 1..] == rest;
    if |e| == 5 + |field| {
      assert rest == field;
      FindInHead(field, "", '_');
      assert rest[..|field|] == field;
    } else {
      assert rest == field + ['_'] + rest[|field| + 1..];
      FindInHead(field, rest[|field| + 1..], '_');
      assert rest[..|field|] == field;
    }
  }

  lemma HttpHasField(e: string) returns (field: string)
    requires HTTP_PREFIX <= e
    ensures SecondField(e) == Some(field) && IsHttpField(e, field)
  {
    var rest := e[5..];
    var k := Find(rest, '_');
    field := rest[..k];
    assert e[..5] == HTTP_PREFIX;
    assert e[5..5 + |field|] == field;
    assert forall i :: 0 <= i < k ==> field[i] == rest[i];
    FieldOfHttp(e, field);
  }

  /** Without the prefix, or with a field that is no such status, a failure is transient. */
  lemma TransientExactlyWhen(e: string)
    ensures IsTransient(e) <==> !NamesClientError(e)
  {
    hide SecondField, Denotes, IsHttpField, ParseInt;
    if NamesClientError(e) {
      var field: string, code: int :|
        IsHttpField(e, field) && Denotes(field, code) && 400 <= code <= 499 && code != 429;
      FieldOfHttp(e, field);
      ParseIntMeaning(field, code);
    }
    if !IsTransient(e) {
      var field := HttpHasField(e);
      ParseIntMeaning(field, ParseInt(field).value);
    }
  }

  lemma NoErrorTypeIsTransient()
    ensures IsTransient("UnknownError") && !NamesClientError("")
  {
    assert "UnknownError"[0] == 'U' && HTTP_PREFIX[0] == 'H';
  }

  /** A call ends the loop exactly when it succeeds or names a client error. */
  lemma FinalExactlyWhen(a: Attempt)
    ensures IsFinal(a) <==> Succeeds(a) || IsClientFailure(a)
  {
    NoErrorTypeIsTransient();
    if a.Returned? {
      TransientExactlyWhen(ErrorTypeOf(a.result));
    }
    hide IsTransient, NamesClientError;
  }

  // ---- How many calls ----

  /** The index of the last call, searching from call i. */
  function LastCall(attempts: nat -> Attempt, maxRetries: int, i: nat): nat
    decreases maxRetries - i
  {
    if IsFinal(attempts(i)) || i + 1 > maxRetries then i else LastCall(attempts, maxRetries, i + 1)
  }

  /** The retry budget: a negative setting still makes one call. */
  function Budget(maxRetries: int): nat { if maxRetries < 0 then 0 else maxRetries }

  lemma {:induction false} LastCallIsFinal(attempts: nat -> Attempt, maxRetries: int, i: nat)
    requires i <= Budget(maxRetries)
    ensures var n := LastCall(attempts, maxRetries, i);
            && i <= n <= Budget(maxRetries)
            && (forall j :: i <= j < n ==> !IsFinal(attempts(j)))
            && (IsFinal(attempts(n)) || n == Budget(maxRetries))
    decreases maxRetries - i
  {
    if IsFinal(attempts(i)) || i + 1 > maxRetries {
    } else {
      LastCallIsFinal(attempts, maxRetries, i + 1);
    }
  }

  // ---- Delays ----

  /** 2 ** n as a float. */
  function Doublings(n: nat): real { Power(2, n) as real }

  lemma DoublingsGrow(n: nat)
    ensures Doublings(0) == 1.0 && Doublings(n + 1) == 2.0 * Doublings(n) && Doublings(n) >= 1.0
  {
    PowerIsPositive(2, n);
    assert Power(2, n + 1) == 2 * Power(2, n);
  }

  function Min(x: real, y: real): real { if x <= y then x else y }

  /** The delay before jitter, ahead of retry i + 1. */
  function RawDelay(baseMs: real, maxMs: real, i: nat): real {
    Min(maxMs / 1000.0, (baseMs / 1000.0) * Doublings(i))
  }

  function Delay(baseMs: real, maxMs: real, i: nat, random: real): real {
    RawDelay(baseMs, maxMs, i) * (0.5 + random * 0.5)
  }

  function Sum(delays: seq<real>): real {
    if |delays| == 0 then 0.0 else Sum(delays[..|delays| - 1]) + delays[|delays| - 1]
  }

  lemma RaisedErrorType()
    ensures ErrorTypeOf(EXCEPTION_RAISED) == "ExceptionRaised"
  {
  }

  method ExecuteWithRetry(attempts: nat -> Attempt, maxRetries: int, baseMs: real, maxMs: real, random: nat -> real)
    returns (result: DeliveryResult, calls: nat, callbacks: seq<(nat, string)>, delays: seq<real>)
    ensures calls == LastCall(attempts, maxRetries, 0) + 1
    ensures result == ResultOf(attempts(calls - 1))
    ensures |callbacks| == |delays| == calls - 1
    ensures forall i :: 0 <= i < calls - 1 ==>
              && callbacks[i] == (i + 1, ErrorTypeOf(ResultOf(attempts(i))))
              && delays[i] == Delay(baseMs, maxMs, i, random(i))
  {
    hide IsTransient, ErrorTypeOf, Doublings;
    callbacks, delays := [], [];
    var attempt := 0;
    while true
      invariant 0 <= attempt <= Budget(maxRetries)
      invariant LastCall(attempts, maxRetries, 0) == LastCall(attempts, maxRetries, attempt)
      invariant |callbacks| == |delays| == attempt
      invariant forall i :: 0 <= i < attempt ==>
                  && callbacks[i] == (i + 1, ErrorTypeOf(ResultOf(attempts(i))))
                  && delays[i] == Delay(baseMs, maxMs, i, random(i))
      decreases Budget(maxRetries) - attempt
    {
      var errorType: string;
      var outcome := attempts(attempt);
      if outcome.Returned? {
        result := outcome.result;
        if result.success {
          return result, attempt + 1, callbacks, delays;
        }
        errorType := ErrorTypeOf(result);
        if !IsTransient(errorType) {
          return result, attempt + 1, callbacks, delays;
        }
      } else {
        result := EXCEPTION_RAISED;
        errorType := "ExceptionRaised";
        RaisedErrorType();
      }
      attempt := attempt + 1;
      if attempt > maxRetries {
        return result, attempt, callbacks, delays;
      }
      var raw := Min(maxMs / 1000.0, (baseMs / 1000.0) * Doublings(attempt - 1));
      var delay := raw * (0.5 + random(attempt - 1) * 0.5);
      assert delay == Delay(baseMs, maxMs, attempt - 1, random(attempt - 1));
      hide Delay;
      callbacks := callbacks + [(attempt, errorType)];
      delays := delays + [delay];
    }
  }

  // ---- What the outcome and the waiting amount to ----

  /**
   The last call is the first that succeeds or names a client error, or else the one that uses up the
   budget of max_retries retries; a negative budget still makes one call.
   */
  lemma LastCallMeaning(attempts: nat -> Attempt, maxRetries: int)
    ensures var n := LastCall(attempts, maxRetries, 0);
            && (n <= maxRetries || n == 0)
            && (forall j :: 0 <= j < n ==> !Succeeds(attempts(j)) && !IsClientFailure(attempts(j)))
            && (Succeeds(attempts(n)) || IsClientFailure(attempts(n)) || n >= maxRetries)
  {
    LastCallIsFinal(attempts, maxRetries, 0);
    hide IsFinal, LastCall, Succeeds, IsClientFailure;
    var n := LastCall(attempts, maxRetries, 0);
    forall j ensures IsFinal(attempts(j)) <==> Succeeds(attempts(j)) || IsClientFailure(attempts(j)) {
      FinalExactlyWhen(attempts(j));
    }
  }

  lemma SuccessIsNoFailure(a: Attempt)
    ensures Succeeds(a) ==> !IsClientFailure(a)
  {
  }

  /** The result is a success exactly when some call within the budget succeeds before any client error. */
  lemma SuccessExactlyWhen(attempts: nat -> Attempt, maxRetries: int)
    ensures ResultOf(attempts(LastCall(attempts, maxRetries, 0))).success
      <==> exists n: nat :: && (n <= maxRetries || n == 0) && Succeeds(attempts(n))
                            && forall j :: 0 <= j < n ==> !IsClientFailure(attempts(j))
  {
    LastCallMeaning(attempts, maxRetries);
    hide LastCall, IsClientFailure;
    var last := LastCall(attempts, maxRetries, 0);
    assert ResultOf(attempts(last)).success <==> Succeeds(attempts(last));
    forall n: nat | && (n <= maxRetries || n == 0) && Succeeds(attempts(n))
                    && (forall j :: 0 <= j < n ==> !IsClientFailure(attempts(j)))
      ensures last <= n && Succeeds(attempts(last))
    {
      SuccessIsNoFailure(attempts(n));
    }
  }

  /** Unjittered delays start at the base and double until they reach the maximum. */
  lemma RawDelayDoubles(baseMs: real, maxMs: real, i: nat)
    requires baseMs > 0.0 && maxMs > 0.0
    ensures RawDelay(baseMs, maxMs, 0) * 1000.0 == if baseMs <= maxMs then baseMs else maxMs
    ensures var next := 2.0 * RawDelay(baseMs, maxMs, i);
            RawDelay(baseMs, maxMs, i + 1) == if next * 1000.0 <= maxMs then next else maxMs / 1000.0
  {
    DoublingsGrow(i);
    hide Doublings;
    var step, top := (baseMs / 1000.0) * Doublings(i), maxMs / 1000.0;
    assert (baseMs / 1000.0) * Doublings(i + 1) == 2.0 * step;
  }

  /** Jitter is even: half of the raw delay, and the random part of the other half. */
  lemma DelayIsInterpolated(baseMs: real, maxMs: real, i: nat, random: real)
    ensures var raw := RawDelay(baseMs, maxMs, i);
            2.0 * Delay(baseMs, maxMs, i, random) == raw + raw * random
  {
  }

  lemma RawDelayIsPositive(baseMs: real, maxMs: real, i: nat)
    requires baseMs > 0.0 && maxMs > 0.0
    ensures RawDelay(baseMs, maxMs, i) > 0.0
  {
    DoublingsGrow(i);
    ProductIsPositive(baseMs / 1000.0, Doublings(i));
  }

  lemma JitterBounds(raw: real, random: real, d: real)
    requires raw > 0.0 && 0.0 <= random < 1.0 && d == raw * (0.5 + random * 0.5)
    ensures raw / 2.0 <= d < raw
  {
    var share, spare := raw * random, 1.0 - random;
    ProductSign(raw, random);
    ProductIsPositive(raw, spare);
    assert raw * spare == raw - share;
    assert d == raw * 0.5 + share * 0.5;
  }

  /** Jitter keeps a delay between half of its raw value and the raw value. */
  lemma DelayBounds(baseMs: real, maxMs: real, i: nat, random: real)
    requires baseMs > 0.0 && maxMs > 0.0 && 0.0 <= random < 1.0
    ensures var raw := RawDelay(baseMs, maxMs, i);
            raw / 2.0 <= Delay(baseMs, maxMs, i, random) < raw
  {
    RawDelayIsPositive(baseMs, maxMs, i);
    var raw, d := RawDelay(baseMs, maxMs, i), Delay(baseMs, maxMs, i, random);
    assert d == raw * (0.5 + random * 0.5);
    hide RawDelay, Delay;
    JitterBounds(raw, random, d);
  }

  ghost predicate Jittered(baseMs: real, maxMs: real, random: nat -> real, delays: seq<real>) {
    forall i :: 0 <= i < |delays| ==>
      0.0 <= random(i) < 1.0 && delays[i] == Delay(baseMs, maxMs, i, random(i))
  }

  /** n retries wait less than n times the maximum, and less than base times 2^n - 1. */
  lemma TotalWait(baseMs: real, maxMs: real, random: nat -> real, delays: seq<real>)
    requires baseMs > 0.0 && maxMs > 0.0 && Jittered(baseMs, maxMs, random, delays) && |delays| > 0
    ensures Sum(delays) < |delays| as real * (maxMs / 1000.0)
    ensures Sum(delays) < (baseMs / 1000.0) * (Doublings(|delays|) - 1.0)
  {
    hide Delay, RawDelay, Sum;
    forall i | 0 <= i < |delays|
      ensures delays[i] < maxMs / 1000.0 && delays[i] < (baseMs / 1000.0) * Doublings(i)
    {
      DelayBounds(baseMs, maxMs, i, random(i));
      RawDelayCaps(baseMs, maxMs, i);
    }
    SumOfCapped(maxMs / 1000.0, baseMs / 1000.0, delays);
  }

  ghost predicate Capped(m: real, b: real, delays: seq<real>) {
    forall i :: 0 <= i < |delays| ==> delays[i] < m && delays[i] < b * Doublings(i)
  }

  lemma {:induction false} SumOfCapped(m: real, b: real, delays: seq<real>)
    requires Capped(m, b, delays) && |delays| > 0
    ensures Sum(delays) < |delays| as real * m
    ensures Sum(delays) < b * (Doublings(|delays|) - 1.0)
  {
    var k := |delays| - 1;
    var before := delays[..k];
    assert delays[k] < m && delays[k] < b * Doublings(k);
    if k > 0 {
      assert Capped(m, b, before);
      SumOfCapped(m, b, before);
    }
    DoublingsGrow(k);
    hide Capped, Doublings;
    WaitStep(Sum(before), delays[k], k, m, b, Doublings(k));
  }

  lemma RawDelayCaps(baseMs: real, maxMs: real, i: nat)
    ensures RawDelay(baseMs, maxMs, i) <= maxMs / 1000.0
    ensures RawDelay(baseMs, maxMs, i) <= (baseMs / 1000.0) * Doublings(i)
  {
  }

  lemma WaitStep(sum: real, d: real, k: nat, m: real, b: real, p: real)
    requires d < m && d < b * p
    requires if k == 0 then sum == 0.0 && p == 1.0 else sum < k as real * m && sum < b * (p - 1.0)
    ensures sum + d < (k + 1) as real * m
    ensures sum + d < b * (2.0 * p - 1.0)
  {
    assert (k + 1) as real * m == k as real * m + m;
    assert b * (2.0 * p - 1.0) == b * (p - 1.0) + b * p;
  }
}
