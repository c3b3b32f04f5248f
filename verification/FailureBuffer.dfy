/**
 The two outside stores of the delivery path: AMP, reached through amp_delivery_adapter.py of
 src/telemetry_api/adapters, and the S3 failure buffer of s3_failure_buffer_adapter.py there.  What a
 call does is decided from outside, including calls that take effect and still report an error.
 */
module FailureBuffer {
  import opened Wrappers
  import opened Retry
  import opened Idempotency

  datatype Settings = Settings(ampEnabled: bool, endpoint: Option<string>, env: string, maxRetries: int,
                               baseMs: real, maxMs: real, bufferEnabled: bool, prefix: string)

  /** The defaults of the source; the endpoint is missing and the environment is local. */
  const DEFAULTS := Settings(true, None, "local", 3, 500.0, 5000.0, true, "telemetry-failures/")

  /** Whether the adapter posts at all; otherwise it is a stub that reports success and sends nothing. */
  predicate Sends(s: Settings) {
    s.endpoint.Some? && s.endpoint.value != "" && s.env != "local"
  }

  predicate Succeeded(a: Attempt) { ResultOf(a).success }

  const FORCED := Returned(DeliveryResult(false, Some("ForcedFailure")))
  const SIMULATED := Returned(DeliveryResult(true, None))

  /** What the i-th call of the adapter reports. */
  function Deliveries(s: Settings, forced: nat -> bool, posts: nat -> Attempt): (d: nat -> Attempt)
    ensures forall i :: d(i) == if forced(i) then FORCED else if Sends(s) then posts(i) else SIMULATED
  {
    (i: nat) => if forced(i) then FORCED else if Sends(s) then posts(i) else SIMULATED
  }

  /** A call reports success exactly when none is forced to fail and the post, if there is one, succeeds. */
  lemma ReportsExactlyWhen(s: Settings, forced: nat -> bool, posts: nat -> Attempt, i: nat)
    ensures Succeeds(Deliveries(s, forced, posts)(i))
       <==> !forced(i) && (s.endpoint.Some? && s.endpoint.value != "" && s.env != "local" ==> Succeeds(posts(i)))
  {
  }

  /** With the default settings, a delivery makes four calls at most and waits less than 3.5 seconds in all. */
  lemma DefaultsAreQuick(attempts: nat -> Attempt, random: nat -> real, delays: seq<real>)
    requires |delays| == LastCall(attempts, DEFAULTS.maxRetries, 0) > 0
    requires Jittered(DEFAULTS.baseMs, DEFAULTS.maxMs, random, delays)
    ensures |delays| <= 3 && Retry.Sum(delays) < 3.5
  {
    LastCallIsFinal(attempts, DEFAULTS.maxRetries, 0);
    hide LastCall;
    TotalWait(DEFAULTS.baseMs, DEFAULTS.maxMs, random, delays);
    DoublingsUpToThree();
    hide Jittered, Retry.Sum, Doublings;
  }

  lemma DoublingsUpToThree()
    ensures Doublings(1) == 2.0 && Doublings(2) == 4.0 && Doublings(3) == 8.0
  {
    DoublingsGrow(0);
    DoublingsGrow(1);
    DoublingsGrow(2);
    hide Doublings;
  }

  class Amp {
    const settings: Settings
    /** Whether FORCE_AMP_DELIVERY_FAIL is set at the i-th call. */
    const forced: nat -> bool
    /** What posting reports at the i-th call, and whether a failed post arrived nevertheless. */
    const posts: nat -> Attempt
    const arrives: nat -> bool
    var calls: nat
    ghost var delivered: set<string>

    constructor (settings: Settings, forced: nat -> bool, posts: nat -> Attempt, arrives: nat -> bool)
      ensures this.settings == settings && this.forced == forced && this.posts == posts && this.arrives == arrives
      ensures calls == 0 && delivered == {}
    {
      this.settings, this.forced, this.posts, this.arrives := settings, forced, posts, arrives;
      calls, delivered := 0, {};
    }

    function Attempts(): nat -> Attempt { Deliveries(settings, forced, posts) }

    predicate Lands(i: nat) {
      Sends(settings) && !forced(i) && (Succeeded(posts(i)) || arrives(i))
    }

    /** deliver: a reported success has arrived if the adapter posts at all; the stub delivers nothing. */
    method Deliver(key: string) returns (a: Attempt)
      modifies this
      ensures calls == old(calls) + 1 && a == Attempts()(old(calls))
      ensures delivered == old(delivered) + if Lands(old(calls)) then {key} else {}
      ensures Sends(settings) && Succeeded(a) ==> key in delivered
      ensures !Sends(settings) ==> delivered == old(delivered)
    {
      var now := calls;
      calls := calls + 1;
      if forced(now) {
        return FORCED;
      }
      if settings.endpoint.None? || settings.endpoint.value == "" || settings.env == "local" {
        return SIMULATED;
      }
      a := posts(now);
      if Succeeded(a) || arrives(now) {
        delivered := delivered + {key};
      }
    }

    /** n calls for the same key, as the retry loop makes them. */
    method DeliverTimes(key: string, n: nat)
      modifies this
      ensures calls == old(calls) + n
      ensures old(delivered) <= delivered <= old(delivered) + {key}
      ensures forall c :: old(calls) <= c < calls && Sends(settings) && Succeeded(Attempts()(c)) ==> key in delivered
      ensures !Sends(settings) ==> delivered == old(delivered)
    {
      for i := 0 to n
        invariant calls == old(calls) + i
        invariant old(delivered) <= delivered <= old(delivered) + {key}
        invariant forall c :: old(calls) <= c < calls && Sends(settings) && Succeeded(Attempts()(c)) ==> key in delivered
        invariant !Sends(settings) ==> delivered == old(delivered)
      {
        hide Sends;
        var _ := Deliver(key);
      }
    }
  }

  /** The JSON object of a failure; anything else in the bucket lacks the metadata. */
  datatype Body = Failure(payload: Payload, eventId: string, key: string) | Malformed

  predicate IsReplayable(b: Body) {
    b.Failure? && b.eventId != "" && b.key != ""
  }

  datatype PutOutcome = Stored | StoredButFailed | Refused
  datatype DeleteOutcome = Removed | RemovedButFailed | NotRemoved

  /** The bucket after a put that may report an error. */
  function AfterPut(objects: map<string, Body>, name: string, b: Body, o: PutOutcome): map<string, Body> {
    if o.Refused? then objects else objects[name := b]
  }

  function AfterDelete(objects: map<string, Body>, name: string, o: DeleteOutcome): map<string, Body> {
    if o.NotRemoved? then objects else objects - {name}
  }

  class Bucket {
    const puts: nat -> PutOutcome
    var putCalls: nat
    var objects: map<string, Body>

    constructor (puts: nat -> PutOutcome)
      ensures this.puts == puts && putCalls == 0 && objects == map[]
    {
      this.puts := puts;
      putCalls, objects := 0, map[];
    }

    /** write: the object name, or None when the put raises. */
    method Write(prefix: string, p: Payload, eventId: string, key: string) returns (name: Option<string>)
      modifies this
      ensures putCalls == old(putCalls) + 1
      ensures objects == AfterPut(old(objects), ObjectKey(prefix, p, key), Failure(p, eventId, key), puts(old(putCalls)))
      ensures name == if puts(old(putCalls)).Stored? then Some(ObjectKey(prefix, p, key)) else None
    {
      var o := puts(putCalls);
      putCalls := putCalls + 1;
      var objectKey := ObjectKey(prefix, p, key);
      objects := AfterPut(objects, objectKey, Failure(p, eventId, key), o);
      return if o.Stored? then Some(objectKey) else None;
    }

    method Delete(name: string, o: DeleteOutcome) returns (ok: bool)
      modifies this`objects
      ensures objects == AfterDelete(old(objects), name, o) && ok == o.Removed?
    {
      objects := AfterDelete(objects, name, o);
      return o.Removed?;
    }
  }
}
