/**
 IngestService.ingest, ReplayService.replay_failures and the ingest route of src/telemetry_api, on
 the shared counters, AMP and the failure buffer.
 */
module TelemetryService {
  import opened Wrappers
  import opened Retry
  import opened Idempotency
  import opened TelemetryCounters
  import opened FailureBuffer

  datatype IngestResult = Accepted | Buffered | Mismatch | StorageError | ExporterError | BothFailed

  /** Direct delivery is on and the adapter is not a stub. */
  predicate DeliversDirectly(s: Settings) { s.ampEnabled && Sends(s) }

  predicate Acknowledges(r: IngestResult) { r.Accepted? || r.Buffered? }

  /** How one delivery went: the number of retries, and whether the last call succeeded. */
  datatype Delivery = Delivery(retries: nat, success: bool)

  /** The attempts from call number start on. */
  function From(attempts: nat -> Attempt, start: nat): nat -> Attempt { (k: nat) => attempts(start + k) }

  function DeliveryFrom(attempts: nat -> Attempt, maxRetries: int, start: nat): Delivery {
    var stream := From(attempts, start);
    var last := LastCall(stream, maxRetries, 0);
    Delivery(last, Succeeded(stream(last)))
  }

  /** A delivery of so many calls. */
  lemma DeliveryOfCalls(attempts: nat -> Attempt, maxRetries: int, start: nat, calls: nat)
    requires calls == LastCall(From(attempts, start), maxRetries, 0) + 1
    ensures DeliveryFrom(attempts, maxRetries, start) == Delivery(calls - 1, Succeeded(attempts(start + (calls - 1))))
  {
  }

  /** A delivery succeeds exactly when some call within its budget does, before any client error. */
  lemma DeliverySucceedsExactlyWhen(attempts: nat -> Attempt, maxRetries: int, start: nat)
    ensures DeliveryFrom(attempts, maxRetries, start).success
      <==> var calls := From(attempts, start);
           exists n: nat :: && (n <= maxRetries || n == 0) && Succeeds(calls(n))
                            && forall j :: 0 <= j < n ==> !IsClientFailure(calls(j))
  {
    hide LastCall, IsClientFailure;
    SuccessExactlyWhen(From(attempts, start), maxRetries);
  }

  /** The counters after an ingest that tried to deliver. */
  function CountDelivery(s: Snapshot, d: Delivery, bufferEnabled: bool, put: PutOutcome): Snapshot {
    var t := s.(attempts := s.attempts + 1, retries := s.retries + d.retries);
    if d.success then t
    else
      var u := t.(failed := t.failed + 1);
      if !bufferEnabled then u
      else if put.Stored? then u.(bufferWrites := u.bufferWrites + 1, buffered := u.buffered + 1)
      else u.(bufferFailed := u.bufferFailed + 1)
  }

  function ResultAfter(d: Delivery, bufferEnabled: bool, put: PutOutcome): IngestResult {
    if d.success then Accepted else if bufferEnabled && put.Stored? then Buffered else BothFailed
  }

  // ---- The counters' laws ----

  /** Deliveries: calls are attempts and retries, and every failure ends in exactly one way. */
  ghost predicate DeliveriesAddUp(s: Snapshot, ingestCalls: nat, unbuffered: nat) {
    && ingestCalls == s.attempts + s.retries
    && s.failed == s.bufferWrites + s.bufferFailed + unbuffered
    && s.buffered == s.bufferWrites
    && s.failed <= s.attempts
  }

  lemma ZeroAgrees()
    ensures ReasonsAgree(ZERO)
  {
  }

  lemma CountingKeepsLaws(s: Snapshot, d: Delivery, bufferEnabled: bool, put: PutOutcome, ingestCalls: nat, unbuffered: nat)
    requires DeliveriesAddUp(s, ingestCalls, unbuffered)
    ensures DeliveriesAddUp(CountDelivery(s, d, bufferEnabled, put), ingestCalls + d.retries + 1,
                            unbuffered + if !d.success && !bufferEnabled then 1 else 0)
    ensures ReasonsAgree(s) ==> ReasonsAgree(CountDelivery(s, d, bufferEnabled, put))
    ensures CountDelivery(s, d, bufferEnabled, put).accepted == s.accepted
         && CountDelivery(s, d, bufferEnabled, put).rejected == s.rejected
  {
    hide SumValues, CountOf;
    var t := CountDelivery(s, d, bufferEnabled, put);
    forall r ensures CountOf(t, r) == CountOf(s, r) {
      SameReasonsSameCount(s, t, r);
    }
  }

  // ---- The buffer holds what ingest wrote ----

  /** Every object is a failure record of the payload that its name says. */
  ghost predicate Genuine(objects: map<string, Body>, prefix: string, hash: Canonical -> string) {
    forall name :: name in objects ==> GenuineObject(name, objects[name], prefix, hash)
  }

  ghost predicate GenuineObject(name: string, b: Body, prefix: string, hash: Canonical -> string) {
    && IsReplayable(b) && b.payload.Valid()
    && b.key == KeyOf(b.payload, hash) && name == ObjectKey(prefix, b.payload, b.key)
  }

  /** The payload has reached AMP, or waits in the buffer. */
  ghost predicate Kept(p: Payload, delivered: set<string>, objects: map<string, Body>, prefix: string,
                       hash: Canonical -> string)
  {
    KeyOf(p, hash) in delivered || ObjectKey(prefix, p, KeyOf(p, hash)) in objects
  }

  /** Removing an object whose key was delivered loses no payload. */
  lemma DeliveredObjectMayGo(p: Payload, name: string, delivered: set<string>, objects: map<string, Body>,
                             prefix: string, hash: Canonical -> string)
    requires IsDigest(hash) && p.Valid() && Kept(p, delivered, objects, prefix, hash)
    requires name in objects && GenuineObject(name, objects[name], prefix, hash)
    requires objects[name].key in delivered
    ensures Kept(p, delivered, objects - {name}, prefix, hash)
  {
    if ObjectKey(prefix, p, KeyOf(p, hash)) == name {
      SameObjectSameKey(prefix, p, objects[name].payload, hash);
    }
  }

  /** The buffer is genuine, and no acknowledged payload is lost while delivery is direct and real. */
  ghost predicate SafeState(acknowledged: set<Payload>, delivered: set<string>, objects: map<string, Body>,
                            settings: Settings, hash: Canonical -> string)
  {
    && IsDigest(hash)
    && Genuine(objects, settings.prefix, hash)
    && (forall p :: p in acknowledged ==> p.Valid())
    && (DeliversDirectly(settings) ==> forall p :: p in acknowledged ==> Kept(p, delivered, objects, settings.prefix, hash))
  }

  lemma DeliveringIsSafe(acknowledged: set<Payload>, delivered: set<string>, delivered': set<string>,
                         objects: map<string, Body>, settings: Settings, hash: Canonical -> string)
    requires SafeState(acknowledged, delivered, objects, settings, hash) && delivered <= delivered'
    ensures SafeState(acknowledged, delivered', objects, settings, hash)
  {
  }

  lemma AcknowledgingIsSafe(acknowledged: set<Payload>, delivered: set<string>, objects: map<string, Body>,
                            settings: Settings, hash: Canonical -> string, p: Payload)
    requires SafeState(acknowledged, delivered, objects, settings, hash) && p.Valid()
    requires DeliversDirectly(settings) ==> Kept(p, delivered, objects, settings.prefix, hash)
    ensures SafeState(acknowledged + {p}, delivered, objects, settings, hash)
  {
  }

  lemma PuttingIsSafe(acknowledged: set<Payload>, delivered: set<string>, objects: map<string, Body>,
                      settings: Settings, hash: Canonical -> string, p: Payload, eventId: string, put: PutOutcome)
    requires SafeState(acknowledged, delivered, objects, settings, hash) && p.Valid() && eventId != ""
    ensures var key := KeyOf(p, hash);
            var after := AfterPut(objects, ObjectKey(settings.prefix, p, key), Failure(p, eventId, key), put);
            && SafeState(acknowledged, delivered, after, settings, hash)
            && (!put.Refused? ==> Kept(p, delivered, after, settings.prefix, hash))
  {
    assert |KeyOf(p, hash)| == 64;
  }

  lemma DeletingIsSafe(acknowledged: set<Payload>, delivered: set<string>, objects: map<string, Body>,
                       settings: Settings, hash: Canonical -> string, name: string, delete: DeleteOutcome)
    requires SafeState(acknowledged, delivered, objects, settings, hash)
    requires name in objects && objects[name].Failure?
    requires Sends(settings) ==> objects[name].key in delivered
    ensures SafeState(acknowledged, delivered, AfterDelete(objects, name, delete), settings, hash)
  {
    hide IsDigest, GenuineObject, Kept, Sends;
    forall p | DeliversDirectly(settings) && p in acknowledged && !delete.NotRemoved?
      ensures Kept(p, delivered, objects - {name}, settings.prefix, hash)
    {
      DeliveredObjectMayGo(p, name, delivered, objects, settings.prefix, hash);
    }
  }

  /** The counters obey the delivery laws, and every rejection total is the sum of its reasons. */
  ghost predicate Lawful(s: Snapshot, ingestCalls: nat, unbuffered: nat) {
    DeliveriesAddUp(s, ingestCalls, unbuffered) && ReasonsAgree(s)
  }

  /** What a listing of the bucket returned, page by page, and whether it broke off with an error. */
  datatype Listing = Listing(pages: seq<seq<string>>, broken: bool)

  function Flat(pages: seq<seq<string>>): seq<string> {
    if |pages| == 0 then [] else Flat(pages[..|pages| - 1]) + pages[|pages| - 1]
  }

  /** A replay in which every call works and the listing shows every object once. */
  ghost predicate Flawless(listing: Listing, gets: string -> bool, deletes: string -> DeleteOutcome,
                           attempts: nat -> Attempt, objects: map<string, Body>)
  {
    && !listing.broken
    && (forall name :: gets(name) && deletes(name).Removed?)
    && (forall i :: Succeeded(attempts(i)))
    && (forall name :: name in Flat(listing.pages) <==> name in objects)
    && (forall i, j :: 0 <= i < j < |Flat(listing.pages)| ==> Flat(listing.pages)[i] != Flat(listing.pages)[j])
  }

  /** One request to the ingest endpoint, by where it ends. */
  datatype Request =
    | TooLarge
    | Unreadable(missingHeader: bool)
    | Refused(reason: string)
    | Parsed(payload: Payload, header: string, storeWorks: bool, exporterWorks: bool, eventId: string)

  class Service {
    const settings: Settings
    const hash: Canonical -> string
    const random: nat -> real
    const amp: Amp
    const bucket: Bucket
    const counters: Counters
    var stored: seq<Payload>

    ghost var acknowledged: set<Payload>
    ghost var ingestCalls: nat
    ghost var unbuffered: nat
    ghost var finished: nat

    ghost predicate Safe()
      reads this, amp, bucket
    {
      amp.settings == settings && SafeState(acknowledged, amp.delivered, bucket.objects, settings, hash)
    }

    ghost predicate Conserved()
      reads this, counters
    {
      Lawful(counters.Snap(), ingestCalls, unbuffered)
    }

    ghost predicate Valid()
      reads this, amp, bucket, counters
    {
      Safe() && Conserved() && counters.accepted + counters.rejected == finished
    }

    constructor (settings: Settings, hash: Canonical -> string, random: nat -> real,
                 amp: Amp, bucket: Bucket, counters: Counters)
      requires IsDigest(hash) && amp.settings == settings && amp.delivered == {} && bucket.objects == map[] && counters.Snap() == ZERO
      ensures Valid() && stored == [] && acknowledged == {} && finished == 0
      ensures this.settings == settings && this.hash == hash
      ensures this.amp == amp && this.bucket == bucket && this.counters == counters
    {
      hide SafeState, Lawful, IsDigest;
      StartIsValid(settings, hash);
      this.settings, this.hash, this.random := settings, hash, random;
      this.amp, this.bucket, this.counters := amp, bucket, counters;
      stored, acknowledged, ingestCalls, unbuffered, finished := [], {}, 0, 0, 0;
    }

    /** The callbacks of one delivery. */
    method CountRetries(n: nat)
      modifies counters
      ensures counters.Snap() == old(counters.Snap()).(retries := old(counters.retries) + n)
    {
      for i := 0 to n
        invariant counters.Snap() == old(counters.Snap()).(retries := old(counters.retries) + i)
      {
        counters.RecordRetry();
      }
    }

    /** The calls of one delivery, with the number of callbacks. */
    method CallAmp(key: string) returns (success: bool, retries: nat)
      modifies amp
      ensures var d := DeliveryFrom(amp.Attempts(), settings.maxRetries, old(amp.calls));
              success == d.success && retries == d.retries
      ensures amp.calls == old(amp.calls) + retries + 1 && old(amp.delivered) <= amp.delivered
      ensures success && Sends(amp.settings) ==> key in amp.delivered
      ensures !Sends(amp.settings) ==> amp.delivered == old(amp.delivered)
    {
      hide DeliveryFrom, LastCall, Sends, IsTransient;
      var start := amp.calls;
      var stream := From(amp.Attempts(), start);
      var result, calls, callbacks, _ :=
        ExecuteWithRetry(stream, settings.maxRetries, settings.baseMs, settings.maxMs, random);
      assert stream(calls - 1) == amp.Attempts()(start + (calls - 1));
      DeliveryOfCalls(amp.Attempts(), settings.maxRetries, start, calls);
      amp.DeliverTimes(key, calls);
      return result.success, |callbacks|;
    }

    /** The delivery with retries, its counters included. */
    method DeliverWithRetry(key: string) returns (success: bool)
      modifies amp, counters, this`ingestCalls
      ensures var d := DeliveryFrom(amp.Attempts(), settings.maxRetries, old(amp.calls));
              && success == d.success && amp.calls == old(amp.calls) + d.retries + 1
              && ingestCalls == old(ingestCalls) + d.retries + 1
              && old(amp.delivered) <= amp.delivered
              && (success && Sends(amp.settings) ==> key in amp.delivered)
              && (!Sends(amp.settings) ==> amp.delivered == old(amp.delivered))
              && counters.Snap() == (var s := old(counters.Snap());
                   s.(attempts := s.attempts + 1, retries := s.retries + d.retries))
    {
      counters.RecordAttempt();
      var retries;
      success, retries := CallAmp(key);
      ingestCalls := ingestCalls + retries + 1;
      CountRetries(retries);
    }

    /** ingest; exporterWorks tells whether the exporter takes the payload once it is stored. */
    method Ingest(p: Payload, header: string, storeWorks: bool, exporterWorks: bool, eventId: string)
      returns (r: IngestResult)
      requires Safe() && Conserved() && p.Valid() && eventId != ""
      modifies this`stored, this`acknowledged, this`ingestCalls, this`unbuffered, amp, bucket, counters
      ensures Safe() && Conserved()
      ensures acknowledged == old(acknowledged) + if Acknowledges(r) then {p} else {}
      ensures counters.accepted == old(counters.accepted) && counters.rejected == old(counters.rejected)
      ensures r.Mismatch? <==> header != p.tenant
      ensures r.StorageError? <==> header == p.tenant && !storeWorks
      ensures r.ExporterError? <==> header == p.tenant && storeWorks && !exporterWorks
      ensures r.Mismatch? || r.StorageError? || r.ExporterError? ==>
                unchanged(amp) && unchanged(bucket) && unchanged(counters)
      ensures stored == old(stored) + if r.Mismatch? || r.StorageError? then [] else [p]
      ensures header == p.tenant && storeWorks && exporterWorks && !settings.ampEnabled ==>
                r.Accepted? && unchanged(amp) && unchanged(bucket) && unchanged(counters)
      ensures header == p.tenant && storeWorks && exporterWorks && settings.ampEnabled ==> Delivered(p, eventId, r)
    {
      hide SafeState, Lawful, KeyOf, DeliveryFrom;
      if header != p.tenant {
        return Mismatch;
      }
      if !storeWorks {
        return StorageError;
      }
      stored := stored + [p];
      if !exporterWorks {
        return ExporterError;
      }
      if settings.ampEnabled {
        r := DeliverOrBuffer(p, eventId);
      } else {
        AcknowledgingIsSafe(acknowledged, amp.delivered, bucket.objects, settings, hash, p);
        acknowledged := acknowledged + {p};
        r := Accepted;
      }
    }

    /** What one ingest with direct delivery on did to AMP, the counters and the bucket. */
    twostate predicate Delivered(p: Payload, eventId: string, r: IngestResult)
      reads this, amp, bucket, counters
    {
      var d := DeliveryFrom(amp.Attempts(), settings.maxRetries, old(amp.calls));
      var put := bucket.puts(old(bucket.putCalls));
      && r == ResultAfter(d, settings.bufferEnabled, put)
      && (if Sends(settings) then d.success ==> KeyOf(p, hash) in amp.delivered else amp.delivered == old(amp.delivered))
      && amp.calls == old(amp.calls) + d.retries + 1
      && counters.Snap() == CountDelivery(old(counters.Snap()), d, settings.bufferEnabled, put)
      && bucket.objects == (if d.success || !settings.bufferEnabled then old(bucket.objects)
           else AfterPut(old(bucket.objects), ObjectKey(settings.prefix, p, KeyOf(p, hash)),
                         Failure(p, eventId, KeyOf(p, hash)), put))
    }

    /** Steps 2 and 3 of ingest, with direct delivery on. */
    method DeliverOrBuffer(p: Payload, eventId: string) returns (r: IngestResult)
      requires Safe() && Conserved() && p.Valid() && eventId != "" && settings.ampEnabled
      modifies this`acknowledged, this`ingestCalls, this`unbuffered, amp, bucket, counters
      ensures Safe() && Conserved()
      ensures acknowledged == old(acknowledged) + if Acknowledges(r) then {p} else {}
      ensures r.Accepted? || r.Buffered? || r.BothFailed?
      ensures counters.accepted == old(counters.accepted) && counters.rejected == old(counters.rejected)
      ensures Delivered(p, eventId, r)
    {
      hide SafeState, Lawful, DeliveryFrom, Sends, Amp.Attempts;
      var key := KeyOf(p, hash);
      ghost var d := DeliveryFrom(amp.Attempts(), settings.maxRetries, amp.calls);
      ghost var put := bucket.puts(bucket.putCalls);
      CountingIsLawful(counters.Snap(), d, settings.bufferEnabled, put, ingestCalls, unbuffered);
      var success := DeliverWithRetry(key);
      DeliveringIsSafe(acknowledged, old(amp.delivered), amp.delivered, bucket.objects, settings, hash);
      if success {
        AcknowledgingIsSafe(acknowledged, amp.delivered, bucket.objects, settings, hash, p);
        acknowledged := acknowledged + {p};
        return Accepted;
      }
      counters.RecordFailed();
      if !settings.bufferEnabled {
        unbuffered := unbuffered + 1;
        return BothFailed;
      }
      PuttingIsSafe(acknowledged, amp.delivered, bucket.objects, settings, hash, p, eventId, put);
      var name := bucket.Write(settings.prefix, p, eventId, key);
      hide KeyOf, Kept;
      if name.Some? {
        counters.RecordBufferWrite();
        counters.RecordBuffered();
        AcknowledgingIsSafe(acknowledged, amp.delivered, bucket.objects, settings, hash, p);
        acknowledged := acknowledged + {p};
        return Buffered;
      }
      counters.RecordBufferFailed();
      return BothFailed;
    }

    /** _replay_s3_object. */
    method ReplayObject(name: string, getWorks: bool, delete: DeleteOutcome) returns (done: bool)
      requires Safe()
      modifies amp, bucket`objects
      ensures Safe()
      ensures old(amp.delivered) <= amp.delivered
      ensures !Sends(settings) ==> amp.delivered == old(amp.delivered)
      ensures var objects := old(bucket.objects);
              if getWorks && name in objects && IsReplayable(objects[name]) && Succeeded(amp.Attempts()(old(amp.calls)))
              then && done == delete.Removed?
                   && (Sends(settings) ==> objects[name].key in amp.delivered)
                   && bucket.objects == AfterDelete(objects, name, delete)
              else !done && bucket.objects == objects
    {
      hide SafeState, Sends, Amp.Attempts;
      if !getWorks || name !in bucket.objects || !IsReplayable(bucket.objects[name]) {
        return false;
      }
      var body := bucket.objects[name];
      var a := amp.Deliver(body.key);
      DeliveringIsSafe(acknowledged, old(amp.delivered), amp.delivered, bucket.objects, settings, hash);
      if !Succeeded(a) {
        return false;
      }
      DeletingIsSafe(acknowledged, amp.delivered, bucket.objects, settings, hash, name, delete);
      done := bucket.Delete(name, delete);
    }

    /** The objects of page i of a listing, on top of so many replayed before it. */
    method ReplayPage(listing: Listing, i: nat, gets: string -> bool, deletes: string -> DeleteOutcome, before: nat,
                      ghost start: map<string, Body>)
      returns (replayed: nat)
      requires Safe() && i < |listing.pages| && Genuine(start, settings.prefix, hash)
      requires Drained(start, bucket.objects, amp.delivered, Sends(settings))
      requires Flawless(listing, gets, deletes, amp.Attempts(), start) ==>
                 Progress(start, bucket.objects, Flat(listing.pages[..i]), before)
      modifies amp, bucket`objects
      ensures Safe()
      ensures Drained(start, bucket.objects, amp.delivered, Sends(settings))
      ensures !Sends(settings) ==> amp.delivered == old(amp.delivered)
      ensures Flawless(listing, gets, deletes, amp.Attempts(), start) ==>
                Progress(start, bucket.objects, Flat(listing.pages[..i]) + listing.pages[i], replayed)
    {
      hide SafeState, Genuine, Flawless, Drained, Progress, Sends, Amp.Attempts, AfterDelete, EndsWith, Succeeded, Flat;
      ghost var sends := Sends(settings);
      ghost var flawless := Flawless(listing, gets, deletes, amp.Attempts(), start);
      ghost var front := Flat(listing.pages[..i]);
      replayed := before;
      assert front + listing.pages[i][..0] == front;
      for k := 0 to |listing.pages[i]|
        invariant Safe()
        invariant Drained(start, bucket.objects, amp.delivered, sends)
        invariant !sends ==> amp.delivered == old(amp.delivered)
        invariant flawless ==> Progress(start, bucket.objects, front + listing.pages[i][..k], replayed)
      {
        var name := listing.pages[i][k];
        ghost var seen := front + listing.pages[i][..k];
        assert front + listing.pages[i][..k + 1] == seen + [name];
        ghost var objects, delivered, count := bucket.objects, amp.delivered, replayed;
        SameObjects(start, objects, delivered, sends);
        if flawless {
          PageEntry(listing.pages, i, k);
          NextWillSucceed(listing, gets, deletes, amp.Attempts(), start, objects, seen, replayed, name, amp.calls,
                          settings.prefix, hash);
        }
        if EndsWith(name, SUFFIX) {
          var done := ReplayObject(name, gets(name), deletes(name));
          if done {
            replayed := replayed + 1;
          }
          DrainedFurther(start, objects, delivered, sends, name, deletes(name), bucket.objects, amp.delivered);
        }
        if flawless {
          OneMoreReplayed(start, objects, seen, count, name, deletes(name), bucket.objects);
        }
      }
      assert listing.pages[i][..|listing.pages[i]|] == listing.pages[i];
    }

    /** replay_failures: the number of objects replayed, 0 when the scan breaks off. */
    method ReplayFailures(listing: Listing, gets: string -> bool, deletes: string -> DeleteOutcome) returns (replayed: nat)
      requires Safe()
      modifies amp, bucket`objects
      ensures Safe()
      ensures Drained(old(bucket.objects), bucket.objects, amp.delivered, Sends(settings))
      ensures !Sends(settings) ==> amp.delivered == old(amp.delivered)
      ensures old(Flawless(listing, gets, deletes, amp.Attempts(), bucket.objects)) ==>
                bucket.objects == map[] && replayed == |old(bucket.objects)|
    {
      hide SafeState, Genuine, Flawless, Drained, Progress, Sends, Amp.Attempts, Flat;
      replayed := 0;
      ghost var start := bucket.objects;
      ghost var flawless := Flawless(listing, gets, deletes, amp.Attempts(), start);
      SafeIsGenuine(acknowledged, amp.delivered, start, settings, hash);
      NothingReplayedYet(start, amp.delivered, Sends(settings));
      NothingListedYet(listing.pages);
      for i := 0 to |listing.pages|
        invariant Safe()
        invariant Drained(start, bucket.objects, amp.delivered, Sends(settings))
        invariant !Sends(settings) ==> amp.delivered == old(amp.delivered)
        invariant flawless ==> Progress(start, bucket.objects, Flat(listing.pages[..i]), replayed)
      {
        FlatStep(listing.pages, i);
        replayed := ReplayPage(listing, i, gets, deletes, replayed, start);
      }
      assert listing.pages[..|listing.pages|] == listing.pages;
      if flawless {
        EverythingSeen(listing, gets, deletes, amp.Attempts(), start, bucket.objects, replayed);
      }
      if listing.broken {
        return 0;
      }
    }

    method Accept()
      requires Conserved()
      modifies counters
      ensures Conserved()
      ensures counters.Snap() == old(counters.Snap()).(accepted := old(counters.accepted) + 1)
      ensures counters.rejected == old(counters.rejected) && counters.accepted == old(counters.accepted) + 1
    {
      counters.RecordAccepted();
      SameReasons(old(counters.Snap()), counters.Snap());
    }

    method Reject(reason: string)
      requires Conserved()
      modifies counters
      ensures Conserved()
      ensures counters.Snap() == Routed(old(counters.Snap()), reason)
      ensures counters.rejected == old(counters.rejected) + 1 && counters.accepted == old(counters.accepted)
    {
      hide ReasonsAgree;
      counters.RouteRejection(reason);
      RoutedCounts(old(counters.Snap()), reason);
    }

    /** A rejection recorded outside the dispatching handler. */
    method RejectPlainly(reason: string)
      requires Conserved() && IsPlain(reason)
      modifies counters
      ensures Conserved()
      ensures counters.Snap() == Routed(old(counters.Snap()), reason)
      ensures counters.rejected == old(counters.rejected) + 1 && counters.accepted == old(counters.accepted)
    {
      hide ReasonsAgree, IsPlain;
      PlainRejection(counters.Snap(), reason);
      RoutingKeepsAgreement(counters.Snap(), reason);
      counters.RecordRejected(reason);
      RoutedCounts(old(counters.Snap()), reason);
    }

    /**
     The route and the exception handlers, down to the status code: every request is counted once,
     as accepted exactly when its payload was acknowledged, and otherwise as rejected.
     */
    method Handle(request: Request) returns (status: int)
      requires Valid()
      requires request.Parsed? ==> request.payload.Valid() && request.eventId != ""
      modifies this`stored, this`acknowledged, this`ingestCalls, this`unbuffered, this`finished, amp, bucket, counters
      ensures Valid() && finished == old(finished) + 1
      ensures counters.accepted == old(counters.accepted) + if IsAck(status) then 1 else 0
      ensures counters.rejected == old(counters.rejected) + if IsAck(status) then 0 else 1
      ensures request.TooLarge? ==> status == 413 && counters.Snap() == Routed(old(counters.Snap()), "payload_too_large")
      ensures request.Unreadable? ==>
                && status == 400
                && counters.Snap() == Routed(old(counters.Snap()), if request.missingHeader then "missing_tenant_header" else "bad_request")
      ensures request.Refused? ==> status == 400 && counters.Snap() == Routed(old(counters.Snap()), request.reason)
      ensures request.Parsed? ==>
                Served(request.payload, request.header, request.storeWorks, request.exporterWorks, status)
      ensures IsAck(status) ==> request.Parsed? && acknowledged == old(acknowledged) + {request.payload}
      ensures !IsAck(status) ==> acknowledged == old(acknowledged)
    {
      hide IsPlain, SafeState, Lawful, Routed;
      FrameworkReasonsArePlain();
      match request {
        case TooLarge =>
          RejectPlainly("payload_too_large");
          status := 413;
        case Unreadable(missing) =>
          RejectPlainly(if missing then "missing_tenant_header" else "bad_request");
          status := 400;
        case Refused(reason) =>
          Reject(reason);
          status := 400;
        case Parsed(payload, header, storeWorks, exporterWorks, eventId) =>
          status := HandleParsed(payload, header, storeWorks, exporterWorks, eventId);
      }
      finished := finished + 1;
    }

    /** The answer to a readable request, and how it is counted. */
    twostate predicate Served(p: Payload, header: string, storeWorks: bool, exporterWorks: bool, status: int)
      reads this, amp, bucket, counters
    {
      var before, after := old(counters.Snap()), counters.Snap();
      if header != p.tenant then status == 400 && after == Routed(before, "tenant_mismatch")
      else if !storeWorks || !exporterWorks then status == 500 && after == Routed(before, "internal_error")
      else if !settings.ampEnabled then status == 201 && after == before.(accepted := before.accepted + 1)
      else
        var d, put := DeliveryFrom(amp.Attempts(), settings.maxRetries, old(amp.calls)), bucket.puts(old(bucket.putCalls));
        var counted := CountDelivery(before, d, settings.bufferEnabled, put);
        if d.success then status == 201 && after == counted.(accepted := counted.accepted + 1)
        else if settings.bufferEnabled && put.Stored? then status == 202 && after == counted.(accepted := counted.accepted + 1)
        else status == 503 && after == Routed(counted, "amp_and_s3_failed")
    }

    method HandleParsed(p: Payload, header: string, storeWorks: bool, exporterWorks: bool, eventId: string)
      returns (status: int)
      requires Safe() && Conserved() && p.Valid() && eventId != ""
      modifies this`stored, this`acknowledged, this`ingestCalls, this`unbuffered, amp, bucket, counters
      ensures Served(p, header, storeWorks, exporterWorks, status)
      ensures Safe() && Conserved()
      ensures counters.accepted == old(counters.accepted) + if IsAck(status) then 1 else 0
      ensures counters.rejected == old(counters.rejected) + if IsAck(status) then 0 else 1
      ensures acknowledged == old(acknowledged) + if IsAck(status) then {p} else {}
    {
      hide IsPlain, SafeState, Lawful, Routed, DeliveryFrom, CountDelivery, KeyOf, AfterPut, Sends;
      FrameworkReasonsArePlain();
      if header != p.tenant {
        Reject("tenant_mismatch");
        return 400;
      }
      var r := Ingest(p, header, storeWorks, exporterWorks, eventId);
      if r.Accepted? || r.Buffered? {
        Accept();
        return if r.Accepted? then 201 else 202;
      }
      if r.StorageError? || r.ExporterError? {
        RejectPlainly("internal_error");
        return 500;
      }
      Reject("amp_and_s3_failed");
      return 503;
    }
  }

  /** create_app: a service on fresh stores and counters keeps every promise from the start. */
  method CreateApp(settings: Settings, hash: Canonical -> string, random: nat -> real, forced: nat -> bool,
                   posts: nat -> Attempt, arrives: nat -> bool, puts: nat -> PutOutcome)
    returns (service: Service)
    requires IsDigest(hash)
    ensures fresh(service) && fresh(service.amp) && fresh(service.bucket) && fresh(service.counters)
    ensures service.Valid() && service.settings == settings && service.hash == hash
    ensures service.acknowledged == {} && service.bucket.objects == map[] && service.finished == 0
  {
    var amp := new Amp(settings, forced, posts, arrives);
    var bucket := new Bucket(puts);
    var counters := new Counters();
    service := new Service(settings, hash, random, amp, bucket, counters);
  }

  predicate IsAck(status: int) { status == 201 || status == 202 }

  lemma SameReasons(s: Snapshot, t: Snapshot)
    requires t == s.(accepted := t.accepted)
    ensures ReasonsAgree(s) ==> ReasonsAgree(t)
  {
    forall r ensures CountOf(t, r) == CountOf(s, r) {
      SameReasonsSameCount(s, t, r);
    }
  }

  lemma RoutedCounts(s: Snapshot, reason: string)
    ensures var t := Routed(s, reason);
            && t.attempts == s.attempts && t.retries == s.retries && t.failed == s.failed
            && t.bufferWrites == s.bufferWrites && t.bufferFailed == s.bufferFailed && t.buffered == s.buffered
  {
  }

  lemma StartIsValid(settings: Settings, hash: Canonical -> string)
    requires IsDigest(hash)
    ensures SafeState({}, {}, map[], settings, hash) && Lawful(ZERO, 0, 0)
  {
    ZeroAgrees();
  }

  lemma CountingIsLawful(s: Snapshot, d: Delivery, bufferEnabled: bool, put: PutOutcome, ingestCalls: nat, unbuffered: nat)
    requires Lawful(s, ingestCalls, unbuffered)
    ensures Lawful(CountDelivery(s, d, bufferEnabled, put), ingestCalls + d.retries + 1,
                   unbuffered + if !d.success && !bufferEnabled then 1 else 0)
  {
    CountingKeepsLaws(s, d, bufferEnabled, put, ingestCalls, unbuffered);
  }

  // ---- The bookkeeping of a replay ----

  /** The bucket has only shrunk, and what is gone was delivered, unless the adapter is a stub. */
  ghost predicate Drained(start: map<string, Body>, objects: map<string, Body>, delivered: set<string>, sends: bool) {
    && (forall name :: name in objects ==> name in start && objects[name] == start[name])
    && (forall name :: name in start && name !in objects ==>
          start[name].Failure? && (sends ==> start[name].key in delivered))
  }

  /** In a flawless replay, exactly the names seen so far are gone. */
  ghost predicate Progress(start: map<string, Body>, objects: map<string, Body>, seen: seq<string>, replayed: nat) {
    && (forall name :: name in objects <==> name in start && name !in seen)
    && replayed == |seen|
  }

  lemma DrainedFurther(start: map<string, Body>, objects: map<string, Body>, delivered: set<string>, sends: bool,
                       name: string, delete: DeleteOutcome, objects': map<string, Body>, delivered': set<string>)
    requires Drained(start, objects, delivered, sends) && delivered <= delivered'
    requires objects' == objects
          || (name in objects && objects[name].Failure? && (sends ==> objects[name].key in delivered')
              && objects' == AfterDelete(objects, name, delete))
    ensures Drained(start, objects', delivered', sends)
  {
  }

  lemma {:induction false} PageEntry(pages: seq<seq<string>>, i: nat, k: nat)
    requires i < |pages| && k < |pages[i]|
    ensures Flat(pages[..i]) + pages[i][..k] + [pages[i][k]] <= Flat(pages)
  {
    var n := |pages| - 1;
    if i < n {
      PageEntry(pages[..n], i, k);
      assert pages[..n][..i] == pages[..i];
    } else {
      assert pages[..n] == pages[..i];
      assert pages[i] == pages[i][..k] + [pages[i][k]] + pages[i][k + 1..];
    }
  }

  lemma SafeIsGenuine(acknowledged: set<Payload>, delivered: set<string>, objects: map<string, Body>,
                      settings: Settings, hash: Canonical -> string)
    requires SafeState(acknowledged, delivered, objects, settings, hash)
    ensures Genuine(objects, settings.prefix, hash)
  {
  }

  lemma SameObjects(start: map<string, Body>, objects: map<string, Body>, delivered: set<string>, sends: bool)
    requires Drained(start, objects, delivered, sends)
    ensures forall n :: n in objects ==> n in start && objects[n] == start[n]
  {
  }

  lemma NothingReplayedYet(start: map<string, Body>, delivered: set<string>, sends: bool)
    ensures Drained(start, start, delivered, sends) && Progress(start, start, [], 0)
  {
  }

  lemma FlatStep(pages: seq<seq<string>>, i: nat)
    requires i < |pages|
    ensures Flat(pages[..i + 1]) == Flat(pages[..i]) + pages[i]
  {
    assert pages[..i + 1][..i] == pages[..i];
  }

  lemma NothingListedYet(pages: seq<seq<string>>)
    ensures Flat(pages[..0]) == []
  {
  }

  lemma NextWillSucceed(listing: Listing, gets: string -> bool, deletes: string -> DeleteOutcome,
                        attempts: nat -> Attempt, start: map<string, Body>, objects: map<string, Body>,
                        seen: seq<string>, replayed: nat, name: string, call: nat,
                        prefix: string, hash: Canonical -> string)
    requires Flawless(listing, gets, deletes, attempts, start) && Genuine(start, prefix, hash)
    requires forall n :: n in objects ==> n in start && objects[n] == start[n]
    requires Progress(start, objects, seen, replayed) && seen + [name] <= Flat(listing.pages)
    ensures EndsWith(name, SUFFIX) && gets(name) && deletes(name).Removed? && Succeeded(attempts(call))
    ensures name in start && name in objects && name !in seen && IsReplayable(start[name])
  {
    var all := Flat(listing.pages);
    assert all[|seen|] == name;
    forall i | 0 <= i < |seen| ensures seen[i] != name {
      assert all[i] == seen[i];
    }
    assert GenuineObject(name, start[name], prefix, hash);
    ObjectKeyIsScanned(prefix, start[name].payload, start[name].key);
  }

  lemma OneMoreReplayed(start: map<string, Body>, objects: map<string, Body>, seen: seq<string>, replayed: nat,
                        name: string, delete: DeleteOutcome, objects': map<string, Body>)
    requires Progress(start, objects, seen, replayed) && delete.Removed? && objects' == AfterDelete(objects, name, delete)
    ensures Progress(start, objects', seen + [name], replayed + 1)
  {
  }

  lemma EverythingSeen(listing: Listing, gets: string -> bool, deletes: string -> DeleteOutcome,
                       attempts: nat -> Attempt, start: map<string, Body>, objects: map<string, Body>, replayed: nat)
    requires Flawless(listing, gets, deletes, attempts, start)
    requires Progress(start, objects, Flat(listing.pages), replayed)
    ensures objects == map[] && replayed == |start| && !listing.broken
  {
    assert forall n :: n !in objects;
    DistinctLength(Flat(listing.pages), start.Keys);
  }

  lemma {:induction false} DistinctLength(all: seq<string>, names: set<string>)
    requires forall i, j :: 0 <= i < j < |all| ==> all[i] != all[j]
    requires forall n :: n in all <==> n in names
    ensures |all| == |names|
  {
    if |all| == 0 {
      assert names == {};
    } else {
      var k := |all| - 1;
      assert all == all[..k] + [all[k]];
      forall n ensures n in all[..k] <==> n in names - {all[k]} {
      }
      DistinctLength(all[..k], names - {all[k]});
    }
  }
}
