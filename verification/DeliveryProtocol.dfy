/**
 The delivery path of src/telemetry_api as a step machine: any number of ingests and replays run at
 once, one outside call per step, and each can crash between any two steps.  A call may take effect
 and still report an error; a call of the adapter's stub reports success and has no effect.  A run
 starts with whatever failures the buffer held before.
 */
module DeliveryProtocol {
  import opened Retry
  import opened Idempotency
  import opened FailureBuffer
  import opened TelemetryService

  datatype Config = Config(settings: Settings, hash: Canonical -> string)

  datatype Thread =
    | Delivering(payload: Payload, calls: nat)   // direct delivery, after so many failed calls
    | Ready(payload: Payload)                    // about to answer "accepted"
    | ToBuffer(payload: Payload)                 // direct delivery has failed
    | InBuffer(payload: Payload)                 // about to answer "buffered"
    | Got(name: string, body: Body)              // a replay that has read an object
    | Sent(name: string, body: Body)             // a replay that has delivered it

  datatype State = State(
    delivered: set<string>,
    objects: map<string, Body>,
    acknowledged: set<Payload>,
    threads: map<nat, Thread>)

  const START := State({}, map[], {}, map[])

  /** A service that starts on a buffer with failures of earlier times. */
  ghost predicate Starts(c: Config, s: State) {
    s == START.(objects := s.objects) && Genuine(s.objects, c.settings.prefix, c.hash)
  }

  datatype Step =
    | Accept(thread: nat, payload: Payload)
    | Call(thread: nat, arrives: bool, succeeds: bool, final: bool)
    | Put(thread: nat, eventId: string, put: PutOutcome)
    | Acknowledge(thread: nat)
    | Get(thread: nat, name: string)
    | Redeliver(thread: nat, arrives: bool, succeeds: bool)
    | Remove(thread: nat, delete: DeleteOutcome)
    | Crash(thread: nat)

  predicate Running(s: State, t: nat) { t in s.threads }

  /** A success has arrived if the adapter posts; the stub sends nothing, and fails only when forced to. */
  predicate Possible(c: Config, arrives: bool, succeeds: bool, final: bool) {
    if Sends(c.settings) then succeeds ==> arrives else !arrives && !final
  }

  ghost predicate Enabled(c: Config, s: State, step: Step) {
    match step
    case Accept(t, p) => t !in s.threads && p.Valid()
    case Call(t, arrives, succeeds, final) =>
      Running(s, t) && s.threads[t].Delivering? && Possible(c, arrives, succeeds, final)
    case Put(t, e, _) => Running(s, t) && s.threads[t].ToBuffer? && c.settings.bufferEnabled && e != ""
    case Acknowledge(t) => Running(s, t) && (s.threads[t].Ready? || s.threads[t].InBuffer?)
    case Get(t, name) => t !in s.threads && name in s.objects && IsReplayable(s.objects[name])
    case Redeliver(t, arrives, succeeds) => Running(s, t) && s.threads[t].Got? && Possible(c, arrives, succeeds, false)
    case Remove(t, _) => Running(s, t) && s.threads[t].Sent?
    case Crash(t) => Running(s, t)
  }

  function Arrive(delivered: set<string>, key: string, arrives: bool): set<string> {
    if arrives then delivered + {key} else delivered
  }

  /** What the ingest does after a failed call: give up, or try again. */
  function AfterFailure(c: Config, p: Payload, calls: nat, final: bool): Thread {
    if final || calls + 1 > c.settings.maxRetries then ToBuffer(p) else Delivering(p, calls + 1)
  }

  ghost function After(c: Config, s: State, step: Step): State
    requires Enabled(c, s, step)
  {
    match step
    case Accept(t, p) =>
      s.(threads := s.threads[t := if c.settings.ampEnabled then Delivering(p, 0) else Ready(p)])
    case Call(t, arrives, succeeds, final) =>
      var p := s.threads[t].payload;
      s.(delivered := Arrive(s.delivered, KeyOf(p, c.hash), arrives),
         threads := s.threads[t := if succeeds then Ready(p) else AfterFailure(c, p, s.threads[t].calls, final)])
    case Put(t, e, put) =>
      var p := s.threads[t].payload;
      var key := KeyOf(p, c.hash);
      s.(objects := AfterPut(s.objects, ObjectKey(c.settings.prefix, p, key), Failure(p, e, key), put),
         threads := if put.Stored? then s.threads[t := InBuffer(p)] else s.threads - {t})
    case Acknowledge(t) =>
      s.(acknowledged := s.acknowledged + {s.threads[t].payload}, threads := s.threads - {t})
    case Get(t, name) => s.(threads := s.threads[t := Got(name, s.objects[name])])
    case Redeliver(t, arrives, succeeds) =>
      var g := s.threads[t];
      s.(delivered := if g.body.Failure? then Arrive(s.delivered, g.body.key, arrives) else s.delivered,
         threads := if succeeds then s.threads[t := Sent(g.name, g.body)] else s.threads - {t})
    case Remove(t, delete) =>
      s.(objects := AfterDelete(s.objects, s.threads[t].name, delete), threads := s.threads - {t})
    case Crash(t) => s.(threads := s.threads - {t})
  }

  // ---- The invariant ----

  ghost predicate ThreadIsSound(c: Config, delivered: set<string>, objects: map<string, Body>, t: Thread) {
    match t
    case Delivering(p, n) => p.Valid() && n <= (if c.settings.maxRetries < 0 then 0 else c.settings.maxRetries)
    case Ready(p) => p.Valid() && (DeliversDirectly(c.settings) ==> KeyOf(p, c.hash) in delivered)
    case ToBuffer(p) => p.Valid()
    case InBuffer(p) => p.Valid() && (Sends(c.settings) ==> Kept(p, delivered, objects, c.settings.prefix, c.hash))
    case Got(name, b) => GenuineObject(name, b, c.settings.prefix, c.hash)
    case Sent(name, b) =>
      GenuineObject(name, b, c.settings.prefix, c.hash) && (Sends(c.settings) ==> b.key in delivered)
  }

  ghost predicate Inv(c: Config, s: State) {
    && SafeState(s.acknowledged, s.delivered, s.objects, c.settings, c.hash)
    && forall t :: t in s.threads ==> ThreadIsSound(c, s.delivered, s.objects, s.threads[t])
  }

  /** Deliveries only help. */
  lemma DeliveryKeepsThreads(c: Config, delivered: set<string>, delivered': set<string>, objects: map<string, Body>, t: Thread)
    requires ThreadIsSound(c, delivered, objects, t) && delivered <= delivered'
    ensures ThreadIsSound(c, delivered', objects, t)
  {
  }

  /** More objects only help. */
  lemma PutKeepsThreads(c: Config, delivered: set<string>, objects: map<string, Body>, name: string, b: Body,
                        put: PutOutcome, t: Thread)
    requires ThreadIsSound(c, delivered, objects, t)
    ensures ThreadIsSound(c, delivered, AfterPut(objects, name, b, put), t)
  {
  }

  /** Two genuine objects of the same name are about the same key. */
  lemma SameNameSameKey(c: Config, name: string, a: Body, b: Body)
    requires IsDigest(c.hash)
    requires GenuineObject(name, a, c.settings.prefix, c.hash) && GenuineObject(name, b, c.settings.prefix, c.hash)
    ensures a.key == b.key
  {
    SameObjectSameKey(c.settings.prefix, a.payload, b.payload, c.hash);
  }

  /** An object that disappears is one whose key has been delivered, even if it was written anew meanwhile. */
  lemma RemovalKeepsThreads(c: Config, delivered: set<string>, objects: map<string, Body>, name: string,
                            delete: DeleteOutcome, t: Thread)
    requires IsDigest(c.hash) && ThreadIsSound(c, delivered, objects, t)
    requires name in objects ==>
               && GenuineObject(name, objects[name], c.settings.prefix, c.hash)
               && (Sends(c.settings) ==> objects[name].key in delivered)
    ensures ThreadIsSound(c, delivered, AfterDelete(objects, name, delete), t)
  {
    if t.InBuffer? && !delete.NotRemoved? && Sends(c.settings) {
      if name in objects {
        DeliveredObjectMayGo(t.payload, name, delivered, objects, c.settings.prefix, c.hash);
      } else {
        assert objects - {name} == objects;
      }
    }
  }

  /** The object a replay that posts is about to delete was delivered, whoever wrote it last. */
  lemma RemovedWasDelivered(c: Config, s: State, t: nat)
    requires Inv(c, s) && t in s.threads && s.threads[t].Sent?
    ensures s.threads[t].name in s.objects ==>
              && GenuineObject(s.threads[t].name, s.objects[s.threads[t].name], c.settings.prefix, c.hash)
              && (Sends(c.settings) ==> s.objects[s.threads[t].name].key in s.delivered)
  {
    var name := s.threads[t].name;
    assert ThreadIsSound(c, s.delivered, s.objects, s.threads[t]);
    if name in s.objects {
      SameNameSameKey(c, name, s.threads[t].body, s.objects[name]);
    }
  }

  lemma StepKeepsInv(c: Config, s: State, step: Step)
    requires Inv(c, s) && Enabled(c, s, step)
    ensures Inv(c, After(c, s, step))
  {
    hide SafeState, ThreadIsSound;
    StepIsSafe(c, s, step);
    forall u | u in After(c, s, step).threads
      ensures ThreadIsSound(c, After(c, s, step).delivered, After(c, s, step).objects, After(c, s, step).threads[u])
    {
      StepKeepsThread(c, s, step, u);
    }
  }

  lemma StepIsSafe(c: Config, s: State, step: Step)
    requires Inv(c, s) && Enabled(c, s, step)
    ensures var n := After(c, s, step); SafeState(n.acknowledged, n.delivered, n.objects, c.settings, c.hash)
  {
    hide SafeState, ThreadIsSound;
    match step
    case Call(t, _, _, _) =>
      DeliveringIsSafe(s.acknowledged, s.delivered, After(c, s, step).delivered, s.objects, c.settings, c.hash);
    case Redeliver(t, _, _) =>
      DeliveringIsSafe(s.acknowledged, s.delivered, After(c, s, step).delivered, s.objects, c.settings, c.hash);
    case Put(t, e, put) =>
      ThreadPayloadIsValid(c, s, t);
      PuttingIsSafe(s.acknowledged, s.delivered, s.objects, c.settings, c.hash, s.threads[t].payload, e, put);
    case Acknowledge(t) =>
      AcknowledgedIsKept(c, s, t);
      AcknowledgingIsSafe(s.acknowledged, s.delivered, s.objects, c.settings, c.hash, s.threads[t].payload);
    case Remove(t, delete) =>
      RemovedWasDelivered(c, s, t);
      var name := s.threads[t].name;
      if name in s.objects {
        DeletingIsSafe(s.acknowledged, s.delivered, s.objects, c.settings, c.hash, name, delete);
      } else {
        assert s.objects - {name} == s.objects;
      }
    case _ =>
  }

  lemma ThreadPayloadIsValid(c: Config, s: State, t: nat)
    requires Inv(c, s) && t in s.threads && !s.threads[t].Got? && !s.threads[t].Sent?
    ensures s.threads[t].payload.Valid()
  {
    assert ThreadIsSound(c, s.delivered, s.objects, s.threads[t]);
  }

  lemma AcknowledgedIsKept(c: Config, s: State, t: nat)
    requires Inv(c, s) && t in s.threads && (s.threads[t].Ready? || s.threads[t].InBuffer?)
    ensures s.threads[t].payload.Valid()
    ensures DeliversDirectly(c.settings) ==> Kept(s.threads[t].payload, s.delivered, s.objects, c.settings.prefix, c.hash)
  {
    assert ThreadIsSound(c, s.delivered, s.objects, s.threads[t]);
  }

  lemma StepKeepsThread(c: Config, s: State, step: Step, u: nat)
    requires Inv(c, s) && Enabled(c, s, step) && u in After(c, s, step).threads
    ensures var n := After(c, s, step); ThreadIsSound(c, n.delivered, n.objects, n.threads[u])
  {
    if u != step.thread {
      OtherThreadStaysSound(c, s, step, u);
    } else {
      OwnThreadStaysSound(c, s, step);
    }
  }

  lemma OtherThreadStaysSound(c: Config, s: State, step: Step, u: nat)
    requires Inv(c, s) && Enabled(c, s, step) && u in After(c, s, step).threads && u != step.thread
    ensures var n := After(c, s, step); ThreadIsSound(c, n.delivered, n.objects, n.threads[u])
  {
    var n := After(c, s, step);
    assert u in s.threads && n.threads[u] == s.threads[u];
    assert ThreadIsSound(c, s.delivered, s.objects, s.threads[u]);
    SafeStateHasDigest(c, s);
    hide Inv, SafeState, ThreadIsSound, IsDigest;
    match step
    case Call(t, _, _, _) => DeliveryKeepsThreads(c, s.delivered, n.delivered, s.objects, s.threads[u]);
    case Redeliver(t, _, _) => DeliveryKeepsThreads(c, s.delivered, n.delivered, s.objects, s.threads[u]);
    case Put(t, e, put) =>
      var p := s.threads[t].payload;
      var key := KeyOf(p, c.hash);
      PutKeepsThreads(c, s.delivered, s.objects, ObjectKey(c.settings.prefix, p, key), Failure(p, e, key), put, s.threads[u]);
    case Remove(t, delete) =>
      RemovedWasDelivered(c, s, t);
      RemovalKeepsThreads(c, s.delivered, s.objects, s.threads[t].name, delete, s.threads[u]);
    case _ =>
  }

  lemma SafeStateHasDigest(c: Config, s: State)
    requires Inv(c, s)
    ensures IsDigest(c.hash)
  {
  }

  lemma OwnThreadStaysSound(c: Config, s: State, step: Step)
    requires Inv(c, s) && Enabled(c, s, step) && step.thread in After(c, s, step).threads
    ensures var n := After(c, s, step); ThreadIsSound(c, n.delivered, n.objects, n.threads[step.thread])
  {
    if step.thread in s.threads {
      assert ThreadIsSound(c, s.delivered, s.objects, s.threads[step.thread]);
    }
    hide IsDigest;
    match step
    case Put(t, e, put) =>
      PuttingIsSafe(s.acknowledged, s.delivered, s.objects, c.settings, c.hash, s.threads[t].payload, e, put);
    case _ =>
  }

  // ---- Whole runs ----

  ghost predicate IsRun(c: Config, states: seq<State>, steps: seq<Step>) {
    && |states| == |steps| + 1 && Starts(c, states[0])
    && forall i :: 0 <= i < |steps| ==>
         Enabled(c, states[i], steps[i]) && states[i + 1] == After(c, states[i], steps[i])
  }

  lemma {:induction false} RunKeepsInv(c: Config, states: seq<State>, steps: seq<Step>, i: nat)
    requires IsDigest(c.hash) && IsRun(c, states, steps) && i < |states|
    ensures Inv(c, states[i])
  {
    if i > 0 {
      RunKeepsInv(c, states, steps, i - 1);
      assert Enabled(c, states[i - 1], steps[i - 1]) && states[i - 1 + 1] == After(c, states[i - 1], steps[i - 1]);
      StepKeepsInv(c, states[i - 1], steps[i - 1]);
    }
  }

  /**
   No loss: with direct delivery on and an adapter that posts, every payload ever acknowledged has its
   key delivered or an object in the buffer, in every state of every interleaving.
   */
  lemma NothingAcknowledgedIsLost(c: Config, states: seq<State>, steps: seq<Step>, i: nat, p: Payload)
    requires IsDigest(c.hash) && IsRun(c, states, steps) && i < |states|
    requires DeliversDirectly(c.settings) && p in states[i].acknowledged
    ensures Kept(p, states[i].delivered, states[i].objects, c.settings.prefix, c.hash)
  {
    RunKeepsInv(c, states, steps, i);
  }

  /** An object in the buffer holds the content that its name was made for, unless the hash collides. */
  lemma BufferedIsTheContent(c: Config, states: seq<State>, steps: seq<Step>, i: nat, p: Payload)
    requires IsDigest(c.hash) && IsRun(c, states, steps) && i < |states| && p.Valid()
    requires ObjectKey(c.settings.prefix, p, KeyOf(p, c.hash)) in states[i].objects
    ensures var body := states[i].objects[ObjectKey(c.settings.prefix, p, KeyOf(p, c.hash))];
            body.Failure? && (SameContent(p, body.payload) || Collide(p, body.payload, c.hash))
  {
    RunKeepsInv(c, states, steps, i);
    var name := ObjectKey(c.settings.prefix, p, KeyOf(p, c.hash));
    var body := states[i].objects[name];
    assert GenuineObject(name, body, c.settings.prefix, c.hash);
    hide Inv, SameContent, Collide, ObjectKey;
    SameObjectSameKey(c.settings.prefix, p, body.payload, c.hash);
    SameKeyExactlyWhen(p, body.payload, c.hash);
  }

  /** In every run of an adapter that posts, an object leaves the buffer only after its key was delivered. */
  lemma OnlyDeliveredLeaves(c: Config, states: seq<State>, steps: seq<Step>, i: nat, name: string)
    requires IsDigest(c.hash) && IsRun(c, states, steps) && i < |steps| && Sends(c.settings)
    requires name in states[i].objects && name !in states[i + 1].objects
    ensures states[i].objects[name].Failure? && states[i].objects[name].key in states[i].delivered
  {
    RunKeepsInv(c, states, steps, i);
    var s, step := states[i], steps[i];
    assert Enabled(c, s, step) && states[i + 1] == After(c, s, step);
    assert step.Remove?;
    RemovedWasDelivered(c, s, step.thread);
  }

  /** A crash ends its thread, and leaves everything else as it is. */
  lemma CrashEndsThread(c: Config, s: State, t: nat, u: nat)
    requires Enabled(c, s, Crash(t))
    ensures var n := After(c, s, Crash(t));
            && n == s.(threads := n.threads) && (u in n.threads <==> u in s.threads && u != t)
            && (u in n.threads ==> n.threads[u] == s.threads[u])
  {
  }

  /** An ingest calls AMP at most once more than it may retry. */
  lemma CallsAreBounded(c: Config, states: seq<State>, steps: seq<Step>, i: nat, t: nat)
    requires IsDigest(c.hash) && IsRun(c, states, steps) && i < |states|
    requires t in states[i].threads && states[i].threads[t].Delivering?
    ensures states[i].threads[t].calls <= if c.settings.maxRetries < 0 then 0 else c.settings.maxRetries
  {
    RunKeepsInv(c, states, steps, i);
    assert ThreadIsSound(c, states[i].delivered, states[i].objects, states[i].threads[t]);
  }

  // ---- One ingest as a run ----

  /** A stretch of a run. */
  ghost predicate IsPath(c: Config, states: seq<State>, steps: seq<Step>) {
    && |states| == |steps| + 1
    && forall i :: 0 <= i < |steps| ==>
         Enabled(c, states[i], steps[i]) && states[i + 1] == After(c, states[i], steps[i])
  }

  lemma PathGrows(c: Config, s: State, step: Step, states: seq<State>, steps: seq<Step>)
    requires IsPath(c, states, steps) && Enabled(c, s, step) && states[0] == After(c, s, step)
    ensures IsPath(c, [s] + states, [step] + steps)
  {
  }

  lemma PathsJoin(c: Config, states: seq<State>, steps: seq<Step>, step: Step)
    requires IsPath(c, states, steps) && Enabled(c, states[|steps|], step)
    ensures IsPath(c, states + [After(c, states[|steps|], step)], steps + [step])
  {
  }

  /** The call of an attempt, as the adapter can make it. */
  function CallOf(t: nat, a: Attempt, arrives: bool, final: bool): Step { Call(t, arrives, Succeeded(a), final) }

  /** What posting and the stub can do: a reported success has arrived, and the stub sends nothing. */
  ghost predicate Plausible(c: Config, attempts: nat -> Attempt, arrives: nat -> bool) {
    forall k :: if Sends(c.settings) then Succeeded(attempts(k)) ==> arrives(k)
                else !arrives(k) && !IsClientFailure(attempts(k))
  }

  lemma SucceededMeaning(a: Attempt)
    ensures Succeeded(a) <==> Succeeds(a)
  {
  }

  /** One call of the machine is one turn of the retry loop. */
  lemma CallIsTurn(c: Config, s: State, t: nat, p: Payload, attempts: nat -> Attempt, arrives: nat -> bool, k: nat)
    requires Running(s, t) && s.threads[t] == Delivering(p, k) && Plausible(c, attempts, arrives)
    ensures var step := CallOf(t, attempts(k), arrives(k), IsClientFailure(attempts(k)));
            && Enabled(c, s, step)
            && var n := After(c, s, step);
               && n.objects == s.objects && n.acknowledged == s.acknowledged && n.threads.Keys == s.threads.Keys
               && n.threads[t] == if LastCall(attempts, c.settings.maxRetries, k) > k then Delivering(p, k + 1)
                                  else if Succeeds(attempts(k)) then Ready(p) else ToBuffer(p)
  {
    FinalExactlyWhen(attempts(k));
    SucceededMeaning(attempts(k));
    LastCallIsLater(attempts, c.settings.maxRetries, k);
    hide IsFinal, IsClientFailure, Succeeds, Succeeded, LastCall, Sends, KeyOf;
  }

  lemma LastCallIsLater(attempts: nat -> Attempt, maxRetries: int, k: nat)
    ensures if IsFinal(attempts(k)) || k + 1 > maxRetries then LastCall(attempts, maxRetries, k) == k
            else LastCall(attempts, maxRetries, k) == LastCall(attempts, maxRetries, k + 1) > k
  {
    if !IsFinal(attempts(k)) && k + 1 <= maxRetries {
      LastCallIsFinal(attempts, maxRetries, k + 1);
    }
  }

  /** The calls of one delivery: as many as the retry loop makes, and with its outcome. */
  lemma {:induction false} CallsAreTurns(c: Config, s: State, t: nat, p: Payload, attempts: nat -> Attempt,
                                         arrives: nat -> bool, k: nat)
    returns (states: seq<State>, steps: seq<Step>)
    requires Running(s, t) && s.threads[t] == Delivering(p, k) && Plausible(c, attempts, arrives)
    ensures IsPath(c, states, steps) && states[0] == s
    ensures var last, n := states[|steps|], LastCall(attempts, c.settings.maxRetries, k);
            && n >= k && |steps| == n - k + 1
            && last.objects == s.objects && last.acknowledged == s.acknowledged && last.threads.Keys == s.threads.Keys
            && last.threads[t] == if Succeeds(attempts(n)) then Ready(p) else ToBuffer(p)
    decreases c.settings.maxRetries - k
  {
    hide Plausible, IsClientFailure, Succeeds, LastCall, Enabled, After, IsPath;
    var step := CallOf(t, attempts(k), arrives(k), IsClientFailure(attempts(k)));
    CallIsTurn(c, s, t, p, attempts, arrives, k);
    LastCallIsLater(attempts, c.settings.maxRetries, k);
    var next := After(c, s, step);
    if LastCall(attempts, c.settings.maxRetries, k) > k {
      var more, rest := CallsAreTurns(c, next, t, p, attempts, arrives, k + 1);
      PathLength(c, more, rest);
      PathGrows(c, s, step, more, rest);
      states, steps := [s] + more, [step] + rest;
      assert states[|steps|] == more[|rest|];
    } else {
      EmptyPath(c, next);
      PathGrows(c, s, step, [next], []);
      states, steps := [s] + [next], [step] + [];
    }
  }

  lemma EmptyPath(c: Config, s: State)
    ensures IsPath(c, [s], [])
  {
  }

  lemma PathLength(c: Config, states: seq<State>, steps: seq<Step>)
    requires IsPath(c, states, steps)
    ensures |states| == |steps| + 1
  {
  }

  /** Every ingest with direct delivery is a run of the machine, with the calls and the outcome of the service. */
  lemma IngestIsARun(c: Config, p: Payload, attempts: nat -> Attempt, arrives: nat -> bool, put: PutOutcome, eventId: string)
    returns (states: seq<State>, steps: seq<Step>)
    requires c.settings.ampEnabled && p.Valid() && eventId != "" && Plausible(c, From(attempts, 0), arrives)
    ensures IsRun(c, states, steps)
    ensures var d := DeliveryFrom(attempts, c.settings.maxRetries, 0);
            var last, key := states[|steps|], KeyOf(p, c.hash);
            && (last.acknowledged == if Acknowledges(ResultAfter(d, c.settings.bufferEnabled, put)) then {p} else {})
            && last.objects == (if d.success || !c.settings.bufferEnabled then map[]
                 else AfterPut(map[], ObjectKey(c.settings.prefix, p, key), Failure(p, eventId, key), put))
  {
    var s1 := START.(threads := map[0 := Delivering(p, 0)]);
    assert After(c, START, Accept(0, p)) == s1;
    var calls := From(attempts, 0);
    var more, rest := CallsAreTurns(c, s1, 0, p, calls, arrives, 0);
    var d := DeliveryFrom(attempts, c.settings.maxRetries, 0);
    SucceededMeaning(calls(LastCall(calls, c.settings.maxRetries, 0)));
    PathGrows(c, START, Accept(0, p), more, rest);
    states, steps := [START] + more, [Accept(0, p)] + rest;
    assert states[|steps|] == more[|rest|];
    hide Plausible, LastCall, DeliveryFrom, KeyOf, Succeeds, Succeeded;
    if d.success {
      PathsJoin(c, states, steps, Acknowledge(0));
      states, steps := states + [After(c, states[|steps|], Acknowledge(0))], steps + [Acknowledge(0)];
    } else if c.settings.bufferEnabled {
      PathsJoin(c, states, steps, Put(0, eventId, put));
      states, steps := states + [After(c, states[|steps|], Put(0, eventId, put))], steps + [Put(0, eventId, put)];
      if put.Stored? {
        PathsJoin(c, states, steps, Acknowledge(0));
        states, steps := states + [After(c, states[|steps|], Acknowledge(0))], steps + [Acknowledge(0)];
      }
    }
    EmptyStart(c);
  }

  /** Every replay of an object is a stretch of a run, from any state, with the effects of the service. */
  lemma ReplayIsAPath(c: Config, s: State, t: nat, name: string, a: Attempt, arrives: bool, delete: DeleteOutcome)
    returns (states: seq<State>, steps: seq<Step>)
    requires t !in s.threads && name in s.objects && IsReplayable(s.objects[name])
    requires Possible(c, arrives, Succeeded(a), false)
    ensures IsPath(c, states, steps) && states[0] == s
    ensures var last, body := states[|steps|], s.objects[name];
            && last.delivered == (if arrives then s.delivered + {body.key} else s.delivered)
            && last.objects == (if Succeeded(a) then AfterDelete(s.objects, name, delete) else s.objects)
            && last.acknowledged == s.acknowledged && t !in last.threads
  {
    hide Sends, Succeeded, AfterDelete, IsPath;
    EmptyPath(c, s);
    states, steps := [s], [];
    PathsJoin(c, states, steps, Get(t, name));
    states, steps := states + [After(c, s, Get(t, name))], steps + [Get(t, name)];
    var redeliver := Redeliver(t, arrives, Succeeded(a));
    PathsJoin(c, states, steps, redeliver);
    states, steps := states + [After(c, states[1], redeliver)], steps + [redeliver];
    if Succeeded(a) {
      PathsJoin(c, states, steps, Remove(t, delete));
      states, steps := states + [After(c, states[2], Remove(t, delete))], steps + [Remove(t, delete)];
    }
  }

  lemma EmptyStart(c: Config)
    ensures Starts(c, START)
  {
  }

  // ---- Where payloads are lost ----

  /** A payload that is acknowledged and nowhere at the end of a run. */
  ghost predicate Loses(c: Config, states: seq<State>, steps: seq<Step>, p: Payload) {
    && IsRun(c, states, steps)
    && var last := states[|states| - 1];
       p in last.acknowledged && !Kept(p, last.delivered, last.objects, c.settings.prefix, c.hash)
  }

  /** Without direct delivery, two steps acknowledge a payload that is nowhere. */
  lemma WithoutDirectDelivery(c: Config, p: Payload) returns (states: seq<State>, steps: seq<Step>)
    requires !c.settings.ampEnabled && p.Valid()
    ensures Loses(c, states, steps, p)
  {
    var s1 := START.(threads := map[0 := Ready(p)]);
    var s2 := START.(acknowledged := {p});
    states, steps := [START, s1, s2], [Accept(0, p), Acknowledge(0)];
    assert After(c, START, Accept(0, p)) == s1;
    assert After(c, s1, Acknowledge(0)) == s2;
  }

  /** Neither does the stub keep it: its one call reports a success. */
  lemma WithStub(c: Config, p: Payload) returns (states: seq<State>, steps: seq<Step>)
    requires c.settings.ampEnabled && !Sends(c.settings) && p.Valid()
    ensures Loses(c, states, steps, p)
  {
    var s1 := START.(threads := map[0 := Delivering(p, 0)]);
    var s2 := START.(threads := map[0 := Ready(p)]);
    var s3 := START.(acknowledged := {p});
    states, steps := [START, s1, s2, s3], [Accept(0, p), Call(0, false, true, false), Acknowledge(0)];
    assert After(c, START, Accept(0, p)) == s1;
    assert After(c, s1, Call(0, false, true, false)) == s2;
    assert After(c, s2, Acknowledge(0)) == s3;
  }

  ghost predicate NeverLoses(c: Config) {
    forall states: seq<State>, steps: seq<Step>, i: nat, p: Payload ::
      IsRun(c, states, steps) && i < |states| && p in states[i].acknowledged ==>
        Kept(p, states[i].delivered, states[i].objects, c.settings.prefix, c.hash)
  }

  const ANY_PAYLOAD := Payload("", "", "", "", IntValue(0), [])

  /** Acknowledged payloads are safe in every run exactly when delivery is on, has an endpoint and is not local. */
  lemma SafeExactlyWithDirectDelivery(c: Config)
    requires IsDigest(c.hash)
    ensures NeverLoses(c) <==>
              && c.settings.ampEnabled
              && c.settings.endpoint.Some? && c.settings.endpoint.value != "" && c.settings.env != "local"
  {
    if DeliversDirectly(c.settings) {
      forall states: seq<State>, steps: seq<Step>, i: nat, p: Payload |
        IsRun(c, states, steps) && i < |states| && p in states[i].acknowledged
        ensures Kept(p, states[i].delivered, states[i].objects, c.settings.prefix, c.hash)
      {
        NothingAcknowledgedIsLost(c, states, steps, i, p);
      }
    } else {
      var states, steps;
      if c.settings.ampEnabled {
        states, steps := WithStub(c, ANY_PAYLOAD);
      } else {
        states, steps := WithoutDirectDelivery(c, ANY_PAYLOAD);
      }
      assert IsRun(c, states, steps) && ANY_PAYLOAD in states[|states| - 1].acknowledged;
    }
  }

  /** The default settings acknowledge any payload without sending or keeping it. */
  lemma DefaultsLoseEveryPayload(hash: Canonical -> string, p: Payload) returns (states: seq<State>, steps: seq<Step>)
    requires p.Valid()
    ensures Loses(Config(DEFAULTS, hash), states, steps, p)
  {
    states, steps := WithStub(Config(DEFAULTS, hash), p);
  }

  ghost predicate RemovesOnlyDelivered(c: Config) {
    forall states: seq<State>, steps: seq<Step>, i: nat, name: string ::
      IsRun(c, states, steps) && i < |steps| && name in states[i].objects && name !in states[i + 1].objects ==>
        states[i].objects[name].Failure? && states[i].objects[name].key in states[i].delivered
  }

  /** A replay through the stub deletes a failure that was never sent. */
  lemma StubReplayDeletes(c: Config, p: Payload) returns (states: seq<State>, steps: seq<Step>, name: string)
    requires !Sends(c.settings) && p.Valid() && IsDigest(c.hash)
    ensures IsRun(c, states, steps) && |steps| == 3
    ensures name in states[2].objects && name !in states[3].objects
    ensures states[2].objects[name].Failure? && states[2].objects[name].key !in states[2].delivered
  {
    var key := KeyOf(p, c.hash);
    name := ObjectKey(c.settings.prefix, p, key);
    var body := Failure(p, "e", key);
    var objects := map[name := body];
    var s0 := START.(objects := objects);
    var s1 := s0.(threads := map[0 := Got(name, body)]);
    var s2 := s0.(threads := map[0 := Sent(name, body)]);
    states, steps := [s0, s1, s2, START], [Get(0, name), Redeliver(0, false, true), Remove(0, Removed)];
    assert |key| == 64;
    hide ObjectKey, KeyOf;
    assert GenuineObject(name, body, c.settings.prefix, c.hash);
    assert After(c, s0, Get(0, name)) == s1;
    assert After(c, s1, Redeliver(0, false, true)) == s2;
    assert objects - {name} == map[];
    assert After(c, s2, Remove(0, Removed)) == START;
  }

  /** So replays remove only what was delivered exactly when the adapter posts. */
  lemma RemovesOnlyDeliveredExactlyWhenSending(c: Config)
    requires IsDigest(c.hash)
    ensures RemovesOnlyDelivered(c) <==> Sends(c.settings)
  {
    if Sends(c.settings) {
      forall states: seq<State>, steps: seq<Step>, i: nat, name: string |
        IsRun(c, states, steps) && i < |steps| && name in states[i].objects && name !in states[i + 1].objects
        ensures states[i].objects[name].Failure? && states[i].objects[name].key in states[i].delivered
      {
        OnlyDeliveredLeaves(c, states, steps, i, name);
      }
    } else {
      var states, steps, name := StubReplayDeletes(c, ANY_PAYLOAD);
      assert IsRun(c, states, steps) && 2 < |steps| && name in states[2].objects && name !in states[2 + 1].objects;
    }
  }
}
