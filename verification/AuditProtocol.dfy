/**
 The receive, process, audit, alert and delete protocol of main() and save_audit_log in
 src/prediction_worker/app.py, over a queue that redelivers and an audit table with a conditional
 put.  Several workers run at once; every call can fail, also after it took effect.
 */
module AuditProtocol {

  datatype Message = Message(id: string, tenant: string)

  /** The n-th time a message is handed out. */
  datatype Attempt = Attempt(message: Message, number: nat)

  /** The audit key (tenant_id, service_time). */
  datatype Key = Key(tenant: string, time: int)

  /** Working carries whether the item that the attempt comes to can be written at all. */
  datatype Phase = Working(attempt: Attempt, writable: bool) | Recorded(attempt: Attempt)

  datatype State = State(
    pending: set<Message>,
    receives: map<Message, nat>,
    workers: map<nat, Phase>,
    audit: map<Key, Attempt>,
    // History: the key under which an attempt's put came back normally, and what it did then.
    puts: map<Attempt, Key>,
    alerts: set<Attempt>,
    deletions: set<Attempt>)

  const START := State({}, map[], map[], map[], map[], {}, {})

  datatype Step =
    | Arrive(message: Message)
    | Receive(worker: nat, message: Message, writable: bool)
    | Put(worker: nat, time: int)
    | PutLostReply(worker: nat, time: int)
    | Alert(worker: nat)
    | Delete(worker: nat)
    | Abandon(worker: nat)
    | DeadLetter(message: Message)

  function KeyOf(a: Attempt, time: int): Key { Key(a.message.tenant, time) }

  /** put_item with attribute_not_exists: an occupied key keeps its item. */
  function ConditionalPut(audit: map<Key, Attempt>, key: Key, a: Attempt): map<Key, Attempt> {
    if key in audit then audit else audit[key := a]
  }

  predicate Enabled(s: State, step: Step) {
    match step
    case Arrive(m) => m !in s.receives
    case Receive(w, m, _) => w !in s.workers && m in s.pending && m in s.receives
    case Put(w, _) => w in s.workers && s.workers[w].Working? && s.workers[w].writable
    case PutLostReply(w, _) => w in s.workers && s.workers[w].Working? && s.workers[w].writable
    case Alert(w) => w in s.workers && s.workers[w].Recorded?
    case Delete(w) => w in s.workers && s.workers[w].Recorded?
    case Abandon(w) => w in s.workers
    case DeadLetter(m) => m in s.pending
  }

  /**
   Abandon is every end of an attempt that does not delete: a raised exception, a failed delete or a
   crashed worker.  PutLostReply is a put that took effect and was then reported as an error.
   */
  function After(s: State, step: Step): State
    requires Enabled(s, step)
  {
    match step
    case Arrive(m) => s.(pending := s.pending + {m}, receives := s.receives[m := 0])
    case Receive(w, m, writable) =>
      var n := s.receives[m] + 1;
      s.(receives := s.receives[m := n], workers := s.workers[w := Working(Attempt(m, n), writable)])
    case Put(w, time) =>
      var a := s.workers[w].attempt;
      s.(audit := ConditionalPut(s.audit, KeyOf(a, time), a), puts := s.puts[a := KeyOf(a, time)],
         workers := s.workers[w := Recorded(a)])
    case PutLostReply(w, time) =>
      var a := s.workers[w].attempt;
      s.(audit := ConditionalPut(s.audit, KeyOf(a, time), a), workers := s.workers - {w})
    case Alert(w) => s.(alerts := s.alerts + {s.workers[w].attempt})
    case Delete(w) =>
      var a := s.workers[w].attempt;
      s.(pending := s.pending - {a.message}, deletions := s.deletions + {a}, workers := s.workers - {w})
    case Abandon(w) => s.(workers := s.workers - {w})
    case DeadLetter(m) => s.(pending := s.pending - {m})
  }

  // ---- The invariant ----

  predicate Counted(s: State, a: Attempt) {
    a.message in s.receives && 1 <= a.number <= s.receives[a.message]
  }

  ghost predicate PutsAreBacked(s: State) {
    && (forall a :: a in s.puts ==> Counted(s, a) && s.puts[a] in s.audit && s.puts[a].tenant == a.message.tenant)
    && s.alerts <= s.puts.Keys && s.deletions <= s.puts.Keys
  }

  /** Every item names its attempt, no attempt has two items, and items carry the tenant of their message. */
  ghost predicate ItemsAreTagged(s: State) {
    && (forall k :: k in s.audit ==> Counted(s, s.audit[k]) && s.audit[k].message.tenant == k.tenant)
    && (forall k, l :: k in s.audit && l in s.audit && s.audit[k] == s.audit[l] ==> k == l)
  }

  ghost predicate WorkersAreApart(s: State) {
    && (forall w :: w in s.workers ==> Counted(s, s.workers[w].attempt))
    && (forall v, w :: v in s.workers && w in s.workers && v != w ==> s.workers[v].attempt != s.workers[w].attempt)
  }

  /** A working attempt has neither put nor item yet; a recorded one has its put behind it. */
  ghost predicate PhasesAreTrue(s: State) {
    && (forall w :: w in s.workers && s.workers[w].Recorded? ==> s.workers[w].attempt in s.puts)
    && (forall w :: w in s.workers && s.workers[w].Working? ==> s.workers[w].attempt !in s.puts)
    && (forall w, k :: w in s.workers && s.workers[w].Working? && k in s.audit ==> s.audit[k] != s.workers[w].attempt)
  }

  ghost predicate Inv(s: State) {
    PutsAreBacked(s) && ItemsAreTagged(s) && WorkersAreApart(s) && PhasesAreTrue(s)
  }

  lemma StepKeepsPuts(s: State, step: Step)
    requires Inv(s) && Enabled(s, step)
    ensures PutsAreBacked(After(s, step))
  {
    hide ItemsAreTagged;
    BackingStays(s, step);
  }

  lemma BackingStays(s: State, step: Step)
    requires PutsAreBacked(s) && WorkersAreApart(s) && PhasesAreTrue(s) && Enabled(s, step)
    ensures PutsAreBacked(After(s, step))
  {
    var t := After(s, step);
    forall a | a in t.puts ensures Counted(t, a) && t.puts[a] in t.audit && t.puts[a].tenant == a.message.tenant {
      if a in s.puts && s.puts[a] == t.puts[a] {
        assert Counted(s, a);
      } else {
        assert Counted(s, s.workers[step.worker].attempt);
      }
    }
  }

  lemma StepKeepsItems(s: State, step: Step)
    requires Inv(s) && Enabled(s, step)
    ensures ItemsAreTagged(After(s, step))
  {
    match step
    case Put(w, time) => PutKeepsTags(s, s.workers[w].attempt, KeyOf(s.workers[w].attempt, time));
    case PutLostReply(w, time) => PutKeepsTags(s, s.workers[w].attempt, KeyOf(s.workers[w].attempt, time));
    case Receive(w, m, _) =>
      forall k | k in s.audit ensures Counted(After(s, step), s.audit[k]) {
        assert Counted(s, s.audit[k]);
      }
    case _ =>
  }

  lemma PutKeepsTags(s: State, a: Attempt, key: Key)
    requires ItemsAreTagged(s) && Counted(s, a) && key.tenant == a.message.tenant
    requires forall k :: k in s.audit ==> s.audit[k] != a
    ensures ItemsAreTagged(s.(audit := ConditionalPut(s.audit, key, a)))
  {
  }

  lemma StepKeepsWorkers(s: State, step: Step)
    requires Inv(s) && Enabled(s, step)
    ensures WorkersAreApart(After(s, step))
  {
    match step
    case Receive(w, m, _) =>
      forall v | v in s.workers ensures s.workers[v].attempt != Attempt(m, s.receives[m] + 1) {
        assert Counted(s, s.workers[v].attempt);
      }
    case _ =>
  }

  /** A new attempt is in no record yet. */
  lemma NewAttemptIsFresh(s: State, m: Message)
    requires Inv(s) && m in s.receives
    ensures var a := Attempt(m, s.receives[m] + 1); a !in s.puts && forall k :: k in s.audit ==> s.audit[k] != a
  {
    var a := Attempt(m, s.receives[m] + 1);
    assert !Counted(s, a);
  }

  lemma StepKeepsPhases(s: State, step: Step)
    requires Inv(s) && Enabled(s, step)
    ensures PhasesAreTrue(After(s, step))
  {
    if step.Receive? {
      NewAttemptIsFresh(s, step.message);
    }
    hide PutsAreBacked, ItemsAreTagged, Counted;
    PhasesStay(s, step);
  }

  lemma PhasesStay(s: State, step: Step)
    requires WorkersAreApart(s) && PhasesAreTrue(s) && Enabled(s, step)
    requires step.Receive? ==>
               var a := Attempt(step.message, s.receives[step.message] + 1);
               a !in s.puts && forall k :: k in s.audit ==> s.audit[k] != a
    ensures PhasesAreTrue(After(s, step))
  {
    hide Counted;
  }

  /** Audit items are never changed and never removed. */
  lemma AuditOnlyGrows(s: State, step: Step)
    requires Enabled(s, step)
    ensures forall k :: k in s.audit ==> k in After(s, step).audit && After(s, step).audit[k] == s.audit[k]
  {
  }

  // ---- Whole runs ----

  /** The states of a run from the empty system. */
  ghost predicate IsRun(states: seq<State>, steps: seq<Step>) {
    && |states| == |steps| + 1 && states[0] == START
    && forall i :: 0 <= i < |steps| ==> Enabled(states[i], steps[i]) && states[i + 1] == After(states[i], steps[i])
  }

  lemma {:induction false} RunKeepsInv(states: seq<State>, steps: seq<Step>, i: nat)
    requires IsRun(states, steps) && i < |states|
    ensures Inv(states[i])
  {
    if i > 0 {
      RunKeepsInv(states, steps, i - 1);
      assert Enabled(states[i - 1], steps[i - 1]) && states[i - 1 + 1] == After(states[i - 1], steps[i - 1]);
      StepKeepsPuts(states[i - 1], steps[i - 1]);
      StepKeepsItems(states[i - 1], steps[i - 1]);
      StepKeepsWorkers(states[i - 1], steps[i - 1]);
      StepKeepsPhases(states[i - 1], steps[i - 1]);
    }
  }

  /** In every run, a deletion or an alert comes after an audit item under that attempt's own key. */
  lemma DeletedMeansAudited(states: seq<State>, steps: seq<Step>, i: nat, a: Attempt)
    requires IsRun(states, steps) && i < |states|
    requires a in states[i].deletions || a in states[i].alerts
    ensures var s := states[i];
            a in s.puts && s.puts[a] in s.audit && s.puts[a].tenant == a.message.tenant
  {
    RunKeepsInv(states, steps, i);
  }

  lemma {:induction false} AuditIsForever(states: seq<State>, steps: seq<Step>, i: nat, j: nat, k: Key)
    requires IsRun(states, steps) && i <= j < |states| && k in states[i].audit
    ensures k in states[j].audit && states[j].audit[k] == states[i].audit[k]
    decreases j - i
  {
    if i < j {
      AuditIsForever(states, steps, i, j - 1, k);
      assert Enabled(states[j - 1], steps[j - 1]) && states[j - 1 + 1] == After(states[j - 1], steps[j - 1]);
      AuditOnlyGrows(states[j - 1], steps[j - 1]);
    }
  }

  function ItemsOf(s: State, m: Message): set<Key> {
    set k | k in s.audit && s.audit[k].message == m
  }

  lemma {:induction false} UpTo(n: nat, numbers: set<nat>)
    requires forall x :: x in numbers ==> 1 <= x <= n
    ensures |numbers| <= n
  {
    if n == 0 {
      assert forall x :: x !in numbers;
      assert numbers == {};
    } else {
      UpTo(n - 1, numbers - {n});
    }
  }

  lemma {:induction false} DistinctNumbers(audit: map<Key, Attempt>, keys: set<Key>, m: Message)
    requires forall k :: k in keys ==> k in audit && audit[k].message == m
    requires forall k, l :: k in keys && l in keys && audit[k] == audit[l] ==> k == l
    ensures |keys| == |set k | k in keys :: audit[k].number|
  {
    if keys == {} {
      assert (set k | k in keys :: audit[k].number) == {};
    } else {
      var k :| k in keys;
      var rest := keys - {k};
      DistinctNumbers(audit, rest, m);
      var numbers := set l | l in keys :: audit[l].number;
      assert numbers == (set l | l in rest :: audit[l].number) + {audit[k].number};
      forall l | l in rest ensures audit[l].number != audit[k].number {
        assert audit[l] != audit[k];
      }
    }
  }

  /** In every run, a message has at most as many audit items as it was received. */
  lemma ItemsNeverExceedReceives(states: seq<State>, steps: seq<Step>, i: nat, m: Message)
    requires IsRun(states, steps) && i < |states|
    ensures |ItemsOf(states[i], m)| <= if m in states[i].receives then states[i].receives[m] else 0
  {
    RunKeepsInv(states, steps, i);
    var s := states[i];
    var keys := ItemsOf(s, m);
    DistinctNumbers(s.audit, keys, m);
    UpTo(if m in s.receives then s.receives[m] else 0, set k | k in keys :: s.audit[k].number);
  }

  // ---- Whose item it is ----

  /** The attempt deleted its message, and no audit item is its own. */
  predicate LostItsItem(s: State, a: Attempt) {
    a in s.deletions && a !in s.audit.Values
  }

  /** The put of an attempt leaves the attempt's own item exactly when its key was free. */
  lemma OwnItemExactlyWhenFree(s: State, w: nat, time: int, step: Step)
    requires Inv(s) && step in {Put(w, time), PutLostReply(w, time)} && Enabled(s, step)
    ensures var a, t := s.workers[w].attempt, After(s, step);
            && KeyOf(a, time) in t.audit
            && (t.audit[KeyOf(a, time)] == a <==> KeyOf(a, time) !in s.audit)
  {
  }

  /** An attempt that ends, whichever way, leaves its worker free to receive, and the other workers as they are. */
  lemma EndedAttemptFreesWorker(s: State, step: Step, v: nat)
    requires Enabled(s, step) && (step.PutLostReply? || step.Delete? || step.Abandon?)
    ensures var t := After(s, step);
            && step.worker in s.workers
            && (v in t.workers <==> v in s.workers && v != step.worker)
            && (v in t.workers ==> t.workers[v] == s.workers[v])
  {
  }

  /** No put of the run met an occupied key. */
  ghost predicate NoCollision(states: seq<State>, steps: seq<Step>) {
    |states| == |steps| + 1 &&
    forall i :: 0 <= i < |steps| && steps[i].Put? && Enabled(states[i], steps[i]) ==>
      KeyOf(states[i].workers[steps[i].worker].attempt, steps[i].time) !in states[i].audit
  }

  lemma EarlierPutStays(s: State, step: Step, a: Attempt)
    requires PhasesAreTrue(s) && Enabled(s, step)
    requires a in s.puts && s.puts[a] in s.audit && s.audit[s.puts[a]] == a
    ensures var t := After(s, step); t.puts[a] == s.puts[a] && t.puts[a] in t.audit && t.audit[t.puts[a]] == a
  {
    AuditOnlyGrows(s, step);
  }

  /** The put of the attempt met an occupied key, in one of the first n steps. */
  ghost predicate Collided(states: seq<State>, steps: seq<Step>, n: nat, a: Attempt)
    requires IsRun(states, steps) && n <= |steps|
  {
    exists j :: 0 <= j < n && PutsAt(states[j], steps[j], a) && KeyOf(a, steps[j].time) in states[j].audit
  }

  ghost predicate PutsAt(s: State, step: Step, a: Attempt) {
    step.Put? && Enabled(s, step) && s.workers[step.worker].attempt == a
  }

  lemma {:induction false} PutsStay(states: seq<State>, steps: seq<Step>, i: nat, j: nat, a: Attempt)
    requires IsRun(states, steps) && i <= j < |states| && a in states[i].puts
    ensures a in states[j].puts
    decreases j - i
  {
    if i < j {
      PutsStay(states, steps, i, j - 1, a);
      assert Enabled(states[j - 1], steps[j - 1]) && states[j - 1 + 1] == After(states[j - 1], steps[j - 1]);
    }
  }

  lemma CollidedStep(states: seq<State>, steps: seq<Step>, i: nat, a: Attempt)
    requires IsRun(states, steps) && i < |steps|
    ensures Collided(states, steps, i + 1, a)
       <==> || Collided(states, steps, i, a)
            || (PutsAt(states[i], steps[i], a) && KeyOf(a, steps[i].time) in states[i].audit)
  {
    hide IsRun, PutsAt, KeyOf;
  }

  /** An attempt puts at most once, and it has not put before. */
  lemma NoEarlierPut(states: seq<State>, steps: seq<Step>, i: nat, a: Attempt)
    requires IsRun(states, steps) && i < |states| && a !in states[i].puts
    ensures !Collided(states, steps, i, a)
  {
    forall j | 0 <= j < i ensures !PutsAt(states[j], steps[j], a) {
      if PutsAt(states[j], steps[j], a) {
        assert states[j + 1] == After(states[j], steps[j]);
        PutsStay(states, steps, j + 1, i, a);
      }
    }
    hide IsRun, PutsAt;
  }

  lemma PutsOnce(s: State, step: Step, a: Attempt)
    requires Inv(s) && Enabled(s, step) && a in After(s, step).puts
    ensures PutsAt(s, step, a) <==> a !in s.puts
  {
  }

  /** The attempt's put came back; it left the attempt's own item, or none anywhere when it collided. */
  ghost predicate PutLeft(s: State, a: Attempt, collided: bool) {
    && a in s.puts
    && if collided then a !in s.audit.Values else s.puts[a] in s.audit && s.audit[s.puts[a]] == a
  }

  /** An attempt that has put gets no further item. */
  lemma NothingNew(s: State, step: Step, a: Attempt)
    requires PhasesAreTrue(s) && Enabled(s, step) && a in s.puts && a !in s.audit.Values
    ensures a !in After(s, step).audit.Values
  {
    var audit := After(s, step).audit;
    forall k | k in audit ensures audit[k] != a {
      if k in s.audit {
        assert s.audit[k] in s.audit.Values;
      }
    }
  }

  lemma FirstPutMeaning(s: State, step: Step, a: Attempt)
    requires Inv(s) && PutsAt(s, step, a)
    ensures var t := After(s, step);
            if KeyOf(a, step.time) in s.audit then a !in t.audit.Values
            else a in t.puts && t.puts[a] in t.audit && t.audit[t.puts[a]] == a
  {
  }

  lemma PutStep(s: State, step: Step, a: Attempt, before: bool, now: bool)
    requires Inv(s) && Enabled(s, step) && a in After(s, step).puts
    requires if a in s.puts then PutLeft(s, a, before) else !before
    requires now <==> before || (PutsAt(s, step, a) && KeyOf(a, step.time) in s.audit)
    ensures PutLeft(After(s, step), a, now)
  {
    PutsOnce(s, step, a);
    InvHasPhases(s);
    hide Inv, Enabled, PutsAt, PhasesAreTrue;
    if a in s.puts {
      if before {
        NothingNew(s, step, a);
      } else {
        EarlierPutStays(s, step, a);
      }
    } else {
      FirstPutMeaning(s, step, a);
    }
  }

  /** One step of a run. */
  lemma StepOfRun(states: seq<State>, steps: seq<Step>, i: nat)
    requires IsRun(states, steps) && i < |steps|
    ensures Inv(states[i]) && Enabled(states[i], steps[i]) && states[i + 1] == After(states[i], steps[i])
  {
    RunKeepsInv(states, steps, i);
  }

  lemma StartOfRun(states: seq<State>, steps: seq<Step>)
    requires IsRun(states, steps)
    ensures states[0] == START && |states| == |steps| + 1
  {
  }

  lemma PutMeaningStep(states: seq<State>, steps: seq<Step>, i: nat, a: Attempt)
    requires IsRun(states, steps) && i < |steps| && a in states[i + 1].puts
    requires a in states[i].puts ==> PutLeft(states[i], a, Collided(states, steps, i, a))
    ensures PutLeft(states[i + 1], a, Collided(states, steps, i + 1, a))
  {
    hide Inv, Enabled, After, PutsAt, Collided, PutLeft, KeyOf;
    StepOfRun(states, steps, i);
    CollidedStep(states, steps, i, a);
    if a !in states[i].puts {
      NoEarlierPut(states, steps, i, a);
    }
    hide IsRun;
    PutStep(states[i], steps[i], a, Collided(states, steps, i, a), Collided(states, steps, i + 1, a));
  }

  lemma {:induction false} PutMeaning(states: seq<State>, steps: seq<Step>, i: nat, a: Attempt)
    requires IsRun(states, steps) && i < |states| && a in states[i].puts
    ensures PutLeft(states[i], a, Collided(states, steps, i, a))
  {
    StartOfRun(states, steps);
    hide IsRun, Collided, PutLeft;
    if i > 0 {
      var k := i - 1;
      if a in states[k].puts {
        PutMeaning(states, steps, k, a);
      }
      PutMeaningStep(states, steps, k, a);
    }
  }

  lemma InvHasPhases(s: State)
    requires Inv(s)
    ensures PhasesAreTrue(s)
  {
  }

  /** In a run without collisions, every put, so every deletion, has its own item. */
  lemma OwnItemWithoutCollision(states: seq<State>, steps: seq<Step>, i: nat, a: Attempt)
    requires IsRun(states, steps) && NoCollision(states, steps) && i < |states| && a in states[i].puts
    ensures states[i].puts[a] in states[i].audit && states[i].audit[states[i].puts[a]] == a
    ensures !LostItsItem(states[i], a)
  {
    PutMeaning(states, steps, i, a);
    hide IsRun;
    assert !Collided(states, steps, i, a);
  }

  /** In every run, an attempt that deleted its message has no item of its own exactly when its put met an occupied key. */
  lemma LostExactlyWhenCollided(states: seq<State>, steps: seq<Step>, a: Attempt)
    requires IsRun(states, steps) && a in states[|steps|].deletions
    ensures LostItsItem(states[|steps|], a) <==> Collided(states, steps, |steps|, a)
  {
    RunKeepsInv(states, steps, |steps|);
    PutMeaning(states, steps, |steps|, a);
  }

  // ---- A message that cannot be audited ----

  /** No attempt at the message ever gets as far as a put. */
  ghost predicate NeverPut(states: seq<State>, steps: seq<Step>, m: Message) {
    |states| == |steps| + 1 &&
    forall i :: 0 <= i < |steps| && Enabled(states[i], steps[i]) && (steps[i].Put? || steps[i].PutLostReply?) ==>
      states[i].workers[steps[i].worker].attempt.message != m
  }

  ghost predicate DeadLettered(steps: seq<Step>, n: nat, m: Message)
    requires n <= |steps|
  {
    exists j :: 0 <= j < n && steps[j] == DeadLetter(m)
  }

  /** Every decision about the message, whenever it is received, is one that cannot be written. */
  ghost predicate NeverWritable(steps: seq<Step>, m: Message) {
    forall i :: 0 <= i < |steps| && steps[i].Receive? && steps[i].message == m ==> !steps[i].writable
  }

  ghost predicate WorkersCannotWrite(s: State, m: Message) {
    forall w :: w in s.workers && s.workers[w].Working? && s.workers[w].attempt.message == m ==> !s.workers[w].writable
  }

  lemma WorkersStillCannotWrite(s: State, step: Step, m: Message)
    requires Enabled(s, step) && WorkersCannotWrite(s, m)
    requires step.Receive? && step.message == m ==> !step.writable
    ensures WorkersCannotWrite(After(s, step), m)
  {
  }

  lemma {:induction false} NoWorkerCanWrite(states: seq<State>, steps: seq<Step>, i: nat, m: Message)
    requires IsRun(states, steps) && NeverWritable(steps, m) && i < |states|
    ensures WorkersCannotWrite(states[i], m)
  {
    StartOfRun(states, steps);
    if i > 0 {
      var k := i - 1;
      NoWorkerCanWrite(states, steps, k, m);
      StepOfRun(states, steps, k);
      hide IsRun, Inv, Enabled, After, WorkersCannotWrite;
      WorkersStillCannotWrite(states[k], steps[k], m);
    }
  }

  /** So no attempt at it ever gets as far as a put. */
  lemma UnwritableIsNeverPut(states: seq<State>, steps: seq<Step>, m: Message)
    requires IsRun(states, steps) && NeverWritable(steps, m)
    ensures NeverPut(states, steps, m)
  {
    StartOfRun(states, steps);
    hide IsRun, NeverWritable;
    forall i | 0 <= i < |steps| && Enabled(states[i], steps[i]) && (steps[i].Put? || steps[i].PutLostReply?)
      ensures states[i].workers[steps[i].worker].attempt.message != m
    {
      NoWorkerCanWrite(states, steps, i, m);
    }
  }

  /** Such a message is never audited, alerted or deleted: it stays in the queue until it is dead-lettered. */
  lemma {:induction false} UnwritableStays(states: seq<State>, steps: seq<Step>, i: nat, m: Message)
    requires IsRun(states, steps) && NeverPut(states, steps, m) && i < |states|
    ensures ItemsOf(states[i], m) == {}
    ensures forall a :: a in states[i].puts || a in states[i].deletions || a in states[i].alerts ==> a.message != m
    ensures m in states[i].receives && !DeadLettered(steps, i, m) ==> m in states[i].pending
  {
    if i > 0 {
      var s, step := states[i - 1], steps[i - 1];
      assert Enabled(s, step) && states[i - 1 + 1] == After(s, step);
      UnwritableStays(states, steps, i - 1, m);
      RunKeepsInv(states, steps, i - 1);
      RunKeepsInv(states, steps, i);
      UnwritableStep(s, step, m);
      hide Inv, Enabled, After;
    }
  }

  lemma UnwritableStep(s: State, step: Step, m: Message)
    requires Inv(s) && Enabled(s, step) && ItemsOf(s, m) == {}
    requires forall a :: a in s.puts || a in s.deletions || a in s.alerts ==> a.message != m
    requires step.Put? || step.PutLostReply? ==> s.workers[step.worker].attempt.message != m
    ensures var t := After(s, step);
            && ItemsOf(t, m) == {}
            && (forall a :: a in t.puts || a in t.deletions || a in t.alerts ==> a.message != m)
            && (m in t.receives && (m in s.receives ==> m in s.pending) && step != DeadLetter(m) ==> m in t.pending)
  {
    forall k | k in After(s, step).audit ensures After(s, step).audit[k].message != m {
      if k in s.audit {
        assert k !in ItemsOf(s, m);
      }
    }
  }

  // ---- What becomes of a message ----

  /** How often a message was handed out in the first n steps. */
  function HandOuts(steps: seq<Step>, n: nat, m: Message): nat
    requires n <= |steps|
  {
    if n == 0 then 0
    else HandOuts(steps, n - 1, m) + if steps[n - 1].Receive? && steps[n - 1].message == m then 1 else 0
  }

  ghost predicate IsDeleted(s: State, m: Message) {
    exists a :: a in s.deletions && a.message == m
  }

  /** What the state says of a message that was handed out n times, and deleted or dead-lettered or neither. */
  ghost predicate Tracked(s: State, m: Message, n: nat, deleted: bool, dead: bool) {
    && (if m in s.receives then s.receives[m] == n else n == 0 && !deleted && !dead)
    && (m in s.pending <==> m in s.receives && !deleted && !dead)
  }

  lemma TrackedStep(s: State, step: Step, m: Message, n: nat, deleted: bool, dead: bool)
    requires Enabled(s, step) && Tracked(s, m, n, deleted, dead)
    requires step.Delete? ==> s.workers[step.worker].attempt.message in s.receives
    ensures Tracked(After(s, step), m, n + (if step.Receive? && step.message == m then 1 else 0),
                    deleted || (step.Delete? && s.workers[step.worker].attempt.message == m),
                    dead || step == DeadLetter(m))
  {
  }

  /** Receives are counted, and a message stays in the queue exactly until it is deleted or dead-lettered. */
  lemma {:induction false} PendingExactlyWhen(states: seq<State>, steps: seq<Step>, i: nat, m: Message)
    requires IsRun(states, steps) && i < |states|
    ensures Tracked(states[i], m, HandOuts(steps, i, m), IsDeleted(states[i], m), DeadLettered(steps, i, m))
  {
    StartOfRun(states, steps);
    if i > 0 {
      var k := i - 1;
      StepOfRun(states, steps, k);
      DeletedStep(states[k], steps[k], m);
      DeadLetteredStep(steps, k, m);
      hide IsRun, IsDeleted, DeadLettered, Inv, Tracked, Enabled, After;
      PendingExactlyWhen(states, steps, k, m);
      TrackedStep(states[k], steps[k], m, HandOuts(steps, k, m), IsDeleted(states[k], m), DeadLettered(steps, k, m));
    }
  }

  lemma DeletedStep(s: State, step: Step, m: Message)
    requires Inv(s) && Enabled(s, step)
    ensures IsDeleted(After(s, step), m)
       <==> IsDeleted(s, m) || (step.Delete? && s.workers[step.worker].attempt.message == m)
    ensures step.Delete? ==> s.workers[step.worker].attempt.message in s.receives
  {
    if step.Delete? {
      var a := s.workers[step.worker].attempt;
      assert Counted(s, a) && a in After(s, step).deletions;
    }
  }

  lemma DeadLetteredStep(steps: seq<Step>, k: nat, m: Message)
    requires k < |steps|
    ensures DeadLettered(steps, k + 1, m) <==> DeadLettered(steps, k, m) || steps[k] == DeadLetter(m)
  {
  }

  /** The attempt was alerted by the j-th step, or deleted its message there. */
  predicate ActsAt(s: State, step: Step, a: Attempt) {
    (step.Alert? || step.Delete?) && step.worker in s.workers && s.workers[step.worker].attempt == a
  }

  /** Alerts and deletions are those that some worker carried out for its attempt. */
  lemma {:induction false} ActsAreRecorded(states: seq<State>, steps: seq<Step>, i: nat, a: Attempt)
    requires IsRun(states, steps) && i < |states|
    ensures a in states[i].alerts <==> exists j :: 0 <= j < i && steps[j].Alert? && ActsAt(states[j], steps[j], a)
    ensures a in states[i].deletions <==> exists j :: 0 <= j < i && steps[j].Delete? && ActsAt(states[j], steps[j], a)
  {
    StartOfRun(states, steps);
    if i > 0 {
      var k := i - 1;
      ActsAreRecorded(states, steps, k, a);
      StepOfRun(states, steps, k);
      hide IsRun, Inv;
      assert a in states[i].alerts <==> a in states[k].alerts || (steps[k].Alert? && ActsAt(states[k], steps[k], a));
      assert a in states[i].deletions <==> a in states[k].deletions || (steps[k].Delete? && ActsAt(states[k], steps[k], a));
    }
  }

  // The run that shows it: two messages of one tenant, both audited at the same time.

  const FIRST := Message("1", "t")
  const SECOND := Message("2", "t")
  const FIRST_ATTEMPT := Attempt(FIRST, 1)
  const SECOND_ATTEMPT := Attempt(SECOND, 1)
  const SHARED_KEY := Key("t", 7)

  const ARRIVED1 := START.(pending := {FIRST}, receives := map[FIRST := 0])
  const ARRIVED2 := START.(pending := {FIRST, SECOND}, receives := map[FIRST := 0, SECOND := 0])
  const RECEIVED1 := ARRIVED2.(receives := map[FIRST := 1, SECOND := 0], workers := map[0 := Working(FIRST_ATTEMPT, true)])
  const RECEIVED2 := ARRIVED2.(receives := map[FIRST := 1, SECOND := 1],
                               workers := map[0 := Working(FIRST_ATTEMPT, true), 1 := Working(SECOND_ATTEMPT, true)])
  const PUT1 := RECEIVED2.(workers := map[0 := Recorded(FIRST_ATTEMPT), 1 := Working(SECOND_ATTEMPT, true)],
                           audit := map[SHARED_KEY := FIRST_ATTEMPT], puts := map[FIRST_ATTEMPT := SHARED_KEY])
  const PUT2 := PUT1.(workers := map[0 := Recorded(FIRST_ATTEMPT), 1 := Recorded(SECOND_ATTEMPT)],
                      puts := map[FIRST_ATTEMPT := SHARED_KEY, SECOND_ATTEMPT := SHARED_KEY])
  const DELETED := PUT2.(pending := {FIRST}, deletions := {SECOND_ATTEMPT}, workers := map[0 := Recorded(FIRST_ATTEMPT)])

  predicate Leads(s: State, step: Step, t: State) {
    Enabled(s, step) && After(s, step) == t
  }

  lemma MessagesDiffer()
    ensures FIRST != SECOND && FIRST_ATTEMPT != SECOND_ATTEMPT
  {
    assert FIRST.id[0] != SECOND.id[0];
  }

  lemma Arrivals()
    ensures Leads(START, Arrive(FIRST), ARRIVED1) && Leads(ARRIVED1, Arrive(SECOND), ARRIVED2)
  {
    MessagesDiffer();
  }

  lemma FirstReceive()
    ensures Leads(ARRIVED2, Receive(0, FIRST, true), RECEIVED1)
  {
    MessagesDiffer();
  }

  lemma SecondReceive()
    ensures Leads(RECEIVED1, Receive(1, SECOND, true), RECEIVED2)
  {
    MessagesDiffer();
  }

  lemma FirstPut()
    ensures Leads(RECEIVED2, Put(0, 7), PUT1)
  {
    MessagesDiffer();
  }

  lemma SecondPut()
    ensures Leads(PUT1, Put(1, 7), PUT2)
  {
    MessagesDiffer();
  }

  lemma TheDeletion()
    ensures Leads(PUT2, Delete(1), DELETED)
  {
    MessagesDiffer();
  }

  /** Two jobs of one tenant audited in the same microsecond: the second is deleted without an item of its own. */
  lemma CollisionLosesTheItem() returns (states: seq<State>, steps: seq<Step>)
    ensures IsRun(states, steps) && LostItsItem(states[|states| - 1], SECOND_ATTEMPT)
  {
    hide Enabled, After, ARRIVED1, ARRIVED2, RECEIVED1, RECEIVED2, PUT1, PUT2;
    states := [START, ARRIVED1, ARRIVED2, RECEIVED1, RECEIVED2, PUT1, PUT2, DELETED];
    steps := [Arrive(FIRST), Arrive(SECOND), Receive(0, FIRST, true), Receive(1, SECOND, true), Put(0, 7), Put(1, 7), Delete(1)];
    Arrivals();
    FirstReceive();
    SecondReceive();
    FirstPut();
    SecondPut();
    TheDeletion();
    TheLoss();
    hide DELETED;
  }

  lemma TheLoss()
    ensures LostItsItem(DELETED, SECOND_ATTEMPT)
  {
    MessagesDiffer();
  }
}
