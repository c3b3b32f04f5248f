/**
 The sliding-window limiter of src/ai_engine/app/main.py.  The source keeps, per tenant, a list of
 admission times that it prunes at every request; it is proved against a rule that never prunes.
 */
module RateLimiter {
  import opened Wrappers

  const RATE_LIMIT_PER_MIN := 600
  const WINDOW_SECONDS: real := 60.0

  datatype Request = Request(tenant: string, now: real)

  /** The times less than a minute before now. */
  function Recent(times: seq<real>, now: real): (r: seq<real>)
    ensures |r| <= |times|
  {
    if |times| == 0 then []
    else
      var before := Recent(times[..|times| - 1], now);
      var t := times[|times| - 1];
      if now - t < WINDOW_SECONDS then before + [t] else before
  }

  // ---- The rule, over the whole history ----

  /** The admission times of a tenant: a request is admitted when fewer than 600 were in the last minute. */
  function Admissions(history: seq<Request>, tenant: string): seq<real> {
    if |history| == 0 then []
    else
      var before := Admissions(history[..|history| - 1], tenant);
      var r := history[|history| - 1];
      if r.tenant == tenant && |Recent(before, r.now)| < RATE_LIMIT_PER_MIN then before + [r.now] else before
  }

  predicate Admitted(history: seq<Request>, r: Request) {
    |Recent(Admissions(history, r.tenant), r.now)| < RATE_LIMIT_PER_MIN
  }

  /** The places of the times that fall in the 60 seconds from start on. */
  function PlacesIn(times: seq<real>, start: real): set<nat> {
    set i: nat | i < |times| && start <= times[i] < start + 60.0
  }

  lemma PlacesInStep(times: seq<real>, start: real)
    requires |times| > 0
    ensures |PlacesIn(times, start)|
         == |PlacesIn(times[..|times| - 1], start)| + if start <= times[|times| - 1] < start + 60.0 then 1 else 0
  {
    var k := |times| - 1;
    assert PlacesIn(times, start)
        == PlacesIn(times[..k], start) + if start <= times[k] < start + 60.0 then {k} else {};
  }

  lemma {:induction false} PlacesAreRecent(times: seq<real>, start: real, now: real)
    requires now < start + 60.0
    ensures |PlacesIn(times, start)| <= |Recent(times, now)|
  {
    if |times| == 0 {
      assert PlacesIn(times, start) == {};
    } else {
      PlacesAreRecent(times[..|times| - 1], start, now);
      PlacesInStep(times, start);
      hide PlacesIn;
    }
  }

  lemma {:induction false} RecentMeaning(times: seq<real>, now: real)
    ensures |Recent(times, now)| == |set i: nat | i < |times| && now - times[i] < 60.0|
  {
    var places := set i: nat | i < |times| && now - times[i] < 60.0;
    if |times| == 0 {
      assert places == {};
    } else {
      var k := |times| - 1;
      RecentMeaning(times[..k], now);
      var before := set i: nat | i < k && now - times[..k][i] < 60.0;
      assert places == before + if now - times[k] < 60.0 then {k} else {};
    }
  }

  /** A request is admitted exactly when fewer than 600 of its tenant were admitted less than 60 seconds ago. */
  lemma AdmittedExactlyWhen(history: seq<Request>, r: Request)
    ensures var log := Admissions(history, r.tenant);
            Admitted(history, r) <==> |set i: nat | i < |log| && r.now - log[i] < 60.0| < 600
  {
    RecentMeaning(Admissions(history, r.tenant), r.now);
  }

  /** No tenant is ever admitted more than 600 times in any minute, wherever the minute starts. */
  lemma {:induction false} NeverMoreThanLimit(history: seq<Request>, tenant: string, start: real)
    ensures |PlacesIn(Admissions(history, tenant), start)| <= 600
  {
    if |history| == 0 {
      assert PlacesIn([], start) == {};
    } else {
      var k := |history| - 1;
      NeverMoreThanLimit(history[..k], tenant, start);
      var before := Admissions(history[..k], tenant);
      var now := history[k].now;
      if Admissions(history, tenant) != before {
        assert Admissions(history, tenant)[..|before|] == before;
        PlacesInStep(Admissions(history, tenant), start);
        if start <= now < start + 60.0 {
          PlacesAreRecent(before, start, now);
        }
      }
      hide PlacesIn;
    }
  }

  function OnlyOf(history: seq<Request>, tenant: string): seq<Request> {
    if |history| == 0 then []
    else
      var before := OnlyOf(history[..|history| - 1], tenant);
      var r := history[|history| - 1];
      if r.tenant == tenant then before + [r] else before
  }

  /** What is admitted for a tenant depends on that tenant's requests alone. */
  lemma {:induction false} TenantsAreIsolated(history: seq<Request>, tenant: string)
    ensures Admissions(history, tenant) == Admissions(OnlyOf(history, tenant), tenant)
  {
    if |history| == 0 {
    } else {
      var k := |history| - 1;
      TenantsAreIsolated(history[..k], tenant);
      var own := OnlyOf(history[..k], tenant);
      if history[k].tenant == tenant {
        assert (own + [history[k]])[..|own|] == own;
      }
    }
  }

  /** Replacing the traffic of other tenants never changes a verdict. */
  lemma OtherTrafficIsIrrelevant(history: seq<Request>, other: seq<Request>, r: Request)
    requires OnlyOf(history, r.tenant) == OnlyOf(other, r.tenant)
    ensures Admitted(history, r) == Admitted(other, r)
  {
    TenantsAreIsolated(history, r.tenant);
    TenantsAreIsolated(other, r.tenant);
  }

  // ---- The pruned lists ----

  lemma {:induction false} PruningLosesNothing(times: seq<real>, then_: real, now: real)
    requires then_ <= now
    ensures Recent(Recent(times, then_), now) == Recent(times, now)
  {
    if |times| == 0 {
    } else {
      var k := |times| - 1;
      PruningLosesNothing(times[..k], then_, now);
      var before := Recent(times[..k], then_);
      if then_ - times[k] < WINDOW_SECONDS {
        assert (before + [times[k]])[..|before|] == before;
      }
    }
  }

  lemma RecentOfExtended(times: seq<real>, t: real, now: real)
    ensures Recent(times + [t], now) == Recent(times, now) + if now - t < WINDOW_SECONDS then [t] else []
  {
    assert (times + [t])[..|times|] == times;
  }

  /** The list that a request leaves behind counts like the log with that request. */
  lemma ListStillCounts(history: seq<Request>, r: Request, kept: seq<real>, later: real)
    requires kept == Recent(Admissions(history, r.tenant), r.now) && r.now <= later
    ensures Recent(if |kept| >= RATE_LIMIT_PER_MIN then kept else kept + [r.now], later)
         == Recent(Admissions(history + [r], r.tenant), later)
  {
    var log := Admissions(history, r.tenant);
    LogGrows(history, r, r.tenant);
    PruningLosesNothing(log, r.now, later);
    RecentOfExtended(kept, r.now, later);
    RecentOfExtended(log, r.now, later);
    hide Recent, Admissions;
  }

  lemma LogGrows(history: seq<Request>, r: Request, tenant: string)
    ensures Admissions(history + [r], tenant)
         == if r.tenant == tenant && Admitted(history, r) then Admissions(history, tenant) + [r.now]
            else Admissions(history, tenant)
  {
    assert (history + [r])[..|history|] == history;
    hide Recent;
  }

  type Counts = map<string, seq<real>>

  function Kept(counts: Counts, tenant: string): seq<real> {
    if tenant in counts then counts[tenant] else []
  }

  /** The lists stay bounded, and from now on they count exactly like the full admission logs. */
  ghost predicate CountLike(counts: Counts, history: seq<Request>, clock: real) {
    && (forall tenant :: |Kept(counts, tenant)| <= RATE_LIMIT_PER_MIN)
    && forall tenant, now :: clock <= now ==>
         Recent(Kept(counts, tenant), now) == Recent(Admissions(history, tenant), now)
  }

  /** The list of a tenant after a request of it. */
  function Noted(counts: Counts, r: Request): seq<real> {
    var kept := Recent(Kept(counts, r.tenant), r.now);
    if |kept| >= RATE_LIMIT_PER_MIN then kept else kept + [r.now]
  }

  /** Pruning and noting one request keeps every list counting like its log. */
  lemma NotingKeepsCounts(counts: Counts, history: seq<Request>, clock: real, r: Request)
    requires CountLike(counts, history, clock) && clock <= r.now
    ensures CountLike(counts[r.tenant := Noted(counts, r)], history + [r], r.now)
    ensures |Recent(Kept(counts, r.tenant), r.now)| < RATE_LIMIT_PER_MIN <==> Admitted(history, r)
  {
    hide Recent, Admissions;
    var after := counts[r.tenant := Noted(counts, r)];
    var kept := Recent(Kept(counts, r.tenant), r.now);
    assert kept == Recent(Admissions(history, r.tenant), r.now);
    forall tenant, later | r.now <= later
      ensures Recent(Kept(after, tenant), later) == Recent(Admissions(history + [r], tenant), later)
    {
      if tenant == r.tenant {
        ListStillCounts(history, r, kept, later);
      } else {
        LogGrows(history, r, tenant);
        assert Kept(after, tenant) == Kept(counts, tenant);
        assert Recent(Kept(counts, tenant), later) == Recent(Admissions(history, tenant), later);
      }
    }
    assert |kept| <= |Kept(counts, r.tenant)| <= RATE_LIMIT_PER_MIN;
    assert |Noted(counts, r)| <= RATE_LIMIT_PER_MIN;
    assert forall tenant :: tenant != r.tenant ==> Kept(after, tenant) == Kept(counts, tenant);
  }

  lemma NothingCounted(clock: real)
    ensures CountLike(map[], [], clock)
  {
  }

  class Limiter {
    var requestCounts: Counts

    /** Every request that carried a tenant, and the last time at which one was handled. */
    ghost var history: seq<Request>
    ghost var clock: real

    ghost predicate Valid()
      reads this
    {
      (history == [] ==> requestCounts == map[]) && CountLike(requestCounts, history, clock)
    }

    constructor ()
      ensures Valid() && history == [] && requestCounts == map[]
    {
      requestCounts := map[];
      history := [];
      clock := 0.0;
      NothingCounted(0.0);
    }

    /** The middleware: true when the request is passed on, false when it is answered with 429. */
    method Handle(header: Option<string>, now: real) returns (pass: bool)
      requires Valid() && (history == [] || clock <= now)
      modifies this
      ensures Valid()
      ensures header.None? || header.value == "" ==>
                pass && history == old(history) && requestCounts == old(requestCounts)
      ensures header.Some? && header.value != "" ==>
                var r := Request(header.value, now);
                && history == old(history) + [r] && clock == now
                && pass == Admitted(old(history), r)
    {
      hide CountLike, Recent, Admitted;
      pass := true;
      if header.Some? && header.value != "" {
        var tenant := header.value;
        ghost var r := Request(tenant, now);
        ghost var counts := requestCounts;
        if history == [] {
          NothingCounted(now);
        }
        NotingKeepsCounts(counts, history, if history == [] then now else clock, r);
        requestCounts := requestCounts[tenant := Recent(Kept(requestCounts, tenant), now)];
        if |requestCounts[tenant]| >= RATE_LIMIT_PER_MIN {
          pass := false;
        } else {
          requestCounts := requestCounts[tenant := requestCounts[tenant] + [now]];
        }
        assert requestCounts == counts[tenant := Noted(counts, r)];
        history := history + [r];
        clock := now;
      }
    }
  }
}
