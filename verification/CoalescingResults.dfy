/** The promises of coalescing to callers and to the upstream: one fetch at a time per key,
    every response traced to a fetch, bounded staleness, no lasting failure. */
module CoalescingResults {
  import opened Wrappers
  import opened LruSpec
  import opened Coalescing
  import opened CoalescingTheorems

  // ---------- Safety ----------

  /** At most one fetch per key is unfinished. */
  lemma OneUnfinishedFetchPerKey(s: State, p: nat, q: nat, k: string)
    requires Reachable(s) && p < |s.promises| && q < |s.promises|
    requires s.promises[p].outcome.None? && AsksFor(s, s.promises[p].owner, k)
    requires s.promises[q].outcome.None? && AsksFor(s, s.promises[q].owner, k)
    ensures p == q
  {
    ReachableInv(s);
    assert Awaited(s, p) && Awaited(s, q);
    assert Placed(s, s.promises[p].owner) && Placed(s, s.promises[q].owner);
  }

  ghost predicate Fetches(s: State, r: nat, k: string) {
    AsksFor(s, r, k) && s.requests[r].status.Fetching?
  }

  /** A key is registered exactly while one designated fetcher for it is suspended, under the
      promise which that fetcher awaits, and then it is not in the cache. */
  lemma InflightIsOneFetcher(s: State, k: string)
    requires Reachable(s)
    ensures k in s.inflight <==> exists r: nat :: Fetches(s, r, k)
    ensures forall r: nat :: Fetches(s, r, k) ==>
              k in s.inflight && s.requests[r].status.promise == s.inflight[k]
              && OwnedBy(s, s.inflight[k], r)
    ensures k in s.inflight ==> Lookup(s.cache.entries, k).None?
  {
    ReachableInv(s);
    if k in s.inflight {
      assert EntryHasFetcher(s, k);
      assert Fetches(s, s.promises[s.inflight[k]].owner, k);
    }
    forall r: nat | Fetches(s, r, k)
      ensures k in s.inflight && s.requests[r].status.promise == s.inflight[k] && OwnedBy(s, s.inflight[k], r)
    {
      assert Placed(s, r);
    }
  }

  /** The `finally` block deletes the entry its own call made, and no other. */
  lemma FinallyDeletesOwnEntry(s: State, r: nat, now: int)
    requires Reachable(s) && Enabled(s, Resume(r, now)) && s.requests[r].status.Fetching?
    ensures var k := s.requests[r].key; var t := Resumption(s, r, now);
            && k in s.inflight && s.inflight[k] == s.requests[r].status.promise
            && k !in t.inflight
            && (forall l :: l != k ==> (l in t.inflight <==> l in s.inflight))
            && (forall l :: l in t.inflight ==> t.inflight[l] == s.inflight[l])
  {
    ReachableInv(s);
    assert Placed(s, r);
  }

  // ---------- One upstream call, however many clients ----------

  /** The fetches started so far for key k. */
  ghost function FetchesFor(s: State, k: string): set<nat> {
    set p | 0 <= p < |s.promises| && AsksFor(s, s.promises[p].owner, k)
  }

  /** Request q is attached to promise p, or ended with its outcome. */
  ghost predicate Joined(s: State, q: nat, p: nat)
    requires q < |s.requests|
  {
    match s.requests[q].status
    case Waiting(p') => p' == p
    case Done(Coalesced(response, p'), _) =>
      p' == p < |s.promises| && s.promises[p].outcome == Some(Resolved(response))
    case Done(Failed(p'), _) => p' == p < |s.promises| && s.promises[p].outcome == Some(Rejected)
    case _ => false
  }

  lemma JoinedStays(s: State, e: Event, q: nat, p: nat)
    requires Enabled(s, e) && q < |s.requests| && p < |s.promises| && Joined(s, q, p)
    ensures q < |Step(s, e).requests| && p < |Step(s, e).promises| && Joined(Step(s, e), q, p)
  {
    StepGrows(s, e);
    var t := Step(s, e);
    assert SameRequest(s.requests[q], t.requests[q]) && SamePromise(s.promises[p], t.promises[p]);
  }

  lemma FlightAddsNoFetch(s: State, e: Event, r: nat, k: string)
    requires Inv(s) && Enabled(s, e) && Fetches(s, r, k)
    ensures FetchesFor(Step(s, e), k) == FetchesFor(s, k)
  {
    var t := Step(s, e);
    assert Placed(s, r);
    StepGrows(s, e);
    forall i | 0 <= i < |t.promises|
      ensures i in FetchesFor(t, k) <==> i in FetchesFor(s, k)
    {
      if i < |s.promises| {
        assert Awaited(s, i) && SamePromise(s.promises[i], t.promises[i]);
        assert SameRequest(s.requests[s.promises[i].owner], t.requests[s.promises[i].owner]);
      }
    }
  }

  lemma FlightStep(s: State, e: Event, r: nat, p: nat, k: string)
    requires Inv(s) && Enabled(s, e)
    requires Fetches(s, r, k) && s.requests[r].status == Fetching(p)
    requires e.Resume? ==> e.request != r
    ensures var t := Step(s, e);
            && Fetches(t, r, k) && t.requests[r].status == Fetching(p)
            && (forall q :: |s.requests| <= q < |t.requests| && AsksFor(t, q, k) ==> Joined(t, q, p))
  {
    assert Placed(s, r);
    if e.Arrive? && e.cacheable && e.key == k {
      LookupAfterGet(s.cache, k, e.now, k);
      assert Get(s.cache, k, e.now).1.None?;
    }
  }

  lemma {:induction false} FlightRun(s: State, events: seq<Event>, r: nat, p: nat, k: string, first: nat)
    requires Inv(s) && Possible(s, events)
    requires Fetches(s, r, k) && s.requests[r].status == Fetching(p)
    requires first <= |s.requests|
    requires forall q :: first <= q < |s.requests| && AsksFor(s, q, k) ==> Joined(s, q, p)
    requires forall e :: e in events && e.Resume? ==> e.request != r
    ensures var t := After(s, events);
            && FetchesFor(t, k) == FetchesFor(s, k)
            && (forall q :: first <= q < |t.requests| && AsksFor(t, q, k) ==> Joined(t, q, p))
    decreases |events|
  {
    if events != [] {
      var e, t := events[0], Step(s, events[0]);
      FlightAddsNoFetch(s, e, r, k);
      FlightStep(s, e, r, p, k);
      StepGrows(s, e);
      StepKeepsInv(s, e);
      assert Placed(s, r);
      forall q | first <= q < |t.requests| && AsksFor(t, q, k) ensures Joined(t, q, p) {
        if q < |s.requests| {
          assert SameRequest(s.requests[q], t.requests[q]);
          JoinedStays(s, e, q, p);
        }
      }
      FlightRun(t, events[1..], r, p, k, first);
    }
  }

  /** While a fetch for k is under way, up to its fetcher's resumption, any number of calls for
      k start no further fetch: each attaches to that fetch and ends with its outcome. */
  lemma SingleFlight(s: State, events: seq<Event>, r: nat, k: string)
    requires Reachable(s) && Possible(s, events) && Fetches(s, r, k)
    requires forall e :: e in events && e.Resume? ==> e.request != r
    ensures var t := After(s, events);
            && FetchesFor(t, k) == FetchesFor(s, k)
            && (forall q :: |s.requests| <= q < |t.requests| && AsksFor(t, q, k) ==>
                  Joined(t, q, s.requests[r].status.promise))
  {
    ReachableInv(s);
    FlightRun(s, events, r, s.requests[r].status.promise, k, |s.requests|);
  }

  // ---------- Provenance and staleness ----------

  /** Promise p, made for a call like request r, resolved to `response`. */
  predicate Fetched(s: State, p: nat, r: nat, response: Response) {
    && p < |s.promises| && r < |s.requests| && s.promises[p].owner < |s.requests|
    && s.promises[p].outcome == Some(Resolved(response))
    && s.requests[s.promises[p].owner].key == s.requests[r].key
    && s.requests[s.promises[p].owner].cacheable == s.requests[r].cacheable
  }

  /** Every response a call returns is one that an upstream fetch for its key produced: its own
      for a miss, the one it attached to when coalesced. A failure is that fetch's rejection. */
  lemma ResponseProvenance(s: State, r: nat)
    requires Reachable(s) && r < |s.requests| && s.requests[r].status.Done?
    ensures var result := s.requests[r].status.result;
            match result
            case Miss(response, p) => OwnedBy(s, p, r) && Fetched(s, p, r, response)
            case Coalesced(response, p) => !OwnedBy(s, p, r) && Fetched(s, p, r, response)
            case Hit(response) =>
              s.requests[r].cacheable && exists p :: Fetched(s, p, r, response) && !OwnedBy(s, p, r)
            case Failed(p) => p < |s.promises| && s.promises[p].outcome == Some(Rejected)
  {
    ReachableInv(s);
    assert ResultSound(s, r);
    if s.requests[r].status.result.Hit? {
      var p := HitFetch(s, r);
    }
  }

  /** The fetch whose response a hit repeats is not the hit's own. */
  lemma HitFetch(s: State, r: nat) returns (p: nat)
    requires Inv(s) && r < |s.requests| && s.requests[r].status.Done? && s.requests[r].status.result.Hit?
    ensures Fetched(s, p, r, s.requests[r].status.result.response) && !OwnedBy(s, p, r)
  {
    var w := HitSource(s, r);
    assert ResultSound(s, w);
    p := s.requests[w].status.result.promise;
  }

  lemma HitSource(s: State, r: nat) returns (w: nat)
    requires Inv(s) && r < |s.requests| && s.requests[r].status.Done? && s.requests[r].status.result.Hit?
    ensures w < |s.requests| && s.requests[w].status.Done?
    ensures StoredBy(s, w, s.requests[r].key, s.requests[r].status.result.response,
                     ExpiresAt(s.requests[w].ttl, s.cache.defaultTtlMs, s.requests[w].status.at))
    ensures !Expired(s.requests[r].status.at,
                     ExpiresAt(s.requests[w].ttl, s.cache.defaultTtlMs, s.requests[w].status.at))
  {
    assert ResultSound(s, r);
    var req := s.requests[r];
    var w', x :| StoredBy(s, w', req.key, req.status.result.response, x) && !Expired(req.status.at, x);
    w := w';
  }

  /** A hit repeats a response below 400 that a fetch for the same key returned, stored no
      longer ago than the lifetime it was stored with. */
  lemma HitIsFresh(s: State, r: nat) returns (w: nat)
    requires Reachable(s) && r < |s.requests| && s.requests[r].status.Done? && s.requests[r].status.result.Hit?
    ensures AsksFor(s, w, s.requests[r].key) && s.requests[w].status.Done?
    ensures s.requests[w].status.result.Miss?
    ensures s.requests[w].status.result.response == s.requests[r].status.result.response
    ensures s.requests[r].status.result.response.statusCode < 400
    ensures match Lifetime(s.requests[w].ttl, s.cache.defaultTtlMs)
            case Some(ms) => s.requests[r].status.at - s.requests[w].status.at <= ms
            case None => true
  {
    ReachableInv(s);
    w := HitSource(s, r);
  }

  // ---------- What the cache returns ----------

  /** A designated fetcher leaves its key in the cache exactly if its fetch resolved with a
      status below 400, whoever asked and whatever lifetime was asked for; the entry then holds
      that response. */
  lemma FetcherStoresIff(s: State, r: nat, now: int)
    requires Reachable(s) && Enabled(s, Resume(r, now)) && s.requests[r].status.Fetching?
    ensures var req, outcome := s.requests[r], s.promises[s.requests[r].status.promise].outcome.value;
            var found := Lookup(Resumption(s, r, now).cache.entries, req.key);
            && (found.Some? <==> outcome.Resolved? && outcome.response.statusCode < 400)
            && (found.Some? ==>
                  found.value == Entry(req.key, outcome.response, ExpiresAt(req.ttl, s.cache.defaultTtlMs, now)))
  {
    ReachableInv(s);
    assert Placed(s, r);
  }

  /** The event is a fetcher of key k storing its response. */
  predicate Stores(s: State, e: Event, k: string)
    requires Enabled(s, e)
  {
    e.Resume? && var req := s.requests[e.request];
    && req.status.Fetching? && req.key == k
    && var outcome := s.promises[req.status.promise].outcome.value;
       outcome.Resolved? && outcome.response.statusCode < 400
  }

  ghost predicate NeverStores(s: State, events: seq<Event>, k: string)
    requires Possible(s, events)
    decreases |events|
  {
    events == [] || (!Stores(s, events[0], k) && NeverStores(Step(s, events[0]), events[1..], k))
  }

  predicate IsHit(s: State, q: nat) {
    q < |s.requests| && s.requests[q].status.Done? && s.requests[q].status.result.Hit?
  }

  /** The cache holds nothing but `v` for key k, and each hit on k from call `first` on was `v`. */
  ghost predicate Serves(s: State, k: string, v: Response, first: nat) {
    && (forall e :: e in s.cache.entries && e.key == k ==> e.value == v)
    && (forall q :: first <= q < |s.requests| && AsksFor(s, q, k) && IsHit(s, q) ==>
          s.requests[q].status.result.response == v)
  }

  lemma StepServes(s: State, e: Event, k: string, v: Response, first: nat)
    requires Enabled(s, e) && !Stores(s, e, k) && Serves(s, k, v, first)
    ensures Serves(Step(s, e), k, v, first)
  {
    match e
    case Arrive(cacheable, key, _, now) =>
      if cacheable {
        LookupAfterGet(s.cache, key, now, key);
      }
    case Settle(_, _) =>
    case Resume(r, now) =>
      var req, outcome := s.requests[r], s.promises[s.requests[r].status.promise].outcome.value;
      if req.status.Fetching? && outcome.Resolved? && outcome.response.statusCode < 400 {
        LookupAfterPut(s.cache, req.key, outcome.response, req.ttl, now, k);
      }
  }

  lemma {:induction false} RunServes(s: State, events: seq<Event>, k: string, v: Response, first: nat)
    requires Possible(s, events) && NeverStores(s, events, k) && Serves(s, k, v, first)
    ensures Serves(After(s, events), k, v, first)
    decreases |events|
  {
    if events != [] {
      StepServes(s, events[0], k, v, first);
      RunServes(Step(s, events[0]), events[1..], k, v, first);
    }
  }

  /** Once a fetcher has stored a response, every hit on its key returns that response until
      another one is stored for the key, whatever is evicted, expires or arrives. */
  lemma HitsRepeatLastStored(s: State, r: nat, now: int, events: seq<Event>, q: nat)
    requires Reachable(s) && Enabled(s, Resume(r, now)) && Stores(s, Resume(r, now), s.requests[r].key)
    requires Possible(Resumption(s, r, now), events)
    requires NeverStores(Resumption(s, r, now), events, s.requests[r].key)
    requires var t := After(Resumption(s, r, now), events);
             |s.requests| <= q < |t.requests| && AsksFor(t, q, s.requests[r].key) && IsHit(t, q)
    ensures After(Resumption(s, r, now), events).requests[q].status.result.response
            == s.promises[s.requests[r].status.promise].outcome.value.response
  {
    var k, v := s.requests[r].key, s.promises[s.requests[r].status.promise].outcome.value.response;
    var t := Resumption(s, r, now);
    FetcherStoresIff(s, r, now);
    ReachableInv(s);
    ResumptionKeepsCache(s, r, now);
    forall e | e in t.cache.entries && e.key == k ensures e.value == v {
      var i :| 0 <= i < |t.cache.entries| && t.cache.entries[i] == e;
      LookupAt(t.cache.entries, i);
    }
    RunServes(t, events, k, v, |s.requests|);
  }

  // ---------- The fate of a call that joins ----------

  lemma {:induction false} JoinedRun(s: State, events: seq<Event>, q: nat, p: nat)
    requires Possible(s, events) && q < |s.requests| && p < |s.promises| && Joined(s, q, p)
    ensures q < |After(s, events).requests| && Joined(After(s, events), q, p)
    decreases |events|
  {
    if events != [] {
      JoinedStays(s, events[0], q, p);
      JoinedRun(Step(s, events[0]), events[1..], q, p);
    }
  }

  /** A call that arrives while its key is registered ends, whatever happens next, with the
      outcome of the very promise that was registered then. */
  lemma CoalescedOutcome(s: State, key: string, ttl: Ttl, now: int, events: seq<Event>)
    requires Reachable(s) && key in s.inflight
    requires Possible(Arrival(s, true, key, ttl, now), events)
    ensures var t := After(Arrival(s, true, key, ttl, now), events);
            |s.requests| < |t.requests| && Joined(t, |s.requests|, s.inflight[key])
  {
    ReachableInv(s);
    assert EntryHasFetcher(s, key);
    LookupAfterGet(s.cache, key, now, key);
    JoinedRun(Arrival(s, true, key, ttl, now), events, |s.requests|, s.inflight[key]);
  }

  // ---------- A failed fetch leaves nothing behind ----------

  /** Request r is suspended on promise p, or ended with its outcome. */
  ghost predicate EndsWith(s: State, r: nat, p: nat)
    requires r < |s.requests|
  {
    match s.requests[r].status
    case Done(Hit(_), _) => false
    case Done(Failed(p'), _) => p' == p < |s.promises| && s.promises[p].outcome == Some(Rejected)
    case Done(result, _) =>
      result.promise == p < |s.promises| && s.promises[p].outcome == Some(Resolved(result.response))
    case suspended => suspended.promise == p < |s.promises|
  }

  lemma {:induction false} EndsWithRun(s: State, events: seq<Event>, r: nat, p: nat)
    requires Possible(s, events) && r < |s.requests| && EndsWith(s, r, p)
    ensures r < |After(s, events).requests| && EndsWith(After(s, events), r, p)
    decreases |events|
  {
    if events != [] {
      var t := Step(s, events[0]);
      StepGrows(s, events[0]);
      assert SameRequest(s.requests[r], t.requests[r]) && SamePromise(s.promises[p], t.promises[p]);
      EndsWithRun(t, events[1..], r, p);
    }
  }

  /** A call suspended on a promise, as its own fetch or attached to another's, fails if and only
      if that very promise is rejected, and otherwise returns its response, whatever else
      happens in the meantime. */
  lemma RejectionFailsExactlyItsOwn(s: State, r: nat, p: nat, events: seq<Event>)
    requires Reachable(s) && r < |s.requests| && !s.requests[r].status.Done?
    requires p == s.requests[r].status.promise && Possible(s, events)
    ensures var t := After(s, events);
            r < |t.requests| && p < |t.promises|
            && (t.requests[r].status.Done? ==>
                  var result := t.requests[r].status.result;
                  && !result.Hit? && result.promise == p
                  && (result.Failed? <==> t.promises[p].outcome == Some(Rejected))
                  && (!result.Failed? ==> t.promises[p].outcome == Some(Resolved(result.response))))
  {
    ReachableInv(s);
    assert Placed(s, r);
    EndsWithRun(s, events, r, p);
  }

  lemma {:induction false} StaysUnregistered(s: State, events: seq<Event>, k: string)
    requires Possible(s, events) && k !in s.inflight
    requires forall e :: e in events && e.Arrive? ==> e.key != k
    ensures k !in After(s, events).inflight
    decreases |events|
  {
    if events != [] {
      assert events[0] in events;
      StaysUnregistered(Step(s, events[0]), events[1..], k);
    }
  }

  /** Once a fetcher has resumed, however its fetch ended, the first later call for the key is
      served from the cache or starts a fresh fetch; it never joins the finished one. */
  lemma NoPoisoning(s: State, r: nat, now: int, events: seq<Event>, ttl: Ttl, later: int)
    requires Reachable(s) && Enabled(s, Resume(r, now)) && s.requests[r].status.Fetching?
    requires Possible(Resumption(s, r, now), events)
    requires forall e :: e in events && e.Arrive? ==> e.key != s.requests[r].key
    ensures var k := s.requests[r].key;
            var t := After(Resumption(s, r, now), events);
            var last := Arrival(t, true, k, ttl, later).requests[|t.requests|].status;
            match Get(t.cache, k, later).1
            case Some(response) => last == Done(Hit(response), later)
            case None => last == Fetching(|t.promises|)
  {
    FinallyDeletesOwnEntry(s, r, now);
    StaysUnregistered(Resumption(s, r, now), events, s.requests[r].key);
  }
}
