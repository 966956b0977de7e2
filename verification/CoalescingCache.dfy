/** The cache behind coalescing is an LRU cache that sees one get per cacheable call and one put per
    stored response, so that what the cache promises holds for `getOrFetch`. */
module CoalescingCache {
  import opened Wrappers
  import opened LruSpec
  import opened Coalescing
  import opened CoalescingTheorems
  import CR = CoalescingResults
  import LT = LruTheorems
  import LE = LruExpiry

  /** What an event does to the cache: a cacheable call looks its key up, and a designated fetcher
      whose fetch resolved below 400 stores the response with its own lifetime. */
  function CacheOps(s: State, e: Event): seq<Op<string, Response>>
    requires Enabled(s, e)
  {
    match e
    case Arrive(cacheable, key, _, now) => if cacheable then [DoGet(key, now)] else []
    case Settle(_, _) => []
    case Resume(r, now) =>
      var req := s.requests[r];
      match (req.status, s.promises[req.status.promise].outcome.value)
      case (Fetching(_), Resolved(response)) =>
        if response.statusCode < 400 then [DoPut(req.key, response, req.ttl, now)] else []
      case _ => []
  }

  ghost function AllCacheOps(s: State, events: seq<Event>): seq<Op<string, Response>>
    requires Possible(s, events)
    decreases |events|
  {
    if events == [] then [] else CacheOps(s, events[0]) + AllCacheOps(Step(s, events[0]), events[1..])
  }

  lemma StepIsCacheOps(s: State, e: Event)
    requires Enabled(s, e)
    ensures Step(s, e).cache == Run(s.cache, CacheOps(s, e))
  {
    if CacheOps(s, e) != [] {
      assert CacheOps(s, e)[1..] == [];
    }
  }

  lemma {:induction false} RunsJoin(c: Cache<string, Response>, a: seq<Op<string, Response>>,
                                    b: seq<Op<string, Response>>)
    ensures Run(c, a + b) == Run(Run(c, a), b)
    decreases |a|
  {
    if a == [] {
      assert a + b == b;
    } else {
      assert (a + b)[0] == a[0] && (a + b)[1..] == a[1..] + b;
      RunsJoin(Apply(c, a[0]), a[1..], b);
    }
  }

  /** After any run, whatever interleaving, the cache is the LRU cache after exactly those gets and
      puts, in that order. */
  lemma {:induction false} CacheIsRun(s: State, events: seq<Event>)
    requires Possible(s, events)
    ensures After(s, events).cache == Run(s.cache, AllCacheOps(s, events))
    decreases |events|
  {
    if events != [] {
      var t := Step(s, events[0]);
      StepIsCacheOps(s, events[0]);
      CacheIsRun(t, events[1..]);
      RunsJoin(s.cache, CacheOps(s, events[0]), AllCacheOps(t, events[1..]));
    }
  }

  // ---------- A stored response is served ----------

  /** The cache is used, but this key only by lookups within the lifetime of what was stored at
      time `at`, and with fewer than `capacity` distinct other keys. */
  ghost predicate Undisturbed(s: State, events: seq<Event>, key: string, ttl: Ttl, at: int)
    requires Possible(s, events)
  {
    var ops := AllCacheOps(s, events);
    && (forall op :: op in ops ==> LE.Honours(op, key, ttl, s.cache.defaultTtlMs, at))
    && |LT.Touched(s.cache, ops) - {key}| < s.cache.capacity
  }

  lemma StoredStays(s: State, r: nat, at: int, events: seq<Event>, now: int)
    requires Inv(s) && Enabled(s, Resume(r, at)) && CR.Stores(s, Resume(r, at), s.requests[r].key)
    requires Possible(Resumption(s, r, at), events)
    requires Undisturbed(Resumption(s, r, at), events, s.requests[r].key, s.requests[r].ttl, at)
    ensures var req := s.requests[r]; var c := After(Resumption(s, r, at), events).cache;
            && Lookup(c.entries, req.key).Some?
            && Get(c, req.key, now).1 ==
               if LE.StillServed(req.ttl, s.cache.defaultTtlMs, now - at)
               then Some(s.promises[req.status.promise].outcome.value.response) else None
  {
    var req, u := s.requests[r], Resumption(s, r, at);
    var v := s.promises[req.status.promise].outcome.value.response;
    CacheIsRun(u, events);
    assert u.cache == Put(s.cache, req.key, v, req.ttl, at);
    LE.PutThenGetIff(s.cache, req.key, v, req.ttl, at, AllCacheOps(u, events), now);
  }

  lemma CachedIsNotInflight(s: State, events: seq<Event>, key: string)
    requires Inv(s) && Possible(s, events) && Lookup(After(s, events).cache.entries, key).Some?
    ensures key !in After(s, events).inflight
  {
    RunKeepsInv(s, events);
  }

  /** A response stored below 400 is what the next call for its key is given, as long as its
      lifetime has not run out and fewer than `capacity` distinct other keys were used since;
      once the lifetime has run out the call fetches afresh. */
  lemma StoredIsServedIff(s: State, r: nat, at: int, events: seq<Event>, ttl: Ttl, now: int)
    requires Reachable(s) && Enabled(s, Resume(r, at)) && CR.Stores(s, Resume(r, at), s.requests[r].key)
    requires Possible(Resumption(s, r, at), events)
    requires Undisturbed(Resumption(s, r, at), events, s.requests[r].key, s.requests[r].ttl, at)
    ensures var req, t := s.requests[r], After(Resumption(s, r, at), events);
            Arrival(t, true, req.key, ttl, now).requests[|t.requests|].status ==
            if LE.StillServed(req.ttl, s.cache.defaultTtlMs, now - at)
            then Done(Hit(s.promises[req.status.promise].outcome.value.response), now)
            else Fetching(|t.promises|)
  {
    ReachableInv(s);
    StepKeepsInv(s, Resume(r, at));
    StoredStays(s, r, at, events, now);
    CachedIsNotInflight(Resumption(s, r, at), events, s.requests[r].key);
  }

  // ---------- What the upstream answers is what its callers get ----------

  lemma {:induction false} OutcomeStays(s: State, events: seq<Event>, p: nat)
    requires Possible(s, events) && p < |s.promises| && s.promises[p].outcome.Some?
    ensures p < |After(s, events).promises| && After(s, events).promises[p].outcome == s.promises[p].outcome
    decreases |events|
  {
    if events != [] {
      StepGrows(s, events[0]);
      assert SamePromise(s.promises[p], Step(s, events[0]).promises[p]);
      OutcomeStays(Step(s, events[0]), events[1..], p);
    }
  }

  /** When the upstream settles a promise, every call suspended on it ends, whatever happens in
      between, with exactly that response, or with a failure if it was rejected. */
  lemma SettledIsReturned(s: State, p: nat, outcome: Outcome, events: seq<Event>, r: nat)
    requires Reachable(s) && Enabled(s, Settle(p, outcome)) && Possible(Settlement(s, p, outcome), events)
    requires Suspended(s, r) && s.requests[r].status.promise == p
    ensures var t := After(Settlement(s, p, outcome), events);
            r < |t.requests| && (t.requests[r].status.Done? ==>
              match outcome
              case Resolved(response) =>
                t.requests[r].status.result in {Miss(response, p), Coalesced(response, p)}
              case Rejected => t.requests[r].status.result == Failed(p))
  {
    var u := Settlement(s, p, outcome);
    CR.EndsWithRun(u, events, r, p);
    OutcomeStays(u, events, p);
  }
}
