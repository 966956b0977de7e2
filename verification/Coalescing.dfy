/** Request coalescing: `getOrFetch` of server/src/cache/cacheManager.js as a state machine.
    One step is one stretch of code between two awaits. Promises and requests are numbered
    in the order they come into being; the upstream settles promises at any time, and a
    suspended request may resume at any time after its promise has settled. */
module Coalescing {
  import opened Wrappers
  import opened LruSpec

  datatype Response = Response(statusCode: int, payload: string)

  datatype Outcome = Resolved(response: Response) | Rejected

  /** A promise made by `fetchFn()` for request `owner`; `outcome` is None while pending. */
  datatype Promise = Promise(owner: nat, outcome: Option<Outcome>)

  datatype Result =
    | Hit(response: Response)
    | Miss(response: Response, promise: nat)
    | Coalesced(response: Response, promise: nat)
    | Failed(promise: nat)

  /** Where a call of `getOrFetch` stands. */
  datatype Status =
    | Direct(promise: nat)    // not cacheable, awaiting its own fetch
    | Fetching(promise: nat)  // designated fetcher, inside its try block
    | Waiting(promise: nat)   // attached to another request's promise
    | Done(result: Result, at: int)

  datatype Request = Request(cacheable: bool, key: string, ttl: Ttl, status: Status)

  datatype State = State(
    cache: Cache<string, Response>,
    inflight: map<string, nat>,
    promises: seq<Promise>,
    requests: seq<Request>)

  datatype Event =
    | Arrive(cacheable: bool, key: string, ttl: Ttl, now: int)
    | Settle(promise: nat, outcome: Outcome)
    | Resume(request: nat, now: int)

  predicate Suspended(s: State, r: nat) {
    r < |s.requests| && !s.requests[r].status.Done? && s.requests[r].status.promise < |s.promises|
  }

  predicate Enabled(s: State, e: Event) {
    match e
    case Arrive(_, _, _, _) => true
    case Settle(p, _) => p < |s.promises| && s.promises[p].outcome.None?
    case Resume(r, _) => Suspended(s, r) && s.promises[s.requests[r].status.promise].outcome.Some?
  }

  /** The call up to its first await, or to its return on a cache hit. */
  function Arrival(s: State, cacheable: bool, key: string, ttl: Ttl, now: int): State {
    var r, p := |s.requests|, |s.promises|;
    if !cacheable then
      s.(promises := s.promises + [Promise(r, None)],
         requests := s.requests + [Request(false, key, ttl, Direct(p))])
    else
      var (cache, cached) := Get(s.cache, key, now);
      match cached
      case Some(response) =>
        s.(cache := cache, requests := s.requests + [Request(true, key, ttl, Done(Hit(response), now))])
      case None =>
        if key in s.inflight then
          s.(cache := cache, requests := s.requests + [Request(true, key, ttl, Waiting(s.inflight[key]))])
        else
          s.(cache := cache,
             inflight := s.inflight[key := p],
             promises := s.promises + [Promise(r, None)],
             requests := s.requests + [Request(true, key, ttl, Fetching(p))])
  }

  function Settlement(s: State, p: nat, outcome: Outcome): State
    requires p < |s.promises|
  {
    s.(promises := s.promises[p := s.promises[p].(outcome := Some(outcome))])
  }

  function Finish(s: State, r: nat, result: Result, now: int): seq<Request>
    requires r < |s.requests|
  {
    s.requests[r := s.requests[r].(status := Done(result, now))]
  }

  /** What the designated fetcher leaves in the cache: only responses below 400 are stored. */
  function Stored(c: Cache<string, Response>, req: Request, outcome: Outcome, now: int): Cache<string, Response> {
    if outcome.Resolved? && outcome.response.statusCode < 400
    then Put(c, req.key, outcome.response, req.ttl, now)
    else c
  }

  /** The call from its await to its end. */
  function Resumption(s: State, r: nat, now: int): State
    requires Enabled(s, Resume(r, now))
  {
    var req := s.requests[r];
    var p := req.status.promise;
    var outcome := s.promises[p].outcome.value;
    match req.status
    case Fetching(_) =>
      s.(cache := Stored(s.cache, req, outcome, now),
         inflight := s.inflight - {req.key},
         requests := Finish(s, r, if outcome.Resolved? then Miss(outcome.response, p) else Failed(p), now))
    case Waiting(_) =>
      s.(requests := Finish(s, r, if outcome.Resolved? then Coalesced(outcome.response, p) else Failed(p), now))
    case Direct(_) =>
      s.(requests := Finish(s, r, if outcome.Resolved? then Miss(outcome.response, p) else Failed(p), now))
  }

  function Step(s: State, e: Event): State
    requires Enabled(s, e)
  {
    match e
    case Arrive(cacheable, key, ttl, now) => Arrival(s, cacheable, key, ttl, now)
    case Settle(p, outcome) => Settlement(s, p, outcome)
    case Resume(r, now) => Resumption(s, r, now)
  }

  /** The events can happen in this order. */
  ghost predicate Possible(s: State, events: seq<Event>)
    decreases |events|
  {
    events == [] || (Enabled(s, events[0]) && Possible(Step(s, events[0]), events[1..]))
  }

  ghost function After(s: State, events: seq<Event>): State
    requires Possible(s, events)
    decreases |events|
  {
    if events == [] then s else After(Step(s, events[0]), events[1..])
  }

  ghost predicate Initial(s: State) {
    && s.cache.capacity >= 1 && s.cache.entries == []
    && s.inflight == map[] && s.promises == [] && s.requests == []
  }

  // ---------- The invariant ----------

  /** Request r fetches, or fetched, key k. */
  predicate AsksFor(s: State, r: nat, k: string) {
    r < |s.requests| && s.requests[r].cacheable && s.requests[r].key == k
  }

  predicate OwnedBy(s: State, p: nat, r: nat) {
    p < |s.promises| && s.promises[p].owner == r
  }

  /** Key k is registered under a promise whose owner is suspended on it inside `getOrFetch`. */
  predicate EntryHasFetcher(s: State, k: string)
    requires k in s.inflight
  {
    && s.inflight[k] < |s.promises|
    && AsksFor(s, s.promises[s.inflight[k]].owner, k)
    && s.requests[s.promises[s.inflight[k]].owner].status == Fetching(s.inflight[k])
  }

  /** A suspended call stands where its status says. */
  predicate Placed(s: State, r: nat)
    requires r < |s.requests|
  {
    match s.requests[r].status
    case Fetching(p) =>
      s.requests[r].cacheable && OwnedBy(s, p, r)
      && s.requests[r].key in s.inflight && s.inflight[s.requests[r].key] == p
    case Waiting(p) => Attached(s, r, p)
    case Direct(p) => !s.requests[r].cacheable && OwnedBy(s, p, r)
    case Done(_, _) => true
  }

  /** Request r is attached to a promise that an earlier request for its key owns. */
  predicate Attached(s: State, r: nat, p: nat)
    requires r < |s.requests|
  {
    && s.requests[r].cacheable && p < |s.promises|
    && s.promises[p].owner < r && AsksFor(s, s.promises[p].owner, s.requests[r].key)
  }

  /** A promise has an owner, suspended on it while it is pending. */
  predicate Awaited(s: State, p: nat)
    requires p < |s.promises|
  {
    && s.promises[p].owner < |s.requests|
    && (s.promises[p].outcome.None? ==>
          s.requests[s.promises[p].owner].status in {Fetching(p), Direct(p)})
  }

  /** The inflight map holds exactly the keys of the suspended designated fetchers, each with
      the promise its fetcher awaits; every other suspended call is placed as it should be. */
  ghost predicate Protocol(s: State) {
    && (forall k :: k in s.inflight ==> EntryHasFetcher(s, k))
    && (forall r :: 0 <= r < |s.requests| ==> Placed(s, r))
    && (forall p :: 0 <= p < |s.promises| ==> Awaited(s, p))
  }

  /** Request w is the fetch that stored `response` under key k, to expire at `expiresAt`. */
  predicate StoredBy(s: State, w: nat, k: string, response: Response, expiresAt: Expiry) {
    && AsksFor(s, w, k) && s.requests[w].status.Done?
    && var d := s.requests[w].status;
    && d.result.Miss? && d.result.response == response && response.statusCode < 400
    && expiresAt == ExpiresAt(s.requests[w].ttl, s.cache.defaultTtlMs, d.at)
  }

  predicate EntryHasSource(s: State, e: Entry<string, Response>) {
    exists w :: 0 <= w < |s.requests| && StoredBy(s, w, e.key, e.value, e.expiresAt)
  }

  ghost predicate CacheHasSources(s: State) {
    forall i :: 0 <= i < |s.cache.entries| ==> EntryHasSource(s, s.cache.entries[i])
  }

  /** A hit at time `at` was stored by a fetch for the key and had not expired. */
  ghost predicate HitHasSource(s: State, k: string, response: Response, at: int) {
    exists w, x :: StoredBy(s, w, k, response, x) && !Expired(at, x)
  }

  /** What a finished request was given, and where it came from. */
  ghost predicate ResultSound(s: State, r: nat)
    requires r < |s.requests| && s.requests[r].status.Done?
  {
    var req, at := s.requests[r], s.requests[r].status.at;
    match req.status.result
    case Miss(response, p) =>
      OwnedBy(s, p, r) && s.promises[p].outcome == Some(Resolved(response))
    case Coalesced(response, p) =>
      Attached(s, r, p) && s.promises[p].outcome == Some(Resolved(response))
    case Failed(p) =>
      (OwnedBy(s, p, r) || Attached(s, r, p)) && s.promises[p].outcome == Some(Rejected)
    case Hit(response) =>
      req.cacheable && HitHasSource(s, req.key, response, at)
  }

  ghost predicate ResultsSound(s: State) {
    forall r :: 0 <= r < |s.requests| && s.requests[r].status.Done? ==> ResultSound(s, r)
  }

  /** A key being fetched is not in the cache. */
  ghost predicate InflightNotCached(s: State) {
    forall k :: k in s.inflight ==> Lookup(s.cache.entries, k).None?
  }

  ghost predicate Inv(s: State) {
    && WellFormed(s.cache)
    && Protocol(s)
    && InflightNotCached(s)
    && CacheHasSources(s)
    && ResultsSound(s)
  }
}
