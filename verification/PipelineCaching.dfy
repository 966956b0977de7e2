/** What `cache_enabled` does: a route with its cache disabled is cached, without expiry. */
module PipelineCaching {
  import opened Wrappers
  import opened RouteSpec
  import opened PipelineSpec
  import LruSpec
  import Co = Coalescing
  import CT = CoalescingTheorems
  import CR = CoalescingResults
  import Logger = LoggerSpec
  import PA = PipelineAnswers
  import PB = PipelineBound
  import PT = PipelineTheorems
  import CacheKey

  /** A call of `getOrFetch` under way belongs to an exchange, whose message and route it carries. */
  lemma CallHasExchange(s: State, maxSize: int, events: seq<Event>, t: State, r: nat)
    requires Initial(s) && Possible(s, maxSize, events) && t == After(s, maxSize, events)
    requires r < |t.co.requests| && !t.co.requests[r].status.Done?
    ensures CT.Reachable(t.co) && r < |t.callers| && t.callers[r] < |t.exchanges|
    ensures PA.CallOf(t, t.callers[r], t.exchanges[t.callers[r]], r)
  {
    PB.InitialIsSound(s);
    PB.RunKeepsSound(s, maxSize, events);
    PA.RunKeepsProper(s, maxSize, events);
    assert PB.CallerOf(t, r);
    assert PA.Proper(t, t.callers[r], t.exchanges[t.callers[r]]);
  }

  predicate HasLifetime(r: Route) {
    r.cacheEnabled && r.cacheTtlMs.Some? && r.cacheTtlMs.value > 0
  }

  /** When a designated fetcher resumes, its response is in the cache if and only if the fetch
      resolved below 400, whatever the route says about caching. The entry expires after the
      route's lifetime if caching is enabled and the lifetime positive; if the cache is disabled,
      or the lifetime NULL or 0, it never does. */
  lemma FetchIsStoredIff(s: State, maxSize: int, events: seq<Event>, t: State, r: nat, now: int)
    requires Initial(s) && Possible(s, maxSize, events) && t == After(s, maxSize, events)
    requires Enabled(t, FetchResume(r, now)) && t.co.requests[r].status.Fetching?
    ensures r < |t.callers| && t.callers[r] < |t.exchanges|
    ensures var x, outcome := t.exchanges[t.callers[r]], t.co.promises[t.co.requests[r].status.promise].outcome.value;
            var found := LruSpec.Lookup(Step(t, maxSize, FetchResume(r, now)).co.cache.entries,
                                        CacheKey.BuildCacheKey(x.req.message));
            && x.route.Some?
            && (found.Some? <==> outcome.Resolved? && outcome.response.statusCode < 400)
            && (found.Some? ==>
                  && found.value.value == outcome.response
                  && found.value.expiresAt ==
                     if HasLifetime(x.route.value) then LruSpec.At(now + x.route.value.cacheTtlMs.value)
                     else LruSpec.Never)
  {
    CallHasExchange(s, maxSize, events, t, r);
    CR.FetcherStoresIff(t.co, r, now);
  }

  // ---------- A hit on a route with its cache disabled ----------

  /** The exchange carried this message over a route with its cache disabled, and was logged and
      answered as a cache hit. */
  predicate HitDespiteDisabled(x: Exchange, message: CacheKey.Request) {
    && x.req.message == message && x.route.Some? && !x.route.value.cacheEnabled
    && x.stage.Closed? && x.stage.reply.Relayed?
    && exists e :: e in x.stage.entries && e.cacheHit
  }

  ghost predicate RunHits(s: State, maxSize: int, events: seq<Event>, i: nat, message: CacheKey.Request) {
    && Initial(s) && Possible(s, maxSize, events)
    && i < |After(s, maxSize, events).exchanges|
    && HitDespiteDisabled(After(s, maxSize, events).exchanges[i], message)
  }

  /** Only a cacheable call is answered from the cache or joins another's fetch. */
  lemma SharedIsCacheable(c: Co.State, r: nat)
    requires CT.Reachable(c) && r < |c.requests| && c.requests[r].status.Done?
    requires c.requests[r].status.result.Hit? || c.requests[r].status.result.Coalesced?
    ensures c.requests[r].cacheable
  {
    CT.ReachableInv(c);
    assert Co.ResultSound(c, r);
  }

  lemma HitIsCacheable(s: State, maxSize: int, events: seq<Event>, i: nat, message: CacheKey.Request)
    requires RunHits(s, maxSize, events, i, message)
    ensures CacheKey.IsCacheable(message)
  {
    var t := After(s, maxSize, events);
    var x := t.exchanges[i];
    PB.InitialIsSound(s);
    PB.RunKeepsSound(s, maxSize, events);
    PA.AnswersAreExact(s, maxSize, events, t, i);
    SharedIsCacheable(t.co, x.stage.after.value);
  }

  /** An unlimited route for one path, with its cache disabled. */
  function DisabledRoute(path: string): Route {
    Route(1, 1, path, true, false, None, false, 1, 1.0)
  }

  function Start(path: string): State {
    State([(path, DisabledRoute(path))], map[],
          Co.State(LruSpec.Cache(1, 0, [], LruSpec.Stats(0, 0, 0, 0)), map[], [], []),
          Logger.Empty(), [], [], [])
  }

  const OK_RESPONSE := Co.Response(200, "body")

  /** What the coalescer does in a fetch followed by a second call for the key. */
  lemma FetchThenHit(c: Co.State, key: string)
    requires c == Co.State(LruSpec.Cache(1, 0, [], LruSpec.Stats(0, 0, 0, 0)), map[], [], [])
    ensures var c1 := Co.Arrival(c, true, key, LruSpec.Null, 0);
            && |c1.requests| == 1 && Co.Enabled(c1, Co.Settle(0, Co.Resolved(OK_RESPONSE)))
            && var c2 := Co.Settlement(c1, 0, Co.Resolved(OK_RESPONSE));
            && Co.Enabled(c2, Co.Resume(0, 0))
            && var c4 := Co.Arrival(Co.Resumption(c2, 0, 0), true, key, LruSpec.Null, 0);
            && |Co.Resumption(c2, 0, 0).requests| == 1 && |c4.requests| == 2
            && c4.requests[1].status == Co.Done(Co.Hit(OK_RESPONSE), 0)
  {
  }

  /** An admitted request with no body to wait for goes straight to `getOrFetch`. */
  lemma AskProceeds(s: State, maxSize: int, message: CacheKey.Request, t: State)
    requires s.registry == [(message.path, DisabledRoute(message.path))]
    requires t == Accept(s, maxSize, HttpRequest(message, "client", false), 0, true)
    ensures t.registry == s.registry && t.logger == s.logger
    ensures t.co == Co.Arrival(s.co, CacheKey.IsCacheable(message), CacheKey.BuildCacheKey(message), LruSpec.Null, 0)
    ensures t.exchanges == s.exchanges + [Exchange(HttpRequest(message, "client", false), 0,
                                                   Some(DisabledRoute(message.path)), None, false,
                                                   Proxying(|s.co.requests|))]
  {
    assert Match(s.registry, message.path) == Some(DisabledRoute(message.path));
  }

  function Ask(message: CacheKey.Request): Event {
    Request(HttpRequest(message, "client", false), 0, true)
  }

  lemma HitIsRelayed(s: State, message: CacheKey.Request)
    requires |s.exchanges| == 2 && |s.co.requests| == 2
    requires s.exchanges[1] == Exchange(HttpRequest(message, "client", false), 0,
                                        Some(DisabledRoute(message.path)), None, false, Proxying(1))
    requires s.co.requests[1].status == Co.Done(Co.Hit(OK_RESPONSE), 0)
    ensures Enabled(s, Respond(1, true))
    ensures HitDespiteDisabled(s.exchanges[1].(stage := Ending(s, 1, true)), message)
  {
    assert Ending(s, 1, true).entries[0].cacheHit;
  }

  lemma FetchLeads(s: State, maxSize: int, outcome: Co.Outcome)
    requires Co.Enabled(s.co, Co.Settle(0, outcome))
    requires Co.Enabled(Co.Settlement(s.co, 0, outcome), Co.Resume(0, 0))
    ensures var c := Co.Settlement(s.co, 0, outcome); var t := s.(co := c);
            && PT.Leads(s, maxSize, Upstream(0, outcome), t)
            && PT.Leads(t, maxSize, FetchResume(0, 0), t.(co := Co.Resumption(c, 0, 0)))
  {
  }

  /** A request, its fetch and its store. */
  lemma Warm(message: CacheKey.Request) returns (states: seq<State>, events: seq<Event>)
    requires CacheKey.IsCacheable(message)
    ensures PT.Trace(states, 10, events) && |events| == 3 && states[0] == Start(message.path)
    ensures var s, t := states[0], states[3];
            var key := CacheKey.BuildCacheKey(message);
            var c := Co.Settlement(Co.Arrival(s.co, true, key, LruSpec.Null, 0), 0, Co.Resolved(OK_RESPONSE));
            && Co.Enabled(c, Co.Resume(0, 0)) && t.co == Co.Resumption(c, 0, 0)
            && t.registry == s.registry && |t.exchanges| == 1
  {
    var s0 := Start(message.path);
    FetchThenHit(s0.co, CacheKey.BuildCacheKey(message));
    var s1 := Step(s0, 10, Ask(message));
    AskProceeds(s0, 10, message, s1);
    var s2 := s1.(co := Co.Settlement(s1.co, 0, Co.Resolved(OK_RESPONSE)));
    var s3 := s2.(co := Co.Resumption(s2.co, 0, 0));
    events := [Ask(message), Upstream(0, Co.Resolved(OK_RESPONSE)), FetchResume(0, 0)];
    states := [s0, s1, s2, s3];
    FetchLeads(s1, 10, Co.Resolved(OK_RESPONSE));
    assert PT.Leads(s0, 10, events[0], s1);
  }

  /** Two requests for one message over that route, the second after the first one's fetch has
      been stored: the second is answered from the cache. */
  lemma DisabledRouteHits(message: CacheKey.Request) returns (events: seq<Event>)
    requires CacheKey.IsCacheable(message)
    ensures RunHits(Start(message.path), 10, events, 1, message)
  {
    var states, warming := Warm(message);
    var s3 := states[3];
    FetchThenHit(Start(message.path).co, CacheKey.BuildCacheKey(message));
    var s4 := Step(s3, 10, Ask(message));
    AskProceeds(s3, 10, message, s4);
    HitIsRelayed(s4, message);
    var s5 := Step(s4, 10, Respond(1, true));
    PT.TraceAppends(states, 10, warming, Ask(message), s4);
    PT.TraceAppends(states + [s4], 10, warming + [Ask(message)], Respond(1, true), s5);
    events := warming + [Ask(message)] + [Respond(1, true)];
    PT.TraceIsRun(states + [s4] + [s5], 10, events);
  }

  /** A route with its cache disabled can answer a message from the cache, or from another
      request's fetch, exactly if the message is a GET. */
  lemma HitsDespiteDisabledIff(message: CacheKey.Request)
    ensures (exists s, maxSize, events, i :: RunHits(s, maxSize, events, i, message))
            <==> message.httpMethod == "GET"
  {
    forall s, maxSize, events, i | RunHits(s, maxSize, events, i, message) ensures message.httpMethod == "GET" {
      HitIsCacheable(s, maxSize, events, i, message);
    }
    if message.httpMethod == "GET" {
      var events := DisabledRouteHits(message);
    }
  }
}
