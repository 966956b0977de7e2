/** The whole proxy: `interceptor` of server/src/proxy/interceptor.js joining route registry,
    rate limiter, cache with coalescing, and batch logger. One step is one stretch of code
    between two awaits, of the interceptor or of a component. */
module PipelineSpec {
  import opened Wrappers
  import opened RouteSpec
  import BucketSpec
  import Store = BucketStoreSpec
  import Co = Coalescing
  import Logger = LoggerSpec
  import CacheKey

  /** A client's request. `bodyPending` says that the body has yet to be read from the wire. */
  datatype HttpRequest = HttpRequest(message: CacheKey.Request, clientIp: string, bodyPending: bool)

  datatype LogEntry = LogEntry(
    exchange: nat, prefix: string, path: string, statusCode: int, cacheHit: bool, rateLimited: bool)

  /** What the client is sent: an answer of the proxy's own, or a response that a call of
      `getOrFetch` returned. */
  datatype Reply = Own(statusCode: int) | Relayed(response: Co.Response)

  datatype Stage =
    | Passed                // no route: handed to the next middleware
    | Collecting            // awaiting the request body
    | Proxying(call: nat)   // awaiting this call of getOrFetch
    // Answered and logged: after which call of getOrFetch, if any, and whether writing the
    // answer threw, so that a 502 was sent in its place.
    | Closed(after: Option<nat>, threw: bool, reply: Reply, entries: seq<LogEntry>)

  /** One run of `interceptor`, begun at time `start`. `ticket` is the rate limiter's key, if the
      route is limited. */
  datatype Exchange = Exchange(
    req: HttpRequest, start: int, route: Option<Route>, ticket: Option<string>, granted: bool, stage: Stage)

  datatype State = State(
    registry: Registry,
    buckets: Store.Store,
    co: Co.State,
    logger: Logger.State<LogEntry>,
    exchanges: seq<Exchange>,
    callers: seq<nat>,         // which exchange made each call of getOrFetch
    storeOps: seq<Store.Op>)   // what the rate limiter has been asked, and its prunes

  datatype Event =
    | Request(req: HttpRequest, now: int, sent: bool)  // `sent` false: writing a 429 throws
    | BodyRead(exchange: nat, now: int)
    | Upstream(promise: nat, outcome: Co.Outcome)
    | FetchResume(call: nat, now: int)
    | Respond(exchange: nat, sent: bool)  // `sent` false: writing the response throws
    | Prune(now: int)
    | Reload(rows: seq<Route>)
    | Logging(step: Logger.Event<LogEntry>)

  function LimitOf(r: Route): BucketSpec.Limit {
    BucketSpec.Limit(r.capacity, r.refillRate)
  }

  function EntryFor(x: Exchange, i: nat, statusCode: int, cacheHit: bool, rateLimited: bool): LogEntry
    requires x.route.Some?
  {
    LogEntry(i, x.route.value.prefix, x.req.message.path, statusCode, cacheHit, rateLimited)
  }

  function LogAll(l: Logger.State<LogEntry>, maxSize: int, entries: seq<LogEntry>): Logger.State<LogEntry>
    decreases |entries|
  {
    if entries == [] then l else LogAll(Logger.LogEntry(l, maxSize, entries[0]), maxSize, entries[1..])
  }

  /** Exchange i ends in this way. */
  function Close(s: State, maxSize: int, i: nat, x: Exchange, end: Stage): State
    requires i < |s.exchanges| && end.Closed?
  {
    s.(logger := LogAll(s.logger, maxSize, end.entries),
       exchanges := s.exchanges[i := x.(stage := end)])
  }

  /** Turned away for want of a token. The entry is logged before the answer is written; if that
      throws, the catch block logs again and answers 502. */
  function Refusal(x: Exchange, i: nat, sent: bool): Stage
    requires x.route.Some?
  {
    var logged := EntryFor(x, i, 429, false, true);
    if sent then Closed(None, false, Own(429), [logged])
    else Closed(None, true, Own(502), [logged, EntryFor(x, i, 502, false, true)])
  }

  /** The catch block, for a request that had its token. */
  function BadGateway(x: Exchange, i: nat, call: Option<nat>, threw: bool): Stage
    requires x.route.Some?
  {
    Closed(call, threw, Own(502), [EntryFor(x, i, 502, false, false)])
  }

  /** From the request body on: build the upstream options and call `getOrFetch`. */
  function Proceed(s: State, maxSize: int, i: nat, now: int): State
    requires i < |s.exchanges| && s.exchanges[i].route.Some?
  {
    var x := s.exchanges[i];
    if !x.route.value.urlParses then
      Close(s, maxSize, i, x, BadGateway(x, i, None, false))
    else
      s.(co := Co.Arrival(s.co, CacheKey.IsCacheable(x.req.message), CacheKey.BuildCacheKey(x.req.message),
                          TtlOf(x.route.value), now),
         callers := s.callers + [i],
         exchanges := s.exchanges[i := x.(stage := Proxying(|s.co.requests|))])
  }

  /** A matched request enters: a limited route asks for a token under the client's key. */
  function Admit(s: State, req: HttpRequest, route: Route, now: int): State {
    if !route.rateLimitEnabled then
      s.(exchanges := s.exchanges + [Exchange(req, now, Some(route), None, false, Collecting)])
    else
      var key := Store.ClientKey(req.clientIp, route.prefix);
      var (buckets, verdict) := Store.ConsumeToken(s.buckets, key, LimitOf(route), now);
      s.(buckets := buckets,
         storeOps := s.storeOps + [Store.Ask(key, LimitOf(route), now)],
         exchanges := s.exchanges + [Exchange(req, now, Some(route), Some(key), verdict.allowed, Collecting)])
  }

  /** `interceptor` from its start to its first await, or to its end. */
  function Accept(s: State, maxSize: int, req: HttpRequest, now: int, sent: bool): State {
    var i := |s.exchanges|;
    match Match(s.registry, req.message.path)
    case None => s.(exchanges := s.exchanges + [Exchange(req, now, None, None, false, Passed)])
    case Some(route) =>
      var t := Admit(s, req, route, now);
      var x := t.exchanges[i];
      if x.ticket.Some? && !x.granted then Close(t, maxSize, i, x, Refusal(x, i, sent))
      else if req.bodyPending then t
      else Proceed(t, maxSize, i, now)
  }

  predicate Enabled(s: State, e: Event) {
    match e
    case BodyRead(i, _) => i < |s.exchanges| && s.exchanges[i].stage.Collecting? && s.exchanges[i].route.Some?
    case Upstream(p, outcome) => Co.Enabled(s.co, Co.Settle(p, outcome))
    case FetchResume(r, now) => Co.Enabled(s.co, Co.Resume(r, now))
    case Respond(i, _) =>
      && i < |s.exchanges| && s.exchanges[i].stage.Proxying? && s.exchanges[i].route.Some?
      && s.exchanges[i].stage.call < |s.co.requests|
      && s.co.requests[s.exchanges[i].stage.call].status.Done?
    case Logging(step) => !step.Log? && Logger.Enabled(s.logger, step)
    case _ => true
  }

  /** From the result of `getOrFetch` to the end: the response relayed, or a 502. */
  function Ending(s: State, i: nat, sent: bool): Stage
    requires Enabled(s, Respond(i, sent))
  {
    var x := s.exchanges[i];
    var call := Some(x.stage.call);
    match s.co.requests[x.stage.call].status.result
    case Failed(_) => BadGateway(x, i, call, false)
    case result =>
      if !sent then BadGateway(x, i, call, true)
      else Closed(call, false, Relayed(result.response),
                  [EntryFor(x, i, result.response.statusCode, !result.Miss?, false)])
  }

  function Step(s: State, maxSize: int, e: Event): State
    requires Enabled(s, e)
  {
    match e
    case Request(req, now, sent) => Accept(s, maxSize, req, now, sent)
    case BodyRead(i, now) => Proceed(s, maxSize, i, now)
    case Upstream(p, outcome) => s.(co := Co.Settlement(s.co, p, outcome))
    case FetchResume(r, now) => s.(co := Co.Resumption(s.co, r, now))
    case Respond(i, sent) => Close(s, maxSize, i, s.exchanges[i], Ending(s, i, sent))
    case Prune(now) =>
      s.(buckets := Store.Prune(s.buckets, now), storeOps := s.storeOps + [Store.PruneAt(now)])
    case Reload(rows) => s.(registry := Load(rows))
    case Logging(step) => s.(logger := Logger.Step(s.logger, maxSize, step))
  }

  ghost predicate Possible(s: State, maxSize: int, events: seq<Event>)
    decreases |events|
  {
    events == [] || (Enabled(s, events[0]) && Possible(Step(s, maxSize, events[0]), maxSize, events[1..]))
  }

  ghost function After(s: State, maxSize: int, events: seq<Event>): State
    requires Possible(s, maxSize, events)
    decreases |events|
  {
    if events == [] then s else After(Step(s, maxSize, events[0]), maxSize, events[1..])
  }

  ghost predicate Initial(s: State) {
    && s.buckets == map[] && Co.Initial(s.co) && s.logger == Logger.Empty()
    && s.exchanges == [] && s.callers == [] && s.storeOps == []
  }
}
