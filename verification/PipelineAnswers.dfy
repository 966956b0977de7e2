/** What a client is answered, and where the answer comes from, through every stage. */
module PipelineAnswers {
  import opened Wrappers
  import opened RouteSpec
  import opened PipelineSpec
  import BucketSpec
  import Store = BucketStoreSpec
  import Co = Coalescing
  import CT = CoalescingTheorems
  import CR = CoalescingResults
  import LT = LoggerTheorems
  import PB = PipelineBound
  import PT = PipelineTheorems
  import CacheKey

  // ---------- How an exchange ends ----------

  /** Call r of `getOrFetch` is the one exchange i made for its own message and route. */
  predicate CallOf(s: State, i: nat, x: Exchange, r: nat) {
    && x.route.Some? && r < |s.callers| && s.callers[r] == i && r < |s.co.requests|
    && s.co.requests[r].key == CacheKey.BuildCacheKey(x.req.message)
    && s.co.requests[r].cacheable == CacheKey.IsCacheable(x.req.message)
    && s.co.requests[r].ttl == TtlOf(x.route.value)
  }

  predicate Refused(x: Exchange) {
    x.ticket.Some? && !x.granted
  }

  /** Exchange i was admitted, its URL parsed, and it was answered after its call r. */
  predicate EndedByCall(s: State, i: nat, x: Exchange, r: nat)
    requires x.stage.Closed?
  {
    && CallOf(s, i, x, r) && s.co.requests[r].status.Done?
    && var result := s.co.requests[r].status.result;
    if result.Failed? || x.stage.threw then
      x.stage == BadGateway(x, i, Some(r), x.stage.threw) && (result.Failed? ==> !x.stage.threw)
    else
      && x.stage.reply == Relayed(result.response)
      && x.stage.entries == [EntryFor(x, i, result.response.statusCode, !result.Miss?, false)]
  }

  /** Exchange i stands or ended as it should. */
  predicate Proper(s: State, i: nat, x: Exchange) {
    match x.stage
    case Passed => x.route.None?
    case Collecting => x.route.Some? && !Refused(x)
    case Proxying(r) => CallOf(s, i, x, r) && !Refused(x) && x.route.value.urlParses
    case Closed(after, threw, _, _) =>
      && x.route.Some?
      && if Refused(x) then x.stage == Refusal(x, i, !threw)
         else if after.None? then !x.route.value.urlParses && x.stage == BadGateway(x, i, None, false)
         else x.route.value.urlParses && EndedByCall(s, i, x, after.value)
  }

  ghost predicate AllProper(s: State) {
    && |s.callers| == |s.co.requests|
    && forall i :: 0 <= i < |s.exchanges| ==> Proper(s, i, s.exchanges[i])
  }

  // ---------- Every step keeps it ----------

  lemma StaysProper(s: State, t: State, i: nat, x: Exchange)
    requires Proper(s, i, x) && CT.Grows(s.co, t.co) && s.callers <= t.callers
    ensures Proper(t, i, x)
  {
    match x.stage
    case Passed =>
    case Collecting =>
    case Proxying(r) => assert CT.SameRequest(s.co.requests[r], t.co.requests[r]);
    case Closed(after, _, _, _) =>
      if !Refused(x) && after.Some? {
        assert CT.SameRequest(s.co.requests[after.value], t.co.requests[after.value]);
      }
  }

  /** Every exchange but number i is as before, and number i is proper. */
  lemma OthersStayProper(s: State, t: State, i: nat)
    requires AllProper(s) && CT.Grows(s.co, t.co) && s.callers <= t.callers && |t.callers| == |t.co.requests|
    requires |s.exchanges| <= |t.exchanges| <= |s.exchanges| + 1 && i < |t.exchanges|
    requires |t.exchanges| > |s.exchanges| ==> i == |s.exchanges|
    requires forall j :: 0 <= j < |s.exchanges| && j != i ==> t.exchanges[j] == s.exchanges[j]
    requires Proper(t, i, t.exchanges[i])
    ensures AllProper(t)
  {
    forall j | 0 <= j < |t.exchanges| ensures Proper(t, j, t.exchanges[j]) {
      if j != i {
        StaysProper(s, t, j, s.exchanges[j]);
      }
    }
  }

  lemma ProceedKeepsProper(s: State, maxSize: int, i: nat, now: int)
    requires AllProper(s) && i < |s.exchanges| && s.exchanges[i].stage.Collecting?
    requires s.exchanges[i].route.Some?
    ensures AllProper(Proceed(s, maxSize, i, now))
  {
    var x, t := s.exchanges[i], Proceed(s, maxSize, i, now);
    assert Proper(s, i, x);
    if x.route.value.urlParses {
      CT.StepGrows(s.co, Co.Arrive(CacheKey.IsCacheable(x.req.message), CacheKey.BuildCacheKey(x.req.message),
                                   TtlOf(x.route.value), now));
    }
    OthersStayProper(s, t, i);
  }

  lemma AcceptKeepsProper(s: State, maxSize: int, req: HttpRequest, now: int, sent: bool)
    requires AllProper(s)
    ensures AllProper(Accept(s, maxSize, req, now, sent))
  {
    var i := |s.exchanges|;
    match Match(s.registry, req.message.path)
    case None => OthersStayProper(s, Accept(s, maxSize, req, now, sent), i);
    case Some(route) =>
      var t := Admit(s, req, route, now);
      var x := t.exchanges[i];
      if x.ticket.Some? && !x.granted {
        OthersStayProper(s, Accept(s, maxSize, req, now, sent), i);
      } else {
        OthersStayProper(s, t, i);
        if !req.bodyPending {
          ProceedKeepsProper(t, maxSize, i, now);
        }
      }
  }

  lemma EndingIsProper(s: State, i: nat, sent: bool)
    requires Enabled(s, Respond(i, sent)) && Proper(s, i, s.exchanges[i])
    ensures Proper(s, i, s.exchanges[i].(stage := Ending(s, i, sent)))
  {
  }

  lemma CloseKeepsProper(s: State, maxSize: int, i: nat, end: Stage)
    requires AllProper(s) && i < |s.exchanges| && end.Closed?
    requires Proper(s, i, s.exchanges[i].(stage := end))
    ensures AllProper(Close(s, maxSize, i, s.exchanges[i], end))
  {
    var t := Close(s, maxSize, i, s.exchanges[i], end);
    StaysProper(s, t, i, t.exchanges[i]);
    OthersStayProper(s, t, i);
  }

  lemma SameExchangesStayProper(s: State, t: State)
    requires AllProper(s) && CT.Grows(s.co, t.co)
    requires t.callers == s.callers && t.exchanges == s.exchanges && |t.co.requests| == |s.co.requests|
    ensures AllProper(t)
  {
    forall j | 0 <= j < |s.exchanges| ensures Proper(t, j, t.exchanges[j]) {
      StaysProper(s, t, j, s.exchanges[j]);
    }
  }

  lemma StepKeepsProper(s: State, maxSize: int, e: Event)
    requires AllProper(s) && Enabled(s, e)
    ensures AllProper(Step(s, maxSize, e))
  {
    match e
    case Request(req, now, sent) => AcceptKeepsProper(s, maxSize, req, now, sent);
    case BodyRead(i, now) => ProceedKeepsProper(s, maxSize, i, now);
    case Respond(i, sent) =>
      assert Proper(s, i, s.exchanges[i]);
      EndingIsProper(s, i, sent);
      CloseKeepsProper(s, maxSize, i, Ending(s, i, sent));
    case Upstream(p, outcome) =>
      CT.StepGrows(s.co, Co.Settle(p, outcome));
      SameExchangesStayProper(s, Step(s, maxSize, e));
    case FetchResume(r, now) =>
      CT.StepGrows(s.co, Co.Resume(r, now));
      SameExchangesStayProper(s, Step(s, maxSize, e));
    case _ => SameExchangesStayProper(s, Step(s, maxSize, e));
  }

  lemma {:induction false} RunKeepsProper(s: State, maxSize: int, events: seq<Event>)
    requires AllProper(s) && Possible(s, maxSize, events)
    ensures AllProper(After(s, maxSize, events))
    decreases |events|
  {
    if events != [] {
      StepKeepsProper(s, maxSize, events[0]);
      RunKeepsProper(Step(s, maxSize, events[0]), maxSize, events[1..]);
    }
  }

  // ---------- What that means to a client ----------

  /** The call of `getOrFetch` that exchange i awaited ended in a rejection. */
  predicate CallFailed(s: State, x: Exchange)
    requires x.stage.Closed?
  {
    && x.stage.after.Some? && x.stage.after.value < |s.co.requests|
    && s.co.requests[x.stage.after.value].status.Done?
    && s.co.requests[x.stage.after.value].status.result.Failed?
  }

  /** Exchange i was sent exactly what its own call r returned, and it was logged so: that
      response resolved an upstream fetch under its cache key, and counts as a cache hit unless
      the fetch was its own. */
  ghost predicate Relays(s: State, i: nat, x: Exchange, r: nat, response: Co.Response)
    requires x.stage.Closed?
  {
    && CallOf(s, i, x, r) && s.co.requests[r].status.Done?
    && var result := s.co.requests[r].status.result;
    && !result.Failed? && result.response == response
    && x.stage.entries == [EntryFor(x, i, response.statusCode, !result.Miss?, false)]
    && (exists p: nat :: CR.Fetched(s.co, p, r, response) && (result.Miss? <==> Co.OwnedBy(s.co, p, r)))
  }

  lemma ResultWasFetched(c: Co.State, r: nat) returns (p: nat)
    requires CT.Reachable(c) && r < |c.requests| && c.requests[r].status.Done?
    requires !c.requests[r].status.result.Failed?
    ensures CR.Fetched(c, p, r, c.requests[r].status.result.response)
    ensures c.requests[r].status.result.Miss? <==> Co.OwnedBy(c, p, r)
  {
    CR.ResponseProvenance(c, r);
    CT.ReachableInv(c);
    match c.requests[r].status.result
    case Hit(_) => p := CR.HitFetch(c, r);
    case Miss(_, q) => p := q;
    case Coalesced(_, q) => p := q;
  }

  /** In every run, an answered exchange was sent 429 if and only if it was refused a token and
      writing that answer did not throw; the proxy's own 502 if and only if writing its answer
      threw, or it had its token and the upstream URL does not parse or the fetch it awaited was
      rejected; and in all other cases exactly the response that its own call of `getOrFetch`
      returned. */
  lemma AnswersAreExact(s: State, maxSize: int, events: seq<Event>, t: State, i: nat)
    requires Initial(s) && Possible(s, maxSize, events) && t == After(s, maxSize, events)
    requires i < |t.exchanges| && t.exchanges[i].stage.Closed?
    ensures var x := t.exchanges[i];
            && x.route.Some?
            && (x.stage.reply == Own(429) <==> Refused(x) && !x.stage.threw)
            && (x.stage.reply == Own(502) <==>
                  x.stage.threw || (!Refused(x) && (!x.route.value.urlParses || CallFailed(t, x))))
            && (x.stage.reply.Own? ==> x.stage.reply.statusCode in {429, 502})
            && (x.stage.reply.Relayed? ==>
                  x.stage.after.Some? && Relays(t, i, x, x.stage.after.value, x.stage.reply.response))
  {
    PB.InitialIsSound(s);
    PB.RunKeepsSound(s, maxSize, events);
    RunKeepsProper(s, maxSize, events);
    var x := t.exchanges[i];
    assert Proper(t, i, x);
    if x.stage.reply.Relayed? {
      var p := ResultWasFetched(t.co, x.stage.after.value);
    }
  }

  /** What an answered exchange logged, field by field: its number, its route's prefix, its path,
      the status, whether it counts as a cache hit, and whether it was refused a token. */
  predicate LoggedAs(x: Exchange, i: nat, entries: seq<(int, bool, bool)>)
    requires x.stage.Closed? && x.route.Some?
  {
    && |x.stage.entries| == |entries|
    && forall k :: 0 <= k < |entries| ==>
         x.stage.entries[k] == LogEntry(i, x.route.value.prefix, x.req.message.path,
                                        entries[k].0, entries[k].1, entries[k].2)
  }

  /** In every run: a refusal is logged as 429, and once more as 502 if writing it threw, both
      marked as rate limited; a bad gateway as 502; a relayed response with its own status, as a
      cache hit unless the call was a miss. */
  lemma EntriesAreExact(s: State, maxSize: int, events: seq<Event>, t: State, i: nat)
    requires Initial(s) && Possible(s, maxSize, events) && t == After(s, maxSize, events)
    requires i < |t.exchanges| && t.exchanges[i].stage.Closed?
    ensures var x := t.exchanges[i];
            && x.route.Some?
            && if Refused(x) then
                 LoggedAs(x, i, [(429, false, true)] + if x.stage.threw then [(502, false, true)] else [])
               else if x.stage.reply.Own? then LoggedAs(x, i, [(502, false, false)])
               else
                 && x.stage.after.Some? && x.stage.after.value < |t.co.requests|
                 && t.co.requests[x.stage.after.value].status.Done?
                 && LoggedAs(x, i, [(x.stage.reply.response.statusCode,
                                     !t.co.requests[x.stage.after.value].status.result.Miss?, false)])
  {
    RunKeepsProper(s, maxSize, events);
    assert Proper(t, i, t.exchanges[i]);
  }

  /** In every run, each answered exchange has exactly one log entry, wherever it is by then,
      except that one refused a token whose 429 could not be written has two; an exchange under
      way or without a route has none. */
  lemma LoggedOnceUnlessRefusalThrows(s: State, maxSize: int, events: seq<Event>, t: State, i: nat)
    requires Initial(s) && Possible(s, maxSize, events) && t == After(s, maxSize, events)
    requires i < |t.exchanges|
    ensures var x := t.exchanges[i];
            |PT.EntriesOf(t.logger.rows + LT.InFlight(t.logger) + t.logger.buffer, i)| ==
            if !x.stage.Closed? then 0 else if Refused(x) && x.stage.threw then 2 else 1
  {
    PT.EveryExchangeLogged(s, maxSize, events, i);
    RunKeepsProper(s, maxSize, events);
    assert Proper(t, i, t.exchanges[i]);
  }

  // ---------- A refusal that is logged twice ----------

  /** A route with one token, and its requests, whose bodies are still on the wire. */
  function LimitedRoute(path: string): Route {
    Route(1, 1, path, true, true, None, true, 1, 1.0)
  }

  function Pending(message: CacheKey.Request): HttpRequest {
    HttpRequest(message, "client", true)
  }

  lemma SecondIsRefused(message: CacheKey.Request, maxSize: int, s: State, t: State)
    requires s.registry == [(message.path, LimitedRoute(message.path))] && s.buckets == map[] && s.exchanges == []
    requires t == Accept(s, maxSize, Pending(message), 0, true)
    ensures |t.exchanges| == 1
    ensures var u := Accept(t, maxSize, Pending(message), 0, false);
            && |u.exchanges| == 2 && u.exchanges[1].stage.Closed?
            && Refused(u.exchanges[1]) && u.exchanges[1].stage.threw
  {
    var limit := LimitOf(LimitedRoute(message.path));
    assert Match(s.registry, message.path) == Some(LimitedRoute(message.path));
    var key := Store.ClientKey("client", message.path);
    assert BucketSpec.Gain(1.0, 0) == 0.0;
    assert t.buckets[key] == BucketSpec.Bucket(limit, 0.0, 0, 0);
  }

  /** Two requests at once for a route with one token: the second is refused, writing its 429
      throws, and it is logged twice. */
  lemma RefusalLoggedTwice(message: CacheKey.Request, maxSize: int, s: State)
    returns (events: seq<Event>, t: State)
    requires Initial(s) && s.registry == [(message.path, LimitedRoute(message.path))]
    ensures Possible(s, maxSize, events) && t == After(s, maxSize, events) && |t.exchanges| == 2
    ensures |PT.EntriesOf(t.logger.rows + LT.InFlight(t.logger) + t.logger.buffer, 1)| == 2
  {
    events := [Request(Pending(message), 0, true), Request(Pending(message), 0, false)];
    var u := Step(s, maxSize, events[0]);
    t := Step(u, maxSize, events[1]);
    SecondIsRefused(message, maxSize, s, u);
    var states := [s, u, t];
    assert PT.Leads(s, maxSize, events[0], u) && PT.Leads(u, maxSize, events[1], t);
    PT.TraceIsRun(states, maxSize, events);
    LoggedOnceUnlessRefusalThrows(s, maxSize, events, t, 1);
  }
}
