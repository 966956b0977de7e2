/** The end-to-end bound: what one client makes the upstream do is limited by its tokens. */
module PipelineBound {
  import opened Collections
  import opened Wrappers
  import opened RouteSpec
  import opened PipelineSpec
  import opened BucketSpec
  import Store = BucketStoreSpec
  import BT = BucketTheorems
  import SB = BucketStoreBound
  import Co = Coalescing
  import CT = CoalescingTheorems
  import CP = CoalescingProgress
  import CacheKey

  // ---------- Which exchange made which fetch ----------

  /** Call r of `getOrFetch` was made by an exchange that had its token, if it needed one. */
  predicate CallerOf(s: State, r: nat)
    requires r < |s.callers|
  {
    && s.callers[r] < |s.exchanges|
    && var x := s.exchanges[s.callers[r]];
    && (x.stage == Proxying(r) || (x.stage.Closed? && x.stage.after == Some(r)))
    && (x.ticket.Some? ==> x.granted)
  }

  predicate Admissible(x: Exchange) {
    x.stage.Collecting? && x.ticket.Some? ==> x.granted
  }

  ghost predicate Wired(s: State) {
    && |s.callers| == |s.co.requests|
    && (forall r :: 0 <= r < |s.callers| ==> CallerOf(s, r))
    && (forall q, r :: 0 <= q < r < |s.callers| ==> s.callers[q] != s.callers[r])
    && (forall i :: 0 <= i < |s.exchanges| ==> Admissible(s.exchanges[i]))
  }

  /** No call of `getOrFetch` starts two fetches. */
  ghost predicate OwnersOrdered(c: Co.State) {
    && (forall p :: 0 <= p < |c.promises| ==> c.promises[p].owner < |c.requests|)
    && (forall p, q :: 0 <= p < q < |c.promises| ==> c.promises[p].owner < c.promises[q].owner)
  }

  lemma CoStepKeepsOwners(c: Co.State, e: Co.Event)
    requires OwnersOrdered(c) && Co.Enabled(c, e)
    ensures OwnersOrdered(Co.Step(c, e))
    ensures |Co.Step(c, e).requests| == |c.requests| + (if e.Arrive? then 1 else 0)
  {
  }

  lemma CoStepKeepsReachable(c: Co.State, e: Co.Event)
    requires CT.Reachable(c) && Co.Enabled(c, e)
    ensures CT.Reachable(Co.Step(c, e))
  {
    assert Co.After(c, [e]) == Co.Step(c, e);
    CP.ReachableAfter(c, [e]);
  }

  // ---------- Each step keeps the wiring ----------

  /** An exchange ends, after the call it was waiting for if it made one. */
  predicate Ends(x: Exchange, end: Stage) {
    end.Closed? && !x.stage.Closed? && (x.stage.Proxying? ==> end.after == Some(x.stage.call))
  }

  lemma CloseKeepsWired(s: State, t: State, i: nat, end: Stage)
    requires Wired(s) && i < |s.exchanges| && Ends(s.exchanges[i], end)
    requires t.callers == s.callers && |t.co.requests| == |s.co.requests|
    requires t.exchanges == s.exchanges[i := s.exchanges[i].(stage := end)]
    ensures Wired(t)
  {
    forall r | 0 <= r < |t.callers| ensures CallerOf(t, r) {
      assert CallerOf(s, r);
    }
    forall j | 0 <= j < |t.exchanges| ensures Admissible(t.exchanges[j]) {
      assert Admissible(s.exchanges[j]);
    }
  }

  /** A new exchange is opened. */
  lemma OpenKeepsWired(s: State, t: State)
    requires Wired(s) && t.callers == s.callers && |t.co.requests| == |s.co.requests|
    requires |t.exchanges| == |s.exchanges| + 1 && t.exchanges[..|s.exchanges|] == s.exchanges
    requires Admissible(t.exchanges[|s.exchanges|])
    ensures Wired(t)
  {
    assert forall j :: 0 <= j < |s.exchanges| ==> t.exchanges[j] == s.exchanges[j];
    forall r | 0 <= r < |t.callers| ensures CallerOf(t, r) {
      assert CallerOf(s, r);
    }
    forall j | 0 <= j < |t.exchanges| ensures Admissible(t.exchanges[j]) {
      if j < |s.exchanges| {
        assert Admissible(s.exchanges[j]);
      }
    }
  }

  /** Exchange i calls `getOrFetch`. */
  lemma CallKeepsWired(s: State, t: State, i: nat)
    requires Wired(s) && i < |s.exchanges| && s.exchanges[i].stage.Collecting?
    requires |t.co.requests| == |s.co.requests| + 1 && t.callers == s.callers + [i]
    requires t.exchanges == s.exchanges[i := s.exchanges[i].(stage := Proxying(|s.co.requests|))]
    ensures Wired(t)
  {
    assert Admissible(s.exchanges[i]);
    forall r | 0 <= r < |s.callers| ensures CallerOf(t, r) && t.callers[r] != i {
      assert CallerOf(s, r);
    }
    forall j | 0 <= j < |t.exchanges| ensures Admissible(t.exchanges[j]) {
      assert Admissible(s.exchanges[j]);
    }
  }

  // ---------- Tokens ----------

  /** The exchanges to which the rate limiter gave a token under this key. */
  ghost function Granted(s: State, key: string): set<nat> {
    set i | 0 <= i < |s.exchanges| && s.exchanges[i].ticket == Some(key) && s.exchanges[i].granted
  }

  /** The upstream fetches made for exchanges under this key. */
  ghost function UpstreamFetches(s: State, key: string): set<nat> {
    set p | 0 <= p < |s.co.promises| && FetchFor(s, p, key)
  }

  predicate FetchFor(s: State, p: nat, key: string)
    requires p < |s.co.promises|
  {
    && s.co.promises[p].owner < |s.callers|
    && s.callers[s.co.promises[p].owner] < |s.exchanges|
    && s.exchanges[s.callers[s.co.promises[p].owner]].ticket == Some(key)
  }

  /** Each fetch is paid for by a token of its own. */
  lemma FetchesArePaid(s: State, key: string)
    requires Wired(s) && OwnersOrdered(s.co)
    ensures |UpstreamFetches(s, key)| <= |Granted(s, key)|
  {
    var payer := map p | p in UpstreamFetches(s, key) :: s.callers[s.co.promises[p].owner];
    forall p | p in UpstreamFetches(s, key) ensures p in payer && payer[p] in Granted(s, key) {
      assert CallerOf(s, s.co.promises[p].owner);
    }
    InjectionSize(UpstreamFetches(s, key), Granted(s, key), payer);
  }

  // ---------- The rate limiter's history ----------

  lemma {:induction false} StoreRunAppends(b: Store.Store, ops: seq<Store.Op>, op: Store.Op)
    ensures Store.RunStore(b, ops + [op]) == Store.Apply(Store.RunStore(b, ops), op)
    decreases |ops|
  {
    if ops == [] {
      assert ops + [op] == [op] && [op][1..] == [];
    } else {
      assert (ops + [op])[0] == ops[0] && (ops + [op])[1..] == ops[1..] + [op];
      StoreRunAppends(Store.Apply(b, ops[0]), ops[1..], op);
    }
  }

  lemma AnswersAppend(b: Store.Store, ops: seq<Store.Op>, op: Store.Op, key: string)
    ensures Store.AnswersFor(b, ops + [op], key)
            == Store.AnswersFor(b, ops, key) + Store.AnswerTo(Store.RunStore(b, ops), op, key)
  {
    SB.AnswersForSplit(b, ops, [op], key);
    assert [op][1..] == [];
  }

  /** The tokens the rate limiter has given out under a key over its whole history. */
  function TokensGranted(s: State, key: string): nat {
    Admitted(Store.AnswersFor(map[], s.storeOps, key))
  }

  ghost predicate Accounted(s: State) {
    && s.buckets == Store.RunStore(map[], s.storeOps)
    && (forall key :: |Granted(s, key)| == TokensGranted(s, key))
  }

  /** Steps that ask nothing of the rate limiter. */
  lemma KeepsAccounted(s: State, t: State)
    requires Accounted(s) && t.buckets == s.buckets && t.storeOps == s.storeOps
    requires |s.exchanges| <= |t.exchanges|
    requires forall i :: 0 <= i < |s.exchanges| ==>
               t.exchanges[i].ticket == s.exchanges[i].ticket && t.exchanges[i].granted == s.exchanges[i].granted
    requires forall i :: |s.exchanges| <= i < |t.exchanges| ==> t.exchanges[i].ticket.None?
    ensures Accounted(t)
  {
    forall key ensures |Granted(t, key)| == TokensGranted(t, key) {
      assert Granted(t, key) == Granted(s, key);
    }
  }

  lemma PruneKeepsAccounted(s: State, t: State, now: int)
    requires Accounted(s) && t.exchanges == s.exchanges
    requires t.buckets == Store.Prune(s.buckets, now) && t.storeOps == s.storeOps + [Store.PruneAt(now)]
    ensures Accounted(t)
  {
    StoreRunAppends(map[], s.storeOps, Store.PruneAt(now));
    forall key ensures |Granted(t, key)| == TokensGranted(t, key) {
      var answers := Store.AnswersFor(map[], s.storeOps, key);
      AnswersAppend(map[], s.storeOps, Store.PruneAt(now), key);
      assert answers + [] == answers;
      assert Granted(t, key) == Granted(s, key);
    }
  }

  lemma GrantedAppends(s: State, t: State, key: string)
    requires |t.exchanges| == |s.exchanges| + 1
    requires forall j :: 0 <= j < |s.exchanges| ==> t.exchanges[j] == s.exchanges[j]
    ensures var x := t.exchanges[|s.exchanges|];
            |Granted(t, key)| == |Granted(s, key)| + (if x.ticket == Some(key) && x.granted then 1 else 0)
  {
    var n := |s.exchanges|;
    var x := t.exchanges[n];
    assert n !in Granted(s, key);
    assert Granted(t, key) == Granted(s, key) + (if x.ticket == Some(key) && x.granted then {n} else {});
  }

  lemma TokensAppend(s: State, t: State, ask: Store.Op, key: string)
    requires Accounted(s) && ask.Ask? && t.storeOps == s.storeOps + [ask]
    ensures var allowed := Store.ConsumeToken(s.buckets, ask.key, ask.limit, ask.now).1.allowed;
            TokensGranted(t, key) == TokensGranted(s, key) + (if key == ask.key && allowed then 1 else 0)
  {
    var answers := Store.AnswersFor(map[], s.storeOps, key);
    AnswersAppend(map[], s.storeOps, ask, key);
    BT.AdmittedSplits(answers, Store.AnswerTo(s.buckets, ask, key));
    assert answers + [] == answers;
  }

  lemma AskKeepsAccounted(s: State, t: State, ask: Store.Op)
    requires Accounted(s) && ask.Ask?
    requires t.buckets == Store.Apply(s.buckets, ask) && t.storeOps == s.storeOps + [ask]
    requires |t.exchanges| == |s.exchanges| + 1 && t.exchanges[..|s.exchanges|] == s.exchanges
    requires var x := t.exchanges[|s.exchanges|];
             && x.ticket == Some(ask.key)
             && x.granted == Store.ConsumeToken(s.buckets, ask.key, ask.limit, ask.now).1.allowed
    ensures Accounted(t)
  {
    StoreRunAppends(map[], s.storeOps, ask);
    assert forall j :: 0 <= j < |s.exchanges| ==> t.exchanges[j] == s.exchanges[j];
    forall key ensures |Granted(t, key)| == TokensGranted(t, key) {
      GrantedAppends(s, t, key);
      TokensAppend(s, t, ask, key);
    }
  }

  // ---------- Every run ----------

  ghost predicate Sound(s: State) {
    Wired(s) && CT.Reachable(s.co) && OwnersOrdered(s.co) && Accounted(s)
  }

  lemma CloseKeepsSound(s: State, maxSize: int, i: nat, end: Stage)
    requires Sound(s) && i < |s.exchanges| && Ends(s.exchanges[i], end)
    ensures Sound(Close(s, maxSize, i, s.exchanges[i], end))
  {
    CloseKeepsWired(s, Close(s, maxSize, i, s.exchanges[i], end), i, end);
    KeepsAccounted(s, Close(s, maxSize, i, s.exchanges[i], end));
  }

  lemma ProceedKeepsSound(s: State, maxSize: int, i: nat, now: int)
    requires Sound(s) && i < |s.exchanges| && s.exchanges[i].route.Some? && s.exchanges[i].stage.Collecting?
    ensures Sound(Proceed(s, maxSize, i, now))
  {
    var x, t := s.exchanges[i], Proceed(s, maxSize, i, now);
    if !x.route.value.urlParses {
      CloseKeepsSound(s, maxSize, i, BadGateway(x, i, None, false));
    } else {
      var arrival := Co.Arrive(CacheKey.IsCacheable(x.req.message), CacheKey.BuildCacheKey(x.req.message),
                               TtlOf(x.route.value), now);
      CoStepKeepsOwners(s.co, arrival);
      CoStepKeepsReachable(s.co, arrival);
      CallKeepsWired(s, t, i);
      KeepsAccounted(s, t);
    }
  }

  lemma AdmitKeepsAccounted(s: State, req: HttpRequest, route: Route, now: int)
    requires Accounted(s)
    ensures Accounted(Admit(s, req, route, now))
  {
    var t := Admit(s, req, route, now);
    if !route.rateLimitEnabled {
      KeepsAccounted(s, t);
    } else {
      AskKeepsAccounted(s, t, Store.Ask(Store.ClientKey(req.clientIp, route.prefix), LimitOf(route), now));
    }
  }

  lemma AcceptKeepsSound(s: State, maxSize: int, req: HttpRequest, now: int, sent: bool)
    requires Sound(s)
    ensures Sound(Accept(s, maxSize, req, now, sent))
  {
    var i, u := |s.exchanges|, Accept(s, maxSize, req, now, sent);
    match Match(s.registry, req.message.path)
    case None =>
      OpenKeepsWired(s, u);
      KeepsAccounted(s, u);
    case Some(route) =>
      var t := Admit(s, req, route, now);
      var x := t.exchanges[i];
      AdmitKeepsAccounted(s, req, route, now);
      if x.ticket.Some? && !x.granted {
        OpenKeepsWired(s, u);
        KeepsAccounted(t, u);
      } else {
        OpenKeepsWired(s, t);
        if !req.bodyPending {
          ProceedKeepsSound(t, maxSize, i, now);
        }
      }
  }

  lemma StepKeepsSound(s: State, maxSize: int, e: Event)
    requires Sound(s) && Enabled(s, e)
    ensures Sound(Step(s, maxSize, e))
  {
    var t := Step(s, maxSize, e);
    match e
    case Request(req, now, sent) => AcceptKeepsSound(s, maxSize, req, now, sent);
    case BodyRead(i, now) => ProceedKeepsSound(s, maxSize, i, now);
    case Respond(i, sent) => CloseKeepsSound(s, maxSize, i, Ending(s, i, sent));
    case Upstream(p, outcome) => CoKeepsSound(s, Co.Settle(p, outcome));
    case FetchResume(r, now) => CoKeepsSound(s, Co.Resume(r, now));
    case Prune(now) =>
      RewireUnchanged(s, t);
      PruneKeepsAccounted(s, t, now);
    case _ =>
      RewireUnchanged(s, t);
      KeepsAccounted(s, t);
  }

  lemma RewireUnchanged(s: State, t: State)
    requires Wired(s) && t.exchanges == s.exchanges && t.callers == s.callers
    requires |t.co.requests| == |s.co.requests|
    ensures Wired(t)
  {
    forall r | 0 <= r < |t.callers| ensures CallerOf(t, r) {
      assert CallerOf(s, r);
    }
  }

  lemma CoKeepsSound(s: State, e: Co.Event)
    requires Sound(s) && !e.Arrive? && Co.Enabled(s.co, e)
    ensures Sound(s.(co := Co.Step(s.co, e)))
  {
    var t := s.(co := Co.Step(s.co, e));
    CoStepKeepsOwners(s.co, e);
    CoStepKeepsReachable(s.co, e);
    RewireUnchanged(s, t);
    KeepsAccounted(s, t);
  }

  lemma {:induction false} RunKeepsSound(s: State, maxSize: int, events: seq<Event>)
    requires Sound(s) && Possible(s, maxSize, events)
    ensures Sound(After(s, maxSize, events))
    decreases |events|
  {
    if events != [] {
      StepKeepsSound(s, maxSize, events[0]);
      RunKeepsSound(Step(s, maxSize, events[0]), maxSize, events[1..]);
    }
  }

  lemma InitialIsSound(s: State)
    requires Initial(s)
    ensures Sound(s)
  {
    assert Co.After(s.co, []) == s.co;
    forall key ensures |Granted(s, key)| == TokensGranted(s, key) {
      assert Granted(s, key) == {};
    }
  }

  /** In every run the fetches made for one client and route never outnumber the tokens its
      bucket has given out, and what the proxy's cache does is a run of the coalescing protocol,
      so that all its promises hold here. */
  lemma FetchesWithinTokens(s: State, maxSize: int, events: seq<Event>, key: string)
    requires Initial(s) && Possible(s, maxSize, events)
    ensures var t := After(s, maxSize, events);
            |UpstreamFetches(t, key)| <= TokensGranted(t, key) && CT.Reachable(t.co)
  {
    InitialIsSound(s);
    RunKeepsSound(s, maxSize, events);
    FetchesArePaid(After(s, maxSize, events), key);
  }

  /** The fetches for one client and route number at most the burst size plus what the pace of
      its limit allows between its first and its latest request, given a clock that does not go
      back. The route's limit may change within `most`; other clients and routes, their limits,
      and the points at which idle buckets are pruned are arbitrary. */
  lemma UpstreamBound(s: State, maxSize: int, events: seq<Event>, t: State, key: string,
                      most: Limit, start: int, times: seq<int>)
    requires Initial(s) && Possible(s, maxSize, events) && t == After(s, maxSize, events)
    requires SB.AskedWithin(t.storeOps, key, most) && Store.Monotone(start, t.storeOps)
    requires times == Store.TimesOf(t.storeOps, key)
    ensures times == [] ==> |UpstreamFetches(t, key)| == 0
    ensures times != [] ==>
              |UpstreamFetches(t, key)| as real
              <= most.capacity as real
                 + Gain(SB.PacedRate(most, !SB.NeverPruned(t.storeOps)), times[|times| - 1] - times[0])
  {
    FetchesWithinTokens(s, maxSize, events, key);
    SB.SharedStoreTotalBound(start, t.storeOps, key, most, times);
  }
}
