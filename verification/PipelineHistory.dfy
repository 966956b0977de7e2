/** Who asked the rate limiter for what: exchanges, their routes and their tickets, told from the
    requests and reloads of a run. */
module PipelineHistory {
  import opened Collections
  import opened Wrappers
  import opened RouteSpec
  import opened PipelineSpec
  import opened BucketSpec
  import Store = BucketStoreSpec
  import ST = BucketStoreTheorems
  import SB = BucketStoreBound
  import PB = PipelineBound

  // ---------- A request becomes an exchange ----------

  /** The rows of the last reload, or those loaded at the start. */
  function RowsNow(rows: seq<Route>, events: seq<Event>): seq<Route>
    decreases |events|
  {
    if events == [] then rows
    else RowsNow(if events[0].Reload? then events[0].rows else rows, events[1..])
  }

  function RequestCount(events: seq<Event>): nat {
    if events == [] then 0 else (if events[0].Request? then 1 else 0) + RequestCount(events[1..])
  }

  /** The ticket under which a client asks for a token: its address, a colon and the prefix of its
      route, if that route is limited. */
  function TicketFor(route: Option<Route>, clientIp: string): Option<string> {
    match route
    case Some(r) => if r.rateLimitEnabled then Some(clientIp + [':'] + r.prefix) else None
    case None => None
  }

  /** What an exchange is from its start on. */
  predicate Kept(x: Exchange, y: Exchange) {
    && y.req == x.req && y.start == x.start && y.route == x.route
    && y.ticket == x.ticket && y.granted == x.granted
  }

  /** Nothing is added, and exchanges change at most by their stage. */
  ghost predicate Same(s: State, t: State) {
    && |t.exchanges| == |s.exchanges| && t.registry == s.registry && t.storeOps == s.storeOps
    && (forall i :: 0 <= i < |s.exchanges| ==> Kept(s.exchanges[i], t.exchanges[i]))
  }

  lemma ProceedIsSame(s: State, maxSize: int, i: nat, now: int)
    requires i < |s.exchanges| && s.exchanges[i].route.Some?
    ensures Same(s, Proceed(s, maxSize, i, now))
  {
  }

  /** A request is admitted as a new exchange, and then goes on as that exchange. */
  lemma AcceptAfterAdmit(s: State, maxSize: int, req: HttpRequest, now: int, sent: bool, route: Route)
    requires Match(s.registry, req.message.path) == Some(route)
    ensures Same(Admit(s, req, route, now), Accept(s, maxSize, req, now, sent))
  {
    var t, i := Admit(s, req, route, now), |s.exchanges|;
    ProceedIsSame(t, maxSize, i, now);
  }

  /** The new exchange of an admitted request, and its ask. */
  lemma AdmitOpens(s: State, req: HttpRequest, route: Route, now: int)
    ensures var t := Admit(s, req, route, now);
            && |t.exchanges| == |s.exchanges| + 1 && t.exchanges[..|s.exchanges|] == s.exchanges
            && t.registry == s.registry
            && var x := t.exchanges[|s.exchanges|];
            && x.req == req && x.start == now && x.route == Some(route)
            && x.ticket == TicketFor(x.route, req.clientIp)
            && t.storeOps == s.storeOps + AskOf(x)
  {
    if !route.rateLimitEnabled {
      assert s.storeOps + [] == s.storeOps;
    }
  }

  /** What the request added: its exchange, on the route that matches, and that one's ask. */
  ghost predicate Opened(s: State, t: State, req: HttpRequest, now: int) {
    && |t.exchanges| == |s.exchanges| + 1 && t.registry == s.registry
    && (forall i :: 0 <= i < |s.exchanges| ==> Kept(s.exchanges[i], t.exchanges[i]))
    && var x := t.exchanges[|s.exchanges|];
    && x.req == req && x.start == now && x.route == Match(s.registry, req.message.path)
    && x.ticket == TicketFor(x.route, req.clientIp)
    && t.storeOps == s.storeOps + AskOf(x)
  }

  lemma AcceptOpens(s: State, maxSize: int, req: HttpRequest, now: int, sent: bool)
    ensures Opened(s, Accept(s, maxSize, req, now, sent), req, now)
  {
    var t := Accept(s, maxSize, req, now, sent);
    match Match(s.registry, req.message.path)
    case None => assert s.storeOps + [] == s.storeOps;
    case Some(route) =>
      var u := Admit(s, req, route, now);
      AdmitOpens(s, req, route, now);
      AcceptAfterAdmit(s, maxSize, req, now, sent, route);
      assert forall i :: 0 <= i < |s.exchanges| ==> u.exchanges[i] == s.exchanges[i];
      assert Kept(u.exchanges[|s.exchanges|], t.exchanges[|s.exchanges|]);
  }

  /** Only a request adds an exchange, and only by its stage does an exchange change. */
  lemma StepKeeps(s: State, maxSize: int, e: Event)
    requires Enabled(s, e)
    ensures var t := Step(s, maxSize, e);
            match e
            case Request(req, now, _) => Opened(s, t, req, now)
            case Reload(rows) => t == s.(registry := Load(rows))
            case Prune(now) => t == s.(buckets := t.buckets, storeOps := s.storeOps + [Store.PruneAt(now)])
            case _ => Same(s, t)
  {
    match e
    case Request(req, now, sent) => AcceptOpens(s, maxSize, req, now, sent);
    case BodyRead(i, now) => ProceedIsSame(s, maxSize, i, now);
    case _ =>
  }

  lemma {:induction false} RunKeeps(s: State, rows: seq<Route>, maxSize: int, events: seq<Event>)
    requires Possible(s, maxSize, events) && s.registry == Load(rows)
    ensures var t := After(s, maxSize, events);
            && |t.exchanges| == |s.exchanges| + RequestCount(events)
            && (forall i :: 0 <= i < |s.exchanges| ==> Kept(s.exchanges[i], t.exchanges[i]))
            && t.registry == Load(RowsNow(rows, events))
    decreases |events|
  {
    if events != [] {
      var u := Step(s, maxSize, events[0]);
      StepKeeps(s, maxSize, events[0]);
      RunKeeps(u, if events[0].Reload? then events[0].rows else rows, maxSize, events[1..]);
      var t := After(s, maxSize, events);
      assert forall i :: 0 <= i < |s.exchanges| ==> Kept(s.exchanges[i], u.exchanges[i]);
    }
  }

  /** Exchange number n is request number n of the run: at its own time, on the route that
      longest-prefix matching finds in the rows last loaded before it, and with the ticket of its
      own client and route, whatever happens before and after. */
  lemma ExchangeIsRequest(s: State, rows: seq<Route>, maxSize: int, before: seq<Event>, u: State,
                          req: HttpRequest, now: int, sent: bool, after: seq<Event>, t: State)
    requires Initial(s) && s.registry == Load(rows)
    requires Possible(s, maxSize, before) && u == After(s, maxSize, before)
    requires Possible(Step(u, maxSize, Request(req, now, sent)), maxSize, after)
    requires t == After(Step(u, maxSize, Request(req, now, sent)), maxSize, after)
    ensures var n := RequestCount(before);
            && n < |t.exchanges| == n + 1 + RequestCount(after)
            && var x := t.exchanges[n];
            && x.req == req && x.start == now
            && IsLongestMatch(RowsNow(rows, before), req.message.path, x.route)
            && x.ticket == TicketFor(x.route, req.clientIp)
  {
    RunKeeps(s, rows, maxSize, before);
    var v := Step(u, maxSize, Request(req, now, sent));
    StepKeeps(u, maxSize, Request(req, now, sent));
    LongestPrefixWins(RowsNow(rows, before), req.message.path);
    RunKeeps(v, RowsNow(rows, before), maxSize, after);
    assert Kept(v.exchanges[RequestCount(before)], t.exchanges[RequestCount(before)]);
  }

  // ---------- What the rate limiter is asked ----------

  /** The ask an exchange makes: for a limited route, one, under its ticket, with the route's own
      capacity and rate, at its start. */
  function AskOf(x: Exchange): seq<Store.Op> {
    match (x.ticket, x.route)
    case (Some(key), Some(r)) => [Store.Ask(key, Limit(r.capacity, r.refillRate), x.start)]
    case _ => []
  }

  function AsksOf(xs: seq<Exchange>): seq<Store.Op> {
    if xs == [] then [] else AskOf(xs[0]) + AsksOf(xs[1..])
  }

  lemma {:induction false} AsksOfKept(xs: seq<Exchange>, ys: seq<Exchange>)
    requires |xs| == |ys| && forall i :: 0 <= i < |xs| ==> Kept(xs[i], ys[i])
    ensures AsksOf(xs) == AsksOf(ys)
    ensures forall key :: GrantsTo(xs, key) == GrantsTo(ys, key)
  {
    if xs != [] {
      assert Kept(xs[0], ys[0]);
      AsksOfKept(xs[1..], ys[1..]);
    }
  }

  lemma {:induction false} AsksOfAppend(xs: seq<Exchange>, x: Exchange)
    ensures AsksOf(xs + [x]) == AsksOf(xs) + AskOf(x)
    ensures forall key :: GrantsTo(xs + [x], key) == GrantsTo(xs, key) + GrantTo(x, key)
  {
    if xs == [] {
      assert xs + [x] == [x] && [x][1..] == [];
    } else {
      assert (xs + [x])[0] == xs[0] && (xs + [x])[1..] == xs[1..] + [x];
      AsksOfAppend(xs[1..], x);
      Regroup(AskOf(xs[0]), AsksOf(xs[1..]), AskOf(x));
      forall key ensures GrantsTo(xs + [x], key) == GrantsTo(xs, key) + GrantTo(x, key) {
        Regroup(GrantTo(xs[0], key), GrantsTo(xs[1..], key), GrantTo(x, key));
      }
    }
  }

  /** What the exchanges with one ticket were told, in order: a token or none. */
  function GrantTo(x: Exchange, key: string): seq<bool> {
    if x.ticket == Some(key) then [x.granted] else []
  }

  function GrantsTo(xs: seq<Exchange>, key: string): seq<bool> {
    if xs == [] then [] else GrantTo(xs[0], key) + GrantsTo(xs[1..], key)
  }

  function Flags(vs: seq<Verdict>): seq<bool> {
    if vs == [] then [] else [vs[0].allowed] + Flags(vs[1..])
  }

  lemma {:induction false} FlagsSplit(a: seq<Verdict>, b: seq<Verdict>)
    ensures Flags(a + b) == Flags(a) + Flags(b)
  {
    if a == [] {
      assert a + b == b;
    } else {
      assert (a + b)[0] == a[0] && (a + b)[1..] == a[1..] + b;
      FlagsSplit(a[1..], b);
    }
  }

  /** Tickets are the clients' own, the limiter has been asked exactly for them, in order, and each
      exchange was told what the limiter answered. */
  ghost predicate Ticketed(s: State) {
    && (forall x :: x in s.exchanges ==> x.ticket == TicketFor(x.route, x.req.clientIp))
    && Store.Unpruned(s.storeOps) == AsksOf(s.exchanges)
    && (forall key :: GrantsTo(s.exchanges, key) == Flags(Store.AnswersFor(map[], s.storeOps, key)))
  }

  /** Steps that neither ask nor prune. */
  lemma SameKeepsTicketed(s: State, t: State)
    requires Ticketed(s) && Same(s, t)
    ensures Ticketed(t)
  {
    AsksOfKept(s.exchanges, t.exchanges);
  }

  lemma PruneKeepsTicketed(s: State, t: State, now: int)
    requires Ticketed(s) && t.exchanges == s.exchanges && t.storeOps == s.storeOps + [Store.PruneAt(now)]
    ensures Ticketed(t)
  {
    ST.UnprunedSplit(s.storeOps, [Store.PruneAt(now)]);
    assert Store.Unpruned(s.storeOps) + [] == Store.Unpruned(s.storeOps);
    forall key ensures Store.AnswersFor(map[], t.storeOps, key) == Store.AnswersFor(map[], s.storeOps, key) {
      PB.AnswersAppend(map[], s.storeOps, Store.PruneAt(now), key);
      assert Store.AnswersFor(map[], s.storeOps, key) + [] == Store.AnswersFor(map[], s.storeOps, key);
    }
  }

  lemma OpenWithoutAsk(s: State, t: State, x: Exchange)
    requires Ticketed(s) && t.exchanges == s.exchanges + [x] && t.storeOps == s.storeOps
    requires x.ticket == TicketFor(x.route, x.req.clientIp) == None
    ensures Ticketed(t)
  {
    AsksOfAppend(s.exchanges, x);
    assert AskOf(x) == [] && AsksOf(s.exchanges) + [] == AsksOf(s.exchanges);
    forall key ensures GrantsTo(t.exchanges, key) == GrantsTo(s.exchanges, key) {
      assert GrantsTo(s.exchanges, key) + [] == GrantsTo(s.exchanges, key);
    }
  }

  lemma AskIsFlagged(s: State, x: Exchange, ask: Store.Op, key: string)
    requires s.buckets == Store.RunStore(map[], s.storeOps) && ask.Ask? && x.ticket == Some(ask.key)
    requires x.granted == Store.ConsumeToken(s.buckets, ask.key, ask.limit, ask.now).1.allowed
    ensures Flags(Store.AnswersFor(map[], s.storeOps + [ask], key))
            == Flags(Store.AnswersFor(map[], s.storeOps, key)) + GrantTo(x, key)
  {
    var answer := Store.AnswerTo(s.buckets, ask, key);
    PB.AnswersAppend(map[], s.storeOps, ask, key);
    FlagsSplit(Store.AnswersFor(map[], s.storeOps, key), answer);
    assert key == ask.key ==> answer[1..] == [] && Flags(answer) == [answer[0].allowed];
  }

  /** An exchange of a limited route is opened, with its ask and what it was told. */
  lemma OpenWithAsk(s: State, t: State, x: Exchange, ask: Store.Op)
    requires Ticketed(s) && s.buckets == Store.RunStore(map[], s.storeOps)
    requires AskOf(x) == [ask] && x.ticket == TicketFor(x.route, x.req.clientIp)
    requires t.exchanges == s.exchanges + [x] && t.storeOps == s.storeOps + [ask]
    requires x.granted == Store.ConsumeToken(s.buckets, ask.key, ask.limit, ask.now).1.allowed
    ensures Ticketed(t)
  {
    AsksOfAppend(s.exchanges, x);
    ST.UnprunedSplit(s.storeOps, [ask]);
    assert Store.Unpruned([ask]) == [ask];
    forall key ensures GrantsTo(t.exchanges, key) == Flags(Store.AnswersFor(map[], t.storeOps, key)) {
      AskIsFlagged(s, x, ask, key);
    }
  }

  lemma AdmitKeepsTicketed(s: State, req: HttpRequest, route: Route, now: int)
    requires Ticketed(s) && s.buckets == Store.RunStore(map[], s.storeOps)
    ensures Ticketed(Admit(s, req, route, now))
  {
    var t := Admit(s, req, route, now);
    var x := t.exchanges[|s.exchanges|];
    if route.rateLimitEnabled {
      OpenWithAsk(s, t, x, AskOf(x)[0]);
    } else {
      OpenWithoutAsk(s, t, x);
    }
  }

  lemma AcceptKeepsTicketed(s: State, maxSize: int, req: HttpRequest, now: int, sent: bool)
    requires Ticketed(s) && s.buckets == Store.RunStore(map[], s.storeOps)
    ensures Ticketed(Accept(s, maxSize, req, now, sent))
  {
    var t := Accept(s, maxSize, req, now, sent);
    match Match(s.registry, req.message.path)
    case None => OpenWithoutAsk(s, t, t.exchanges[|s.exchanges|]);
    case Some(route) =>
      AdmitKeepsTicketed(s, req, route, now);
      AcceptAfterAdmit(s, maxSize, req, now, sent, route);
      SameKeepsTicketed(Admit(s, req, route, now), t);
  }

  lemma StepKeepsTicketed(s: State, maxSize: int, e: Event)
    requires Ticketed(s) && s.buckets == Store.RunStore(map[], s.storeOps) && Enabled(s, e)
    ensures Ticketed(Step(s, maxSize, e))
  {
    var t := Step(s, maxSize, e);
    if e.Request? {
      AcceptKeepsTicketed(s, maxSize, e.req, e.now, e.sent);
    } else {
      StepKeeps(s, maxSize, e);
      match e
      case Prune(now) => PruneKeepsTicketed(s, t, now);
      case Reload(rows) => SameKeepsTicketed(s.(registry := t.registry), t);
      case _ => SameKeepsTicketed(s, t);
    }
  }

  lemma {:induction false} RunKeepsTicketed(s: State, maxSize: int, events: seq<Event>)
    requires Ticketed(s) && PB.Sound(s) && Possible(s, maxSize, events)
    ensures Ticketed(After(s, maxSize, events)) && PB.Sound(After(s, maxSize, events))
    decreases |events|
  {
    if events != [] {
      StepKeepsTicketed(s, maxSize, events[0]);
      PB.StepKeepsSound(s, maxSize, events[0]);
      RunKeepsTicketed(Step(s, maxSize, events[0]), maxSize, events[1..]);
    }
  }

  lemma ReachedIsTicketed(s: State, maxSize: int, events: seq<Event>)
    requires Initial(s) && Possible(s, maxSize, events)
    ensures Ticketed(After(s, maxSize, events)) && PB.Sound(After(s, maxSize, events))
  {
    PB.InitialIsSound(s);
    RunKeepsTicketed(s, maxSize, events);
  }

  /** In every run: an exchange of a limited route has the ticket of its own client and prefix, any
      other has none; the limiter has been asked exactly for those exchanges, in order, under
      their tickets and with their routes' own limits; and the exchanges with one ticket were
      told, in order, what a store of their own asks and the prunes alone would answer. */
  lemma TicketsAreOwn(s: State, maxSize: int, events: seq<Event>, t: State)
    requires Initial(s) && Possible(s, maxSize, events) && t == After(s, maxSize, events)
    ensures forall x :: x in t.exchanges ==> x.ticket == TicketFor(x.route, x.req.clientIp)
    ensures Store.Unpruned(t.storeOps) == AsksOf(t.exchanges)
    ensures forall key :: GrantsTo(t.exchanges, key) == Flags(Store.Answers(map[], ST.Project(t.storeOps, key)))
  {
    ReachedIsTicketed(s, maxSize, events);
    forall key ensures GrantsTo(t.exchanges, key) == Flags(Store.Answers(map[], ST.Project(t.storeOps, key))) {
      ST.KeysAreIsolated(map[], map[], t.storeOps, key);
    }
  }

  // ---------- The limiter's history, from the events ----------

  /** What the events of a run ask of the rate limiter, in order: each request the ask of its
      exchange, and each prune itself; the first request is exchange number n. */
  function LimiterHistory(xs: seq<Exchange>, n: nat, events: seq<Event>): seq<Store.Op>
    requires n + RequestCount(events) <= |xs|
    decreases |events|
  {
    if events == [] then []
    else match events[0]
      case Request(_, _, _) => AskOf(xs[n]) + LimiterHistory(xs, n + 1, events[1..])
      case Prune(now) => [Store.PruneAt(now)] + LimiterHistory(xs, n, events[1..])
      case _ => LimiterHistory(xs, n, events[1..])
  }

  lemma {:induction false} RunIsHistory(s: State, rows: seq<Route>, maxSize: int, events: seq<Event>, t: State)
    requires Possible(s, maxSize, events) && t == After(s, maxSize, events) && s.registry == Load(rows)
    ensures |t.exchanges| == |s.exchanges| + RequestCount(events)
    ensures t.storeOps == s.storeOps + LimiterHistory(t.exchanges, |s.exchanges|, events)
    decreases |events|
  {
    RunKeeps(s, rows, maxSize, events);
    if events == [] {
      assert s.storeOps + [] == s.storeOps;
    } else {
      var u, n := Step(s, maxSize, events[0]), |s.exchanges|;
      var rows' := if events[0].Reload? then events[0].rows else rows;
      StepKeeps(s, maxSize, events[0]);
      RunIsHistory(u, rows', maxSize, events[1..], t);
      RunKeeps(u, rows', maxSize, events[1..]);
      var rest := LimiterHistory(t.exchanges, |u.exchanges|, events[1..]);
      match events[0]
      case Request(_, _, _) =>
        assert Kept(u.exchanges[n], t.exchanges[n]);
        Regroup(s.storeOps, AskOf(t.exchanges[n]), rest);
      case Prune(now) => Regroup(s.storeOps, [Store.PruneAt(now)], rest);
      case _ =>
    }
  }

  /** In every run the rate limiter has done exactly what the events say, in their order: one ask
      for each request on a limited route, and the prunes where they occurred; its buckets are
      those of a store that starts empty and does just that. */
  lemma LimiterDoesItsHistory(s: State, rows: seq<Route>, maxSize: int, events: seq<Event>, t: State)
    requires Initial(s) && s.registry == Load(rows)
    requires Possible(s, maxSize, events) && t == After(s, maxSize, events)
    ensures |t.exchanges| == RequestCount(events)
    ensures t.storeOps == LimiterHistory(t.exchanges, 0, events)
    ensures t.buckets == Store.RunStore(map[], t.storeOps)
  {
    RunIsHistory(s, rows, maxSize, events, t);
    assert [] + LimiterHistory(t.exchanges, 0, events) == LimiterHistory(t.exchanges, 0, events);
    ReachedIsTicketed(s, maxSize, events);
  }

  // ---------- The bound, per client and route ----------

  /** The exchanges of one client on limited routes under one prefix. */
  predicate Own(x: Exchange, clientIp: string, prefix: string) {
    x.req.clientIp == clientIp && x.route.Some? && x.route.value.prefix == prefix && x.route.value.rateLimitEnabled
  }

  /** The upstream fetches made for those. */
  ghost function FetchesOf(s: State, clientIp: string, prefix: string): set<nat> {
    set p | 0 <= p < |s.co.promises| && FetchOf(s, p, clientIp, prefix)
  }

  predicate FetchOf(s: State, p: nat, clientIp: string, prefix: string)
    requires p < |s.co.promises|
  {
    && s.co.promises[p].owner < |s.callers|
    && s.callers[s.co.promises[p].owner] < |s.exchanges|
    && Own(s.exchanges[s.callers[s.co.promises[p].owner]], clientIp, prefix)
  }

  /** The exchanges that share the client's bucket: those with its address, a colon and the prefix
      as their ticket. Their starts, in order. */
  function StartsOf(xs: seq<Exchange>, ticket: string): seq<int> {
    if xs == [] then []
    else (if xs[0].ticket == Some(ticket) then [xs[0].start] else []) + StartsOf(xs[1..], ticket)
  }

  lemma {:induction false} UnprunedKeepsTimes(ops: seq<Store.Op>, key: string)
    ensures Store.TimesOf(Store.Unpruned(ops), key) == Store.TimesOf(ops, key)
  {
    if ops != [] {
      UnprunedKeepsTimes(ops[1..], key);
      var all := Store.Unpruned(ops);
      assert ops[0].Ask? ==> all[0] == ops[0] && all[1..] == Store.Unpruned(ops[1..]);
      assert ops[0].PruneAt? ==> all == Store.Unpruned(ops[1..]);
    }
  }

  lemma {:induction false} AsksAtStarts(xs: seq<Exchange>, key: string)
    requires forall x :: x in xs ==> x.ticket == TicketFor(x.route, x.req.clientIp)
    ensures Store.TimesOf(AsksOf(xs), key) == StartsOf(xs, key)
    ensures forall op :: op in AsksOf(xs) ==> exists x :: x in xs && AskOf(x) == [op]
  {
    if xs != [] {
      assert xs[0] in xs;
      AsksAtStarts(xs[1..], key);
      SB.TimesSplit(AskOf(xs[0]), AsksOf(xs[1..]), key);
      assert AskOf(xs[0]) != [] ==> AskOf(xs[0])[1..] == [];
    }
  }

  lemma {:induction false} AsksAreUnpruned(ops: seq<Store.Op>)
    ensures forall op :: op in ops && op.Ask? ==> op in Store.Unpruned(ops)
  {
    if ops != [] {
      AsksAreUnpruned(ops[1..]);
    }
  }

  /** One client's requests to one limited route make the upstream work at most capacity + pace *
      (elapsed time between the first and the latest) times, in every run on a clock that does
      not go back. The limit is the largest of the routes met under that ticket; the other clients
      and routes, and the points at which idle buckets are pruned, are arbitrary. */
  lemma ClientBound(s: State, maxSize: int, events: seq<Event>, t: State, clientIp: string, prefix: string,
                    most: Limit, start: int, starts: seq<int>)
    requires Initial(s) && Possible(s, maxSize, events) && t == After(s, maxSize, events)
    requires Store.Monotone(start, t.storeOps)
    requires starts == StartsOf(t.exchanges, clientIp + [':'] + prefix)
    requires forall x :: x in t.exchanges && x.ticket == Some(clientIp + [':'] + prefix) && x.route.Some? ==>
               SB.Within(Limit(x.route.value.capacity, x.route.value.refillRate), most)
    ensures starts == [] ==> FetchesOf(t, clientIp, prefix) == {}
    ensures starts != [] ==>
              |FetchesOf(t, clientIp, prefix)| as real
              <= most.capacity as real
                 + Gain(SB.PacedRate(most, !SB.NeverPruned(t.storeOps)), starts[|starts| - 1] - starts[0])
  {
    var key := clientIp + [':'] + prefix;
    TicketsAreOwn(s, maxSize, events, t);
    assert SB.AskedWithin(t.storeOps, key, most) by { AskedWithinMost(t, key, most); }
    assert starts == Store.TimesOf(t.storeOps, key) by { StartsAreTimes(t, key); }
    PB.UpstreamBound(s, maxSize, events, t, key, most, start, starts);
    OwnFetchesAreTheirs(t, clientIp, prefix);
  }

  lemma StartsAreTimes(t: State, key: string)
    requires forall x :: x in t.exchanges ==> x.ticket == TicketFor(x.route, x.req.clientIp)
    requires Store.Unpruned(t.storeOps) == AsksOf(t.exchanges)
    ensures StartsOf(t.exchanges, key) == Store.TimesOf(t.storeOps, key)
  {
    AsksAtStarts(t.exchanges, key);
    UnprunedKeepsTimes(t.storeOps, key);
  }

  lemma AskedWithinMost(t: State, key: string, most: Limit)
    requires forall x :: x in t.exchanges ==> x.ticket == TicketFor(x.route, x.req.clientIp)
    requires Store.Unpruned(t.storeOps) == AsksOf(t.exchanges)
    requires forall x :: x in t.exchanges && x.ticket == Some(key) && x.route.Some? ==>
               SB.Within(Limit(x.route.value.capacity, x.route.value.refillRate), most)
    ensures SB.AskedWithin(t.storeOps, key, most)
  {
    AsksAtStarts(t.exchanges, key);
    AsksAreUnpruned(t.storeOps);
  }

  lemma OwnFetchesAreTheirs(t: State, clientIp: string, prefix: string)
    requires forall x :: x in t.exchanges ==> x.ticket == TicketFor(x.route, x.req.clientIp)
    ensures FetchesOf(t, clientIp, prefix) <= PB.UpstreamFetches(t, clientIp + [':'] + prefix)
    ensures |FetchesOf(t, clientIp, prefix)| <= |PB.UpstreamFetches(t, clientIp + [':'] + prefix)|
  {
    SubsetSize(FetchesOf(t, clientIp, prefix), PB.UpstreamFetches(t, clientIp + [':'] + prefix));
  }
}
