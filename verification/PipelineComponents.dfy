/** Inside the proxy the cache's coalescing and the logger run exactly as the exchanges drive them,
    so that what is proved of each component's runs holds of the proxy's. */
module PipelineComponents {
  import opened Collections
  import opened Wrappers
  import opened RouteSpec
  import opened PipelineSpec
  import Co = Coalescing
  import CP = CoalescingProgress
  import Logger = LoggerSpec
  import CacheKey

  // ---------- Where a request goes first ----------

  /** A new exchange is passed on if no route matched, and answered at once if it was refused a
      token, which throws exactly if the 429 cannot be sent. Otherwise it waits for its body if
      that is still on the wire, and if not is answered at once if the upstream URL does not
      parse, or calls `getOrFetch`. */
  lemma RequestGoes(s: State, maxSize: int, req: HttpRequest, now: int, sent: bool, t: State)
    requires t == Step(s, maxSize, Request(req, now, sent))
    ensures |t.exchanges| == |s.exchanges| + 1
    ensures var n := |s.exchanges|; var x := t.exchanges[n];
            match x.route
            case None => x.stage.Passed?
            case Some(route) =>
              if x.ticket.Some? && !x.granted then x.stage.Closed? && (x.stage.threw <==> !sent)
              else if req.bodyPending then x.stage.Collecting?
              else if !route.urlParses then x.stage.Closed? && !x.stage.threw
              else x.stage == Proxying(|s.co.requests|) && t.callers == s.callers + [n]
  {
  }

  /** An exchange whose body has arrived is answered if the upstream URL does not parse, or calls
      `getOrFetch`. */
  lemma BodyGoes(s: State, maxSize: int, i: nat, now: int, t: State)
    requires Enabled(s, BodyRead(i, now)) && t == Step(s, maxSize, BodyRead(i, now))
    ensures |t.exchanges| == |s.exchanges|
    ensures var x := t.exchanges[i];
            && x.route == s.exchanges[i].route && x.route.Some?
            && if !x.route.value.urlParses then x.stage.Closed? && !x.stage.threw
               else x.stage == Proxying(|s.co.requests|) && t.callers == s.callers + [i]
  {
  }

  /** An exchange whose call has returned is answered after that call; writing the answer counts as
      having thrown exactly if there was a response to write and it could not be sent. */
  lemma ResponseGoes(s: State, maxSize: int, i: nat, sent: bool, t: State)
    requires Enabled(s, Respond(i, sent)) && t == Step(s, maxSize, Respond(i, sent))
    ensures |t.exchanges| == |s.exchanges|
    ensures var call, end := s.exchanges[i].stage.call, t.exchanges[i].stage;
            && end.Closed? && end.after == Some(call)
            && (end.threw <==> !sent && !s.co.requests[call].status.result.Failed?)
            && t.exchanges == s.exchanges[i := s.exchanges[i].(stage := end)]
  {
  }

  // ---------- Coalescing ----------

  /** The call of `getOrFetch` that an exchange makes, cacheable if it is a GET, with its own key,
      its route's lifetime and the current time. */
  function CallBy(x: Exchange, now: int): Co.Event
    requires x.route.Some?
  {
    Co.Arrive(x.req.message.httpMethod == "GET", CacheKey.BuildCacheKey(x.req.message), TtlOf(x.route.value), now)
  }

  /** What a step does to the coalescer: a call if an exchange started to wait for one, or the
      settlement or resumption that the step is. */
  function CoEvents(s: State, maxSize: int, e: Event): seq<Co.Event>
    requires Enabled(s, e)
  {
    var t := Step(s, maxSize, e);
    match e
    case Request(_, now, _) => Calls(t, |s.exchanges|, now)
    case BodyRead(i, now) => Calls(t, i, now)
    case Upstream(p, outcome) => [Co.Settle(p, outcome)]
    case FetchResume(r, now) => [Co.Resume(r, now)]
    case _ => []
  }

  function Calls(t: State, i: nat, now: int): seq<Co.Event> {
    if i < |t.exchanges| && t.exchanges[i].stage.Proxying? && t.exchanges[i].route.Some?
    then [CallBy(t.exchanges[i], now)] else []
  }

  ghost function CoHistory(s: State, maxSize: int, events: seq<Event>): seq<Co.Event>
    requires Possible(s, maxSize, events)
    decreases |events|
  {
    if events == [] then []
    else CoEvents(s, maxSize, events[0]) + CoHistory(Step(s, maxSize, events[0]), maxSize, events[1..])
  }

  lemma OneCoStep(c: Co.State, e: Co.Event)
    requires Co.Enabled(c, e)
    ensures Co.Possible(c, [e]) && Co.After(c, [e]) == Co.Step(c, e)
  {
  }

  lemma ProceedIsCall(s: State, maxSize: int, i: nat, now: int)
    requires i < |s.exchanges| && s.exchanges[i].route.Some?
    ensures var t := Proceed(s, maxSize, i, now);
            t.co == if s.exchanges[i].route.value.urlParses then Co.Step(s.co, CallBy(s.exchanges[i], now)) else s.co
    ensures var t := Proceed(s, maxSize, i, now);
            Calls(t, i, now) == if s.exchanges[i].route.value.urlParses then [CallBy(s.exchanges[i], now)] else []
  {
  }

  lemma StepIsCoEvents(s: State, maxSize: int, e: Event)
    requires Enabled(s, e)
    ensures var es := CoEvents(s, maxSize, e);
            Co.Possible(s.co, es) && Co.After(s.co, es) == Step(s, maxSize, e).co
  {
    match e
    case Request(req, now, sent) =>
      match Match(s.registry, req.message.path) {
        case None =>
        case Some(route) =>
          var u := Admit(s, req, route, now);
          ProceedIsCall(u, maxSize, |s.exchanges|, now);
          OneCoStep(s.co, CallBy(u.exchanges[|s.exchanges|], now));
      }
    case BodyRead(i, now) =>
      ProceedIsCall(s, maxSize, i, now);
      OneCoStep(s.co, CallBy(s.exchanges[i], now));
    case Upstream(p, outcome) => OneCoStep(s.co, Co.Settle(p, outcome));
    case FetchResume(r, now) => OneCoStep(s.co, Co.Resume(r, now));
    case _ =>
  }

  /** The coalescer's part of any run of the proxy is a run of its own: the calls of the exchanges
      that went on, each made at the time of its step, with the settlements and resumptions in
      between. */
  lemma {:induction false} CoalescerRuns(s: State, maxSize: int, events: seq<Event>)
    requires Possible(s, maxSize, events)
    ensures var es := CoHistory(s, maxSize, events);
            Co.Possible(s.co, es) && Co.After(s.co, es) == After(s, maxSize, events).co
    decreases |events|
  {
    if events != [] {
      var t := Step(s, maxSize, events[0]);
      StepIsCoEvents(s, maxSize, events[0]);
      CoalescerRuns(t, maxSize, events[1..]);
      CP.RunsCompose(s.co, CoEvents(s, maxSize, events[0]), CoHistory(t, maxSize, events[1..]));
    }
  }

  // ---------- Logging ----------

  function Logs(entries: seq<LogEntry>): seq<Logger.Event<LogEntry>> {
    if entries == [] then [] else [Logger.Log(entries[0])] + Logs(entries[1..])
  }

  /** What an exchange logged when it ended. */
  function LogsAtEnd(t: State, i: nat): seq<Logger.Event<LogEntry>> {
    if i < |t.exchanges| && t.exchanges[i].stage.Closed? then Logs(t.exchanges[i].stage.entries) else []
  }

  /** What a step does to the logger: the entries of the exchange that it ended, or the logger's
      own step that it is. */
  function LogEvents(s: State, maxSize: int, e: Event): seq<Logger.Event<LogEntry>>
    requires Enabled(s, e)
  {
    var t := Step(s, maxSize, e);
    match e
    case Request(_, _, _) => LogsAtEnd(t, |s.exchanges|)
    case BodyRead(i, _) => LogsAtEnd(t, i)
    case Respond(i, _) => LogsAtEnd(t, i)
    case Logging(step) => [step]
    case _ => []
  }

  ghost function LogHistory(s: State, maxSize: int, events: seq<Event>): seq<Logger.Event<LogEntry>>
    requires Possible(s, maxSize, events)
    decreases |events|
  {
    if events == [] then []
    else LogEvents(s, maxSize, events[0]) + LogHistory(Step(s, maxSize, events[0]), maxSize, events[1..])
  }

  lemma {:induction false} LogAllIsRun(l: Logger.State<LogEntry>, maxSize: int, entries: seq<LogEntry>)
    ensures Logger.Possible(l, maxSize, Logs(entries))
    ensures Logger.After(l, maxSize, Logs(entries)) == LogAll(l, maxSize, entries)
    decreases |entries|
  {
    if entries != [] {
      LogAllIsRun(Logger.LogEntry(l, maxSize, entries[0]), maxSize, entries[1..]);
      assert Logs(entries)[1..] == Logs(entries[1..]);
    }
  }

  lemma {:induction false} LogRunsCompose(l: Logger.State<LogEntry>, maxSize: int,
                                          a: seq<Logger.Event<LogEntry>>, b: seq<Logger.Event<LogEntry>>)
    requires Logger.Possible(l, maxSize, a) && Logger.Possible(Logger.After(l, maxSize, a), maxSize, b)
    ensures Logger.Possible(l, maxSize, a + b)
    ensures Logger.After(l, maxSize, a + b) == Logger.After(Logger.After(l, maxSize, a), maxSize, b)
    decreases |a|
  {
    if a == [] {
      assert a + b == b;
    } else {
      assert (a + b)[0] == a[0] && (a + b)[1..] == a[1..] + b;
      LogRunsCompose(Logger.Step(l, maxSize, a[0]), maxSize, a[1..], b);
    }
  }

  lemma StepIsLogEvents(s: State, maxSize: int, e: Event)
    requires Enabled(s, e) && (e.BodyRead? || e.Respond? ==> !s.exchanges[e.exchange].stage.Closed?)
    ensures var es := LogEvents(s, maxSize, e);
            && Logger.Possible(s.logger, maxSize, es)
            && Logger.After(s.logger, maxSize, es) == Step(s, maxSize, e).logger
  {
    var t := Step(s, maxSize, e);
    match e
    case Request(req, now, sent) =>
      AcceptEnds(s, maxSize, req, now, sent, t);
      EndIsLogged(s, t, maxSize, |s.exchanges|);
    case BodyRead(i, _) => EndIsLogged(s, t, maxSize, i);
    case Respond(i, _) => EndIsLogged(s, t, maxSize, i);
    case Logging(step) => assert [step][1..] == [];
    case _ =>
  }

  lemma AcceptEnds(s: State, maxSize: int, req: HttpRequest, now: int, sent: bool, t: State)
    requires t == Accept(s, maxSize, req, now, sent)
    ensures |t.exchanges| == |s.exchanges| + 1
    ensures var stage := t.exchanges[|s.exchanges|].stage;
            t.logger == if stage.Closed? then LogAll(s.logger, maxSize, stage.entries) else s.logger
  {
  }

  lemma EndIsLogged(s: State, t: State, maxSize: int, i: nat)
    requires i < |t.exchanges|
    requires t.logger == if t.exchanges[i].stage.Closed?
                         then LogAll(s.logger, maxSize, t.exchanges[i].stage.entries) else s.logger
    ensures Logger.Possible(s.logger, maxSize, LogsAtEnd(t, i))
    ensures Logger.After(s.logger, maxSize, LogsAtEnd(t, i)) == t.logger
  {
    if t.exchanges[i].stage.Closed? {
      LogAllIsRun(s.logger, maxSize, t.exchanges[i].stage.entries);
    }
  }

  /** The logger's part of any run of the proxy is a run of its own: the entries of each exchange
      when it ends, with the ticks, answers and other steps of the logger in between. */
  lemma {:induction false} LoggerRuns(s: State, maxSize: int, events: seq<Event>)
    requires Possible(s, maxSize, events)
    ensures var es := LogHistory(s, maxSize, events);
            && Logger.Possible(s.logger, maxSize, es)
            && Logger.After(s.logger, maxSize, es) == After(s, maxSize, events).logger
    decreases |events|
  {
    if events != [] {
      var t := Step(s, maxSize, events[0]);
      StepIsLogEvents(s, maxSize, events[0]);
      LoggerRuns(t, maxSize, events[1..]);
      LogRunsCompose(s.logger, maxSize, LogEvents(s, maxSize, events[0]), LogHistory(t, maxSize, events[1..]));
    }
  }
}
