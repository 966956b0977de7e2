/** What holds end to end, over every interleaving of clients, upstream, database and timers. */
module PipelineTheorems {
  import opened Collections
  import opened Wrappers
  import opened RouteSpec
  import opened PipelineSpec
  import Logger = LoggerSpec
  import LT = LoggerTheorems

  // ---------- Runs, state by state ----------

  /** The states that a run passes through. */
  ghost predicate Trace(states: seq<State>, maxSize: int, events: seq<Event>) {
    && |states| == |events| + 1
    && forall k :: 0 <= k < |events| ==> Leads(states[k], maxSize, events[k], states[k + 1])
  }

  ghost predicate Leads(s: State, maxSize: int, e: Event, t: State) {
    Enabled(s, e) && t == Step(s, maxSize, e)
  }

  lemma {:induction false} TraceIsRun(states: seq<State>, maxSize: int, events: seq<Event>)
    requires Trace(states, maxSize, events)
    ensures Possible(states[0], maxSize, events) && After(states[0], maxSize, events) == states[|events|]
    decreases |events|
  {
    if events != [] {
      assert Leads(states[0], maxSize, events[0], states[1]);
      TraceIsRun(states[1..], maxSize, events[1..]);
    }
  }

  lemma TraceAppends(states: seq<State>, maxSize: int, events: seq<Event>, e: Event, t: State)
    requires Trace(states, maxSize, events) && Leads(states[|events|], maxSize, e, t)
    ensures Trace(states + [t], maxSize, events + [e])
  {
    var all := states + [t];
    forall k | 0 <= k <= |events| ensures Leads(all[k], maxSize, (events + [e])[k], all[k + 1]) {
      assert k < |events| ==> Leads(states[k], maxSize, events[k], states[k + 1]);
    }
  }

  // ---------- Every exchange is logged once ----------

  /** The logged entries of exchange i. */
  function EntriesOf(entries: seq<LogEntry>, i: nat): seq<LogEntry> {
    if entries == [] then []
    else (if entries[0].exchange == i then [entries[0]] else []) + EntriesOf(entries[1..], i)
  }

  lemma {:induction false} EntriesOfConcat(a: seq<LogEntry>, b: seq<LogEntry>, i: nat)
    ensures EntriesOf(a + b, i) == EntriesOf(a, i) + EntriesOf(b, i)
  {
    if a == [] {
      assert a + b == b;
    } else {
      assert (a + b)[0] == a[0] && (a + b)[1..] == a[1..] + b;
      EntriesOfConcat(a[1..], b, i);
      Regroup(if a[0].exchange == i then [a[0]] else [], EntriesOf(a[1..], i), EntriesOf(b, i));
    }
  }

  ghost predicate AllOf(entries: seq<LogEntry>, i: nat) {
    forall e :: e in entries ==> e.exchange == i
  }

  lemma {:induction false} EntriesOfOne(entries: seq<LogEntry>, i: nat, j: nat)
    requires AllOf(entries, i)
    ensures EntriesOf(entries, j) == if j == i then entries else []
  {
    if entries != [] {
      assert entries[0] in entries;
      EntriesOfOne(entries[1..], i, j);
    }
  }

  lemma {:induction false} LogAllKeepsTotal(l: Logger.State<LogEntry>, maxSize: int, entries: seq<LogEntry>)
    requires LT.Inv(l)
    ensures LT.Inv(LogAll(l, maxSize, entries)) && LT.Total(LogAll(l, maxSize, entries)) == LT.Total(l) + entries
    decreases |entries|
  {
    if entries == [] {
      assert LT.Total(l) + [] == LT.Total(l);
    } else {
      LT.StepKeepsTotal(l, maxSize, Logger.Log(entries[0]));
      LogAllKeepsTotal(Logger.LogEntry(l, maxSize, entries[0]), maxSize, entries[1..]);
      assert entries == [entries[0]] + entries[1..];
      Regroup(LT.Total(l), [entries[0]], entries[1..]);
    }
  }

  function Owed(x: Exchange): seq<LogEntry> {
    if x.stage.Closed? then x.stage.entries else []
  }

  /** The logger answers for exactly the entries each closed exchange ended with, and for none
      of the others. */
  ghost predicate LoggedOnce(s: State) {
    && LT.Inv(s.logger)
    && (forall i :: 0 <= i < |s.exchanges| ==> EntriesOf(LT.Total(s.logger), i) == Owed(s.exchanges[i]))
    && (forall i :: |s.exchanges| <= i ==> EntriesOf(LT.Total(s.logger), i) == [])
  }

  lemma CloseKeepsLogged(s: State, maxSize: int, i: nat, x: Exchange, end: Stage)
    requires LoggedOnce(s) && i < |s.exchanges| && !s.exchanges[i].stage.Closed?
    requires end.Closed? && AllOf(end.entries, i)
    ensures LoggedOnce(Close(s, maxSize, i, x, end))
  {
    var t := Close(s, maxSize, i, x, end);
    var before := LT.Total(s.logger);
    LogAllKeepsTotal(s.logger, maxSize, end.entries);
    forall j: nat
      ensures EntriesOf(LT.Total(t.logger), j) == EntriesOf(before, j) + (if j == i then end.entries else [])
    {
      EntriesOfConcat(before, end.entries, j);
      EntriesOfOne(end.entries, i, j);
    }
  }

  /** An exchange that is not closed may change in any way but being closed. */
  lemma UpdateKeepsLogged(s: State, t: State)
    requires LoggedOnce(s) && t.logger == s.logger
    requires |s.exchanges| <= |t.exchanges|
    requires forall i :: 0 <= i < |s.exchanges| ==> Owed(t.exchanges[i]) == Owed(s.exchanges[i])
    requires forall i :: |s.exchanges| <= i < |t.exchanges| ==> Owed(t.exchanges[i]) == []
    ensures LoggedOnce(t)
  {
  }

  lemma ProceedKeepsLogged(s: State, maxSize: int, i: nat, now: int)
    requires LoggedOnce(s) && i < |s.exchanges| && s.exchanges[i].route.Some? && s.exchanges[i].stage.Collecting?
    ensures LoggedOnce(Proceed(s, maxSize, i, now))
  {
    var x := s.exchanges[i];
    if !x.route.value.urlParses {
      CloseKeepsLogged(s, maxSize, i, x, BadGateway(x, i, None, false));
    } else {
      UpdateKeepsLogged(s, Proceed(s, maxSize, i, now));
    }
  }

  lemma AcceptKeepsLogged(s: State, maxSize: int, req: HttpRequest, now: int, sent: bool)
    requires LoggedOnce(s)
    ensures LoggedOnce(Accept(s, maxSize, req, now, sent))
  {
    var i := |s.exchanges|;
    match Match(s.registry, req.message.path)
    case None => UpdateKeepsLogged(s, Accept(s, maxSize, req, now, sent));
    case Some(route) =>
      var t := Admit(s, req, route, now);
      var x := t.exchanges[i];
      UpdateKeepsLogged(s, t);
      if x.ticket.Some? && !x.granted {
        CloseKeepsLogged(t, maxSize, i, x, Refusal(x, i, sent));
      } else if !req.bodyPending {
        ProceedKeepsLogged(t, maxSize, i, now);
      }
  }

  lemma LoggingKeepsLogged(s: State, maxSize: int, step: Logger.Event<LogEntry>)
    requires LoggedOnce(s) && !step.Log? && Logger.Enabled(s.logger, step)
    ensures LoggedOnce(s.(logger := Logger.Step(s.logger, maxSize, step)))
  {
    LT.StepKeepsTotal(s.logger, maxSize, step);
    assert LT.Total(s.logger) + [] == LT.Total(s.logger);
  }

  lemma StepKeepsLogged(s: State, maxSize: int, e: Event)
    requires LoggedOnce(s) && Enabled(s, e)
    ensures LoggedOnce(Step(s, maxSize, e))
  {
    match e
    case Request(req, now, sent) => AcceptKeepsLogged(s, maxSize, req, now, sent);
    case BodyRead(i, now) => ProceedKeepsLogged(s, maxSize, i, now);
    case Respond(i, sent) => CloseKeepsLogged(s, maxSize, i, s.exchanges[i], Ending(s, i, sent));
    case Logging(step) => LoggingKeepsLogged(s, maxSize, step);
    case _ => UpdateKeepsLogged(s, Step(s, maxSize, e));
  }

  lemma {:induction false} RunKeepsLogged(s: State, maxSize: int, events: seq<Event>)
    requires LoggedOnce(s) && Possible(s, maxSize, events)
    ensures LoggedOnce(After(s, maxSize, events))
    decreases |events|
  {
    if events != [] {
      StepKeepsLogged(s, maxSize, events[0]);
      RunKeepsLogged(Step(s, maxSize, events[0]), maxSize, events[1..]);
    }
  }

  /** At every moment of every run, table, batch under way and buffer together hold exactly the
      entries that each answered exchange ended with, in their order, and none for an exchange
      that matched no route or is still under way. */
  lemma EveryExchangeLogged(s: State, maxSize: int, events: seq<Event>, i: nat)
    requires Initial(s) && Possible(s, maxSize, events)
    ensures var t := After(s, maxSize, events);
            i < |t.exchanges| ==>
              EntriesOf(t.logger.rows + LT.InFlight(t.logger) + t.logger.buffer, i) == Owed(t.exchanges[i])
  {
    assert LT.Total(s.logger) == [];
    RunKeepsLogged(s, maxSize, events);
  }
}
