/** No log entry is lost, repeated or reordered, and a successful flush delivers. */
module LoggerTheorems {
  import opened Collections
  import opened LoggerSpec

  /** At most one flush is under way, `isFlushing` says whether, and it holds a batch. */
  ghost predicate Inv<T>(s: State<T>) {
    && |s.frames| <= 1
    && (s.isFlushing <==> |s.frames| == 1)
    && (|s.frames| == 1 ==> s.frames[0].batch != [])
  }

  /** Entries sent but not yet in the table. */
  function InFlight<T>(s: State<T>): seq<T> {
    if s.frames == [] || s.frames[0].insert == Committed then [] else s.frames[0].batch
  }

  /** Everything the logger answers for: table, batch under way, buffer. */
  function Total<T>(s: State<T>): seq<T> {
    s.rows + InFlight(s) + s.buffer
  }

  lemma FlushKeepsTotal<T>(s: State<T>)
    requires Inv(s)
    ensures Inv(Flush(s)) && Total(Flush(s)) == Total(s)
  {
  }

  lemma AnswerKeepsTotal<T>(s: State<T>, i: nat, ok: bool)
    requires Inv(s) && i < |s.frames| && s.frames[i].insert == Sent
    ensures Inv(Decide(s, i, ok)) && Total(Decide(s, i, ok)) == Total(s)
  {
  }

  lemma FinishKeepsTotal<T>(s: State<T>, i: nat)
    requires Inv(s) && i < |s.frames| && s.frames[i].insert != Sent
    ensures Inv(Finish(s, i)) && Total(Finish(s, i)) == Total(s)
  {
  }

  lemma StepKeepsTotal<T>(s: State<T>, maxSize: int, e: Event<T>)
    requires Inv(s) && Enabled(s, e)
    ensures Inv(Step(s, maxSize, e))
    ensures Total(Step(s, maxSize, e)) == Total(s) + (if e.Log? then [e.entry] else [])
  {
    match e
    case Log(entry) =>
      var t := s.(buffer := s.buffer + [entry]);
      assert Total(t) == Total(s) + [entry];
      FlushKeepsTotal(t);
    case Tick => FlushKeepsTotal(s);
    case Start =>
    case Stop => FlushKeepsTotal(s.(timer := false));
    case Answer(i, ok) => AnswerKeepsTotal(s, i, ok);
    case Resume(i) => FinishKeepsTotal(s, i);
  }

  lemma {:induction false} RunKeepsTotal<T>(s: State<T>, maxSize: int, events: seq<Event<T>>)
    requires Inv(s) && Possible(s, maxSize, events)
    ensures Inv(After(s, maxSize, events))
    ensures Total(After(s, maxSize, events)) == Total(s) + Logged(events)
    decreases |events|
  {
    if events == [] {
      assert Total(s) + [] == Total(s);
    } else {
      StepKeepsTotal(s, maxSize, events[0]);
      RunKeepsTotal(Step(s, maxSize, events[0]), maxSize, events[1..]);
      Regroup(Total(s), if events[0].Log? then [events[0].entry] else [], Logged(events[1..]));
    }
  }

  lemma FromEmpty<T>(maxSize: int, events: seq<Event<T>>)
    requires Possible(Empty(), maxSize, events)
    ensures Inv(After(Empty(), maxSize, events)) && Total(After(Empty(), maxSize, events)) == Logged(events)
  {
    RunKeepsTotal(Empty(), maxSize, events);
    assert Total(Empty<T>()) == [] && [] + Logged(events) == Logged(events);
  }

  /** In every interleaving of log calls, timer ticks, INSERT outcomes and resumptions the
      table, then the batch under way, then the buffer hold exactly the logged entries, in
      the order they were logged, and at most one batch is under way. */
  lemma Conservation<T>(maxSize: int, events: seq<Event<T>>)
    requires Possible(Empty(), maxSize, events)
    ensures var s := After(Empty(), maxSize, events);
            && s.rows + InFlight(s) + s.buffer == Logged(events)
            && |s.frames| <= 1 && (s.isFlushing <==> |s.frames| == 1)
  {
    FromEmpty(maxSize, events);
  }

  /** After any call of `log` either a flush is under way or the buffer is below its maximum. */
  lemma LogNeverOverfills<T>(s: State<T>, maxSize: int, entry: T)
    ensures LogEntry(s, maxSize, entry).isFlushing || |LogEntry(s, maxSize, entry).buffer| < maxSize
  {
  }

  // ---------- Delivery ----------

  /** Only an answer of the database ends the sending of a batch. */
  lemma {:induction false} BatchWaits<T>(s: State<T>, maxSize: int, events: seq<Event<T>>)
    requires Inv(s) && Possible(s, maxSize, events)
    requires |s.frames| == 1 && s.frames[0].insert == Sent
    requires forall e :: e in events ==> !e.Answer?
    ensures After(s, maxSize, events).rows == s.rows && After(s, maxSize, events).frames == s.frames
    decreases |events|
  {
    if events != [] {
      assert events[0] in events;
      StepKeepsTotal(s, maxSize, events[0]);
      BatchWaits(Step(s, maxSize, events[0]), maxSize, events[1..]);
    }
  }

  /** The step that starts a flush sends all that the logger holds outside the table. */
  lemma FlushStarts<T>(s: State<T>, maxSize: int, call: Event<T>)
    requires Inv(s) && !s.isFlushing && Enabled(s, call) && Step(s, maxSize, call).isFlushing
    ensures var u := Step(s, maxSize, call);
            && u.rows == s.rows && u.buffer == []
            && u.frames == [Frame(s.buffer + Logged([call]), Sent)]
  {
    assert Logged([call]) == if call.Log? then [call.entry] else [];
    assert s.buffer + [] == s.buffer;
    var u := Step(s, maxSize, call);
    assert u.frames == s.frames + [Frame(s.buffer + Logged([call]), Sent)];
  }

  /** A flush that has started and is not answered yet: the batch waits, and the new buffer is
      what has been logged since. */
  lemma FlushUnderWay<T>(u: State<T>, batch: seq<T>, maxSize: int, during: seq<Event<T>>)
    requires Inv(u) && u.frames == [Frame(batch, Sent)] && u.buffer == []
    requires Possible(u, maxSize, during)
    requires forall e :: e in during ==> !e.Answer?
    ensures var t := After(u, maxSize, during);
            t.rows == u.rows && t.frames == u.frames && t.buffer == Logged(during)
  {
    BatchWaits(u, maxSize, during);
    RunKeepsTotal(u, maxSize, during);
    assert Total(u) == u.rows + batch;
    Cancel(u.rows + batch, After(u, maxSize, during).buffer, Logged(during));
  }

  lemma {:induction false} LoggedSplits<T>(a: seq<Event<T>>, b: seq<Event<T>>)
    ensures Logged(a + b) == Logged(a) + Logged(b)
  {
    if a == [] {
      assert a + b == b;
    } else {
      assert (a + b)[0] == a[0] && (a + b)[1..] == a[1..] + b;
      LoggedSplits(a[1..], b);
    }
  }

  lemma IdleTotal<T>(s: State<T>)
    requires Inv(s) && !s.isFlushing
    ensures Total(s) == s.rows + s.buffer
  {
  }

  /** The database can answer the one INSERT under way, and the flush then runs to its end. */
  predicate Ends<T>(t: State<T>, maxSize: int, ok: bool) {
    Enabled(t, Answer(0, ok)) && Enabled(Step(t, maxSize, Answer(0, ok)), Resume(0))
  }

  function Ended<T>(t: State<T>, maxSize: int, ok: bool): State<T>
    requires Ends(t, maxSize, ok)
  {
    Step(Step(t, maxSize, Answer(0, ok)), maxSize, Resume(0))
  }

  /** Both outcomes of that flush. */
  lemma FlushOutcomes<T>(t: State<T>, maxSize: int, rows: seq<T>, batch: seq<T>, since: seq<T>)
    requires t.rows == rows && t.frames == [Frame(batch, Sent)] && t.buffer == since
    ensures Ends(t, maxSize, true) && Ends(t, maxSize, false)
    ensures var stored := Ended(t, maxSize, true);
            stored.rows == rows + batch && stored.buffer == since && stored.frames == []
    ensures var refused := Ended(t, maxSize, false);
            refused.rows == rows && refused.buffer == batch + since && refused.frames == []
  {
  }

  /** However many flushes failed before, one that any call starts after `before` and that
      succeeds leaves in the table exactly the entries logged up to its start, in order; one
      that fails puts them back in front of what was logged meanwhile. */
  lemma FlushDelivers<T>(maxSize: int, before: seq<Event<T>>, call: Event<T>, during: seq<Event<T>>,
                         s: State<T>, t: State<T>)
    requires Possible(Empty(), maxSize, before) && s == After(Empty(), maxSize, before)
    requires !s.isFlushing && Enabled(s, call) && Step(s, maxSize, call).isFlushing
    requires Possible(Step(s, maxSize, call), maxSize, during)
    requires t == After(Step(s, maxSize, call), maxSize, during)
    requires forall e :: e in during ==> !e.Answer?
    ensures Ends(t, maxSize, true) && Ends(t, maxSize, false)
    ensures var stored := Ended(t, maxSize, true);
            stored.rows == Logged(before + [call]) && stored.buffer == Logged(during) && stored.frames == []
    ensures var refused := Ended(t, maxSize, false);
            && refused.rows == s.rows && refused.frames == []
            && refused.rows + refused.buffer == Logged(before + [call]) + Logged(during)
  {
    FromEmpty(maxSize, before);
    IdleTotal(s);
    FlushStarts(s, maxSize, call);
    StepKeepsTotal(s, maxSize, call);
    FlushUnderWay(Step(s, maxSize, call), s.buffer + Logged([call]), maxSize, during);
    LoggedSplits(before, [call]);
    Regroup(s.rows, s.buffer, Logged([call]));
    FlushOutcomes(t, maxSize, s.rows, s.buffer + Logged([call]), Logged(during));
    Regroup(s.rows, s.buffer + Logged([call]), Logged(during));
  }

  // ---------- Which calls flush ----------

  /** All that is buffered is being sent as one batch; else everything is as it was. */
  ghost predicate SendsAll<T>(s: State<T>, t: State<T>) {
    && t.rows == s.rows && t.frames == [Frame(s.buffer, Sent)] && t.buffer == [] && t.isFlushing
    && t.timer == s.timer
  }

  /** In every reachable state a tick sends all that is buffered if no flush is under way and
      something is buffered, and changes nothing otherwise; shutting down does the same and
      disarms the timer. */
  lemma TickAndStopSendAll<T>(maxSize: int, events: seq<Event<T>>, s: State<T>)
    requires Possible(Empty(), maxSize, events) && s == After(Empty(), maxSize, events)
    ensures Enabled(s, Tick) ==>
              if s.frames == [] && s.buffer != [] then SendsAll(s, Step(s, maxSize, Tick))
              else Step(s, maxSize, Tick) == s
    ensures var quiet := s.(timer := false);
            if s.frames == [] && s.buffer != [] then SendsAll(quiet, Step(s, maxSize, Stop))
            else Step(s, maxSize, Stop) == quiet
  {
    FromEmpty(maxSize, events);
    assert s.frames == [] ==> s.frames + [Frame(s.buffer, Sent)] == [Frame(s.buffer, Sent)];
  }

  /** In every reachable state logging an entry sends the buffer, with the entry last, exactly if
      it reaches the maximum and no flush is under way; otherwise the entry only joins it. */
  lemma LogSendsIff<T>(maxSize: int, events: seq<Event<T>>, s: State<T>, entry: T)
    requires Possible(Empty(), maxSize, events) && s == After(Empty(), maxSize, events)
    ensures var joined := s.(buffer := s.buffer + [entry]);
            if s.frames == [] && |s.buffer| + 1 >= maxSize then SendsAll(joined, Step(s, maxSize, Log(entry)))
            else Step(s, maxSize, Log(entry)) == joined
  {
    FromEmpty(maxSize, events);
    var joined := s.(buffer := s.buffer + [entry]);
    assert s.frames == [] ==> s.frames + [Frame(joined.buffer, Sent)] == [Frame(joined.buffer, Sent)];
  }

  // ---------- The timer ----------

  /** Some call armed the timer, and none after it disarmed it. */
  ghost predicate ArmedLast<T>(events: seq<Event<T>>) {
    exists i :: 0 <= i < |events| && events[i].Start? && forall j :: i < j < |events| ==> !events[j].Stop?
  }

  ghost predicate NeverStopped<T>(events: seq<Event<T>>) {
    forall j :: 0 <= j < |events| ==> !events[j].Stop?
  }

  lemma ArmedLastOfTail<T>(events: seq<Event<T>>)
    requires events != []
    ensures ArmedLast(events) <==> ArmedLast(events[1..]) || (events[0].Start? && NeverStopped(events[1..]))
    ensures NeverStopped(events) <==> !events[0].Stop? && NeverStopped(events[1..])
  {
    var rest := events[1..];
    assert forall j :: 1 <= j < |events| ==> events[j] == rest[j - 1];
    if ArmedLast(rest) {
      var i :| 0 <= i < |rest| && rest[i].Start? && forall j :: i < j < |rest| ==> !rest[j].Stop?;
      assert events[i + 1].Start?;
    }
    if ArmedLast(events) {
      var i :| 0 <= i < |events| && events[i].Start? && forall j :: i < j < |events| ==> !events[j].Stop?;
      if i > 0 {
        assert rest[i - 1].Start?;
      }
    }
  }

  lemma {:induction false} TimerRun<T>(s: State<T>, maxSize: int, events: seq<Event<T>>)
    requires Possible(s, maxSize, events)
    ensures After(s, maxSize, events).timer <==> ArmedLast(events) || (s.timer && NeverStopped(events))
    decreases |events|
  {
    if events != [] {
      ArmedLastOfTail(events);
      TimerRun(Step(s, maxSize, events[0]), maxSize, events[1..]);
    }
  }

  /** The timer can tick exactly while `startFlushing` has been called, any number of times, and
      `stopFlushing` has not been called since; a tick then sends what is buffered, unless a
      flush is under way. */
  lemma TicksWhileArmed<T>(maxSize: int, events: seq<Event<T>>)
    requires Possible(Empty(), maxSize, events)
    ensures var s := After(Empty(), maxSize, events);
            && (Enabled(s, Tick) <==> ArmedLast(events))
            && (ArmedLast(events) && s.frames == [] && s.buffer != [] ==> SendsAll(s, Step(s, maxSize, Tick)))
  {
    TimerRun(Empty(), maxSize, events);
    TickAndStopSendAll(maxSize, events, After(Empty(), maxSize, events));
  }

  // ---------- Shutdown ----------

  /** The batch that `stopFlushing` sends and awaits, if it sends one. */
  function AwaitedByStop<T>(s: State<T>, maxSize: int): seq<T> {
    var t := Step(s, maxSize, Stop);
    if |t.frames| > |s.frames| then t.frames[|t.frames| - 1].batch else []
  }

  /** What `stopFlushing` waits for, added to the table, is everything logged so far exactly
      when no flush is under way at the call, or nothing is left outside the table. */
  lemma StopCoversIff<T>(maxSize: int, events: seq<Event<T>>)
    requires Possible(Empty(), maxSize, events)
    ensures var s := After(Empty(), maxSize, events);
            s.rows + AwaitedByStop(s, maxSize) == Logged(events)
            <==> (s.frames == [] || (InFlight(s) == [] && s.buffer == []))
  {
    var s := After(Empty(), maxSize, events);
    Conservation(maxSize, events);
    TickAndStopSendAll(maxSize, events, s);
    if s.frames != [] {
      assert AwaitedByStop(s, maxSize) == [];
      assert |s.rows + InFlight(s) + s.buffer| == |s.rows| + |InFlight(s)| + |s.buffer|;
    } else {
      assert InFlight(s) == [] && AwaitedByStop(s, maxSize) == s.buffer;
      assert s.rows + [] + s.buffer == s.rows + s.buffer;
    }
  }

  /** A shutdown while a flush is under way can leave entries behind: two entries are logged,
      the first fills the buffer and is being sent when `stopFlushing` is called. */
  lemma StopCanMissEntries<T>(a: T, b: T) returns (events: seq<Event<T>>)
    ensures Possible(Empty(), 1, events)
    ensures Logged(events) == [a, b]
    ensures var s := After(Empty(), 1, events); s.rows + AwaitedByStop(s, 1) == [] && Step(s, 1, Stop).rows == []
  {
    events := [Log(a), Log(b)];
    var s: State<T> := LogEntry(Empty(), 1, a);
    assert events[1..] == [Log(b)] && events[1..][1..] == [];
    assert Logged(events[1..]) == [b];
    assert After(Empty(), 1, events) == After(s, 1, events[1..]) == LogEntry(s, 1, b);
  }
}
