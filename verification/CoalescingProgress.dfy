/** Coalescing makes progress: without new calls every run is bounded, and ends with all answered. */
module CoalescingProgress {
  import opened Wrappers
  import opened Coalescing
  import opened CoalescingTheorems

  function Pending(ps: seq<Promise>): nat {
    if ps == [] then 0 else (if ps[0].outcome.None? then 1 else 0) + Pending(ps[1..])
  }

  function Open(rs: seq<Request>): nat {
    if rs == [] then 0 else (if rs[0].status.Done? then 0 else 1) + Open(rs[1..])
  }

  /** Fetches not settled plus calls not returned. */
  function Work(s: State): nat {
    Pending(s.promises) + Open(s.requests)
  }

  lemma {:induction false} PendingSettles(ps: seq<Promise>, p: nat, outcome: Outcome)
    requires p < |ps| && ps[p].outcome.None?
    ensures Pending(ps[p := ps[p].(outcome := Some(outcome))]) == Pending(ps) - 1
  {
    var qs := ps[p := ps[p].(outcome := Some(outcome))];
    if p == 0 {
      assert qs[1..] == ps[1..];
    } else {
      PendingSettles(ps[1..], p - 1, outcome);
      assert qs[1..] == ps[1..][p - 1 := ps[p].(outcome := Some(outcome))];
    }
  }

  lemma {:induction false} OpenCloses(rs: seq<Request>, r: nat, done: Status)
    requires r < |rs| && !rs[r].status.Done? && done.Done?
    ensures Open(rs[r := rs[r].(status := done)]) == Open(rs) - 1
  {
    var qs := rs[r := rs[r].(status := done)];
    if r == 0 {
      assert qs[1..] == rs[1..];
    } else {
      OpenCloses(rs[1..], r - 1, done);
      assert qs[1..] == rs[1..][r - 1 := rs[r].(status := done)];
    }
  }

  lemma {:induction false} OpenRequest(rs: seq<Request>) returns (r: nat)
    requires Open(rs) > 0
    ensures r < |rs| && !rs[r].status.Done?
  {
    r := 0;
    if rs[0].status.Done? {
      var i := OpenRequest(rs[1..]);
      r := i + 1;
    }
  }

  lemma {:induction false} AllClosed(rs: seq<Request>)
    requires Open(rs) == 0
    ensures forall r :: 0 <= r < |rs| ==> rs[r].status.Done?
  {
    if rs != [] {
      AllClosed(rs[1..]);
    }
  }

  lemma {:induction false} NonePending(ps: seq<Promise>)
    requires forall p :: 0 <= p < |ps| ==> ps[p].outcome.Some?
    ensures Pending(ps) == 0
  {
    if ps != [] {
      NonePending(ps[1..]);
    }
  }

  /** Every step other than an arrival does one unit of the outstanding work. */
  lemma StepDoesWork(s: State, e: Event)
    requires Enabled(s, e) && !e.Arrive?
    ensures Work(Step(s, e)) == Work(s) - 1
  {
    match e
    case Settle(p, outcome) => PendingSettles(s.promises, p, outcome);
    case Resume(r, now) => OpenCloses(s.requests, r, Step(s, e).requests[r].status);
  }

  lemma {:induction false} RunDoesWork(s: State, events: seq<Event>)
    requires Possible(s, events) && forall e :: e in events ==> !e.Arrive?
    ensures Work(After(s, events)) == Work(s) - |events|
    decreases |events|
  {
    if events != [] {
      assert events[0] in events;
      StepDoesWork(s, events[0]);
      RunDoesWork(Step(s, events[0]), events[1..]);
    }
  }

  /** While work is outstanding something can happen that is not an arrival. */
  lemma NeverStuck(s: State) returns (e: Event)
    requires Reachable(s) && Work(s) > 0
    ensures !e.Arrive? && Enabled(s, e)
  {
    ReachableInv(s);
    if Open(s.requests) == 0 {
      AllClosed(s.requests);
      forall p | 0 <= p < |s.promises| ensures s.promises[p].outcome.Some? {
        assert Awaited(s, p);
      }
      NonePending(s.promises);
      assert false;
    }
    var r := OpenRequest(s.requests);
    assert Placed(s, r);
    var p := s.requests[r].status.promise;
    if s.promises[p].outcome.None? {
      e := Settle(p, Rejected);
    } else {
      e := Resume(r, 0);
    }
  }

  lemma {:induction false} ReachableAfter(s: State, events: seq<Event>)
    requires Reachable(s) && Possible(s, events)
    ensures Reachable(After(s, events))
  {
    var s0, before :| Initial(s0) && Possible(s0, before) && After(s0, before) == s;
    RunsCompose(s0, before, events);
    assert After(s0, before + events) == After(s, events);
  }

  lemma {:induction false} RunsCompose(s: State, a: seq<Event>, b: seq<Event>)
    requires Possible(s, a) && Possible(After(s, a), b)
    ensures Possible(s, a + b) && After(s, a + b) == After(After(s, a), b)
    decreases |a|
  {
    if a == [] {
      assert a + b == b;
    } else {
      assert (a + b)[0] == a[0] && (a + b)[1..] == a[1..] + b;
      RunsCompose(Step(s, a[0]), a[1..], b);
    }
  }

  /** Without new arrivals, every run has at most Work(s) steps; a run that cannot be continued
      has exactly that many, and then every call has returned and `inflight` is empty. */
  lemma DrainsCompletely(s: State, events: seq<Event>)
    requires Reachable(s) && Possible(s, events) && forall e :: e in events ==> !e.Arrive?
    ensures |events| <= Work(s)
    ensures (forall e :: Enabled(After(s, events), e) ==> e.Arrive?) ==>
              && |events| == Work(s)
              && After(s, events).inflight == map[]
              && forall r :: 0 <= r < |After(s, events).requests| ==> After(s, events).requests[r].status.Done?
  {
    var t := After(s, events);
    RunDoesWork(s, events);
    ReachableAfter(s, events);
    if forall e :: Enabled(t, e) ==> e.Arrive? {
      if Work(t) > 0 {
        var e := NeverStuck(t);
        assert false;
      }
      AllClosed(t.requests);
      ReachableInv(t);
      assert forall k :: k in t.inflight ==> EntryHasFetcher(t, k);
    }
  }
}
