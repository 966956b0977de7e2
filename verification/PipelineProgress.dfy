/** The whole proxy makes progress: once no more requests come in, all are answered. */
module PipelineProgress {
  import opened Wrappers
  import opened PipelineSpec
  import Co = Coalescing
  import CP = CoalescingProgress
  import PA = PipelineAnswers
  import PB = PipelineBound
  import CacheKey
  import LruSpec
  import RouteSpec

  /** The steps that carry an exchange on: its body arrives, its fetch is settled or resumed, or
      it is answered. The others are new requests, reloads, prunes and the logger's own steps. */
  predicate CarriesOn(e: Event) {
    e.BodyRead? || e.Upstream? || e.FetchResume? || e.Respond?
  }

  function StepsOf(events: seq<Event>): nat {
    if events == [] then 0 else (if CarriesOn(events[0]) then 1 else 0) + StepsOf(events[1..])
  }

  /** What an exchange may still take: reading a body can start a call and its fetch, and each of
      those takes a step, and answering one more. */
  function Due(x: Exchange): nat {
    if x.stage.Collecting? && x.route.Some? then 4 else if x.stage.Proxying? then 1 else 0
  }

  function AllDue(xs: seq<Exchange>): nat {
    if xs == [] then 0 else Due(xs[0]) + AllDue(xs[1..])
  }

  function Load(s: State): nat {
    AllDue(s.exchanges) + CP.Work(s.co)
  }

  lemma {:induction false} DueChanges(xs: seq<Exchange>, i: nat, x: Exchange)
    requires i < |xs|
    ensures AllDue(xs[i := x]) == AllDue(xs) - Due(xs[i]) + Due(x)
  {
    var ys := xs[i := x];
    if i == 0 {
      assert ys[1..] == xs[1..];
    } else {
      DueChanges(xs[1..], i - 1, x);
      assert ys[1..] == xs[1..][i - 1 := x];
    }
  }

  lemma {:induction false} PendingAppends(ps: seq<Co.Promise>, p: Co.Promise)
    ensures CP.Pending(ps + [p]) == CP.Pending(ps) + (if p.outcome.None? then 1 else 0)
  {
    if ps == [] {
      assert ps + [p] == [p];
    } else {
      assert (ps + [p])[1..] == ps[1..] + [p];
      PendingAppends(ps[1..], p);
    }
  }

  lemma {:induction false} OpenAppends(rs: seq<Co.Request>, r: Co.Request)
    ensures CP.Open(rs + [r]) == CP.Open(rs) + (if r.status.Done? then 0 else 1)
  {
    if rs == [] {
      assert rs + [r] == [r];
    } else {
      assert (rs + [r])[1..] == rs[1..] + [r];
      OpenAppends(rs[1..], r);
    }
  }

  /** A call of `getOrFetch` adds at most itself and one fetch to the work. */
  lemma ArrivalAddsWork(c: Co.State, cacheable: bool, key: string, ttl: LruSpec.Ttl, now: int)
    ensures CP.Work(Co.Arrival(c, cacheable, key, ttl, now)) <= CP.Work(c) + 2
  {
    var d := Co.Arrival(c, cacheable, key, ttl, now);
    PendingAppends(c.promises, Co.Promise(|c.requests|, None));
    OpenAppends(c.requests, d.requests[|c.requests|]);
  }

  lemma ProceedLightens(s: State, maxSize: int, i: nat, now: int)
    requires i < |s.exchanges| && s.exchanges[i].route.Some? && s.exchanges[i].stage.Collecting?
    ensures Load(Proceed(s, maxSize, i, now)) < Load(s)
  {
    var x, t := s.exchanges[i], Proceed(s, maxSize, i, now);
    DueChanges(s.exchanges, i, t.exchanges[i]);
    ArrivalAddsWork(s.co, CacheKey.IsCacheable(x.req.message), CacheKey.BuildCacheKey(x.req.message),
                    RouteSpec.TtlOf(x.route.value), now);
  }

  /** Without new requests no step adds to the load, and those that carry on take from it. */
  lemma StepLightens(s: State, maxSize: int, e: Event)
    requires Enabled(s, e) && !e.Request?
    ensures Load(Step(s, maxSize, e)) <= Load(s) - (if CarriesOn(e) then 1 else 0)
  {
    match e
    case BodyRead(i, now) => ProceedLightens(s, maxSize, i, now);
    case Upstream(p, outcome) => CP.StepDoesWork(s.co, Co.Settle(p, outcome));
    case FetchResume(r, now) => CP.StepDoesWork(s.co, Co.Resume(r, now));
    case Respond(i, sent) => DueChanges(s.exchanges, i, s.exchanges[i].(stage := Ending(s, i, sent)));
    case _ =>
  }

  lemma {:induction false} RunLightens(s: State, maxSize: int, events: seq<Event>)
    requires Possible(s, maxSize, events) && forall e :: e in events ==> !e.Request?
    ensures StepsOf(events) <= Load(s)
    decreases |events|
  {
    if events != [] {
      assert events[0] in events;
      StepLightens(s, maxSize, events[0]);
      RunLightens(Step(s, maxSize, events[0]), maxSize, events[1..]);
    }
  }

  /** The exchange has been answered, or matched no route and was passed on. */
  predicate Settled(x: Exchange) {
    if x.route.Some? then x.stage.Closed? else x.stage.Passed?
  }

  /** No exchange can be carried on. */
  ghost predicate AtRest(s: State) {
    forall e :: Enabled(s, e) ==> !CarriesOn(e)
  }

  lemma CoalescerAtRest(s: State)
    requires PB.Sound(s) && AtRest(s)
    ensures s.co.inflight == map[]
    ensures forall r :: 0 <= r < |s.co.requests| ==> s.co.requests[r].status.Done?
  {
    forall e | Co.Enabled(s.co, e) ensures e.Arrive? {
      match e
      case Arrive(_, _, _, _) =>
      case Settle(p, outcome) =>
        assert Enabled(s, Upstream(p, outcome)) && CarriesOn(Upstream(p, outcome));
        assert false;
      case Resume(r, now) =>
        assert Enabled(s, FetchResume(r, now)) && CarriesOn(FetchResume(r, now));
        assert false;
    }
    CP.DrainsCompletely(s.co, []);
  }

  lemma RestIsSettled(s: State)
    requires PB.Sound(s) && PA.AllProper(s) && AtRest(s)
    ensures s.co.inflight == map[]
    ensures forall i :: 0 <= i < |s.exchanges| ==> Settled(s.exchanges[i])
  {
    CoalescerAtRest(s);
    forall i | 0 <= i < |s.exchanges| ensures Settled(s.exchanges[i]) {
      var x := s.exchanges[i];
      assert PA.Proper(s, i, x);
      if x.stage.Collecting? {
        assert Enabled(s, BodyRead(i, 0)) && CarriesOn(BodyRead(i, 0));
        assert false;
      }
      if x.stage.Proxying? {
        assert Enabled(s, Respond(i, true)) && CarriesOn(Respond(i, true));
        assert false;
      }
    }
  }

  /** From any state a run reaches, if no more requests come in, only boundedly many steps can
      carry exchanges on, whatever reloads, prunes and logging happen in between; and when none
      can, every exchange that matched a route has been answered and nothing is in flight. */
  lemma EveryExchangeIsAnswered(s0: State, maxSize: int, before: seq<Event>, s: State, events: seq<Event>, t: State)
    requires Initial(s0) && Possible(s0, maxSize, before) && s == After(s0, maxSize, before)
    requires Possible(s, maxSize, events) && t == After(s, maxSize, events)
    requires forall e :: e in events ==> !e.Request?
    ensures StepsOf(events) <= Load(s)
    ensures AtRest(t) ==>
              t.co.inflight == map[] && forall i :: 0 <= i < |t.exchanges| ==> Settled(t.exchanges[i])
  {
    RunLightens(s, maxSize, events);
    PB.InitialIsSound(s0);
    PB.RunKeepsSound(s0, maxSize, before);
    PB.RunKeepsSound(s, maxSize, events);
    PA.RunKeepsProper(s0, maxSize, before);
    PA.RunKeepsProper(s, maxSize, events);
    if AtRest(t) {
      RestIsSettled(t);
    }
  }
}
