/** What request coalescing guarantees, over every interleaving. */
module CoalescingTheorems {
  import opened Wrappers
  import opened LruSpec
  import opened Coalescing

  // ---------- Nothing recorded is ever rewritten ----------

  ghost predicate SameRequest(a: Request, b: Request) {
    && a.cacheable == b.cacheable && a.key == b.key && a.ttl == b.ttl
    && (a.status.Done? ==> b.status == a.status)
  }

  ghost predicate SamePromise(a: Promise, b: Promise) {
    a.owner == b.owner && (a.outcome.Some? ==> b.outcome == a.outcome)
  }

  ghost predicate Grows(s: State, t: State) {
    && |s.requests| <= |t.requests| && |s.promises| <= |t.promises|
    && (forall r :: 0 <= r < |s.requests| ==> SameRequest(s.requests[r], t.requests[r]))
    && (forall p :: 0 <= p < |s.promises| ==> SamePromise(s.promises[p], t.promises[p]))
    && t.cache.defaultTtlMs == s.cache.defaultTtlMs
  }

  lemma StepGrows(s: State, e: Event)
    requires Enabled(s, e)
    ensures Grows(s, Step(s, e))
  {
  }

  lemma StoredByGrows(s: State, t: State, w: nat, k: string, response: Response, x: Expiry)
    requires Grows(s, t) && StoredBy(s, w, k, response, x)
    ensures StoredBy(t, w, k, response, x)
  {
  }

  lemma EntryHasSourceGrows(s: State, t: State, e: Entry<string, Response>)
    requires Grows(s, t) && EntryHasSource(s, e)
    ensures EntryHasSource(t, e)
  {
    var w :| 0 <= w < |s.requests| && StoredBy(s, w, e.key, e.value, e.expiresAt);
    StoredByGrows(s, t, w, e.key, e.value, e.expiresAt);
  }

  lemma AttachedGrows(s: State, t: State, r: nat, p: nat)
    requires Grows(s, t) && r < |s.requests| && Attached(s, r, p)
    ensures Attached(t, r, p)
  {
  }

  lemma ResultSoundGrows(s: State, t: State, r: nat)
    requires Grows(s, t) && r < |s.requests| && s.requests[r].status.Done? && ResultSound(s, r)
    ensures t.requests[r].status.Done? && ResultSound(t, r)
  {
    assert SameRequest(s.requests[r], t.requests[r]);
    match s.requests[r].status.result
    case Miss(_, p) => assert SamePromise(s.promises[p], t.promises[p]);
    case Coalesced(_, p) =>
      assert SamePromise(s.promises[p], t.promises[p]);
      AttachedGrows(s, t, r, p);
    case Failed(p) =>
      assert SamePromise(s.promises[p], t.promises[p]);
      if Attached(s, r, p) {
        AttachedGrows(s, t, r, p);
      }
    case Hit(response) =>
      var w, x :| StoredBy(s, w, s.requests[r].key, response, x) && !Expired(s.requests[r].status.at, x);
      StoredByGrows(s, t, w, s.requests[r].key, response, x);
  }

  // ---------- The protocol part of the invariant ----------

  /** A call that returns at once, or attaches to a registered promise. */
  lemma JoiningKeepsProtocol(s: State, t: State)
    requires Protocol(s)
    requires |t.requests| == |s.requests| + 1 && t.requests[..|s.requests|] == s.requests
    requires t.inflight == s.inflight && t.promises == s.promises
    requires var last := t.requests[|s.requests|]; var st := last.status;
             st.Done? || (last.cacheable && last.key in s.inflight && st == Waiting(s.inflight[last.key]))
    ensures Protocol(t)
  {
    var n := |s.requests|;
    assert forall r :: 0 <= r < n ==> t.requests[r] == s.requests[r];
    forall k | k in t.inflight ensures EntryHasFetcher(t, k) {
      assert EntryHasFetcher(s, k);
    }
    forall r | 0 <= r < n ensures Placed(t, r) {
      assert Placed(s, r);
    }
    assert t.requests[n].status.Waiting? ==> EntryHasFetcher(s, t.requests[n].key);
    forall p | 0 <= p < |t.promises| ensures Awaited(t, p) {
      assert Awaited(s, p);
    }
  }

  /** A call that starts a fetch of its own. */
  lemma FetchingKeepsProtocol(s: State, t: State)
    requires Protocol(s)
    requires |t.requests| == |s.requests| + 1 && t.requests[..|s.requests|] == s.requests
    requires t.promises == s.promises + [Promise(|s.requests|, None)]
    requires var last, p := t.requests[|s.requests|], |s.promises|;
             if last.cacheable then
               last.key !in s.inflight && last.status == Fetching(p) && t.inflight == s.inflight[last.key := p]
             else last.status == Direct(p) && t.inflight == s.inflight
    ensures Protocol(t)
  {
    var n := |s.requests|;
    assert forall r :: 0 <= r < n ==> t.requests[r] == s.requests[r];
    forall k | k in t.inflight ensures EntryHasFetcher(t, k) {
      if k in s.inflight {
        assert EntryHasFetcher(s, k);
      }
    }
    forall r | 0 <= r < n ensures Placed(t, r) {
      assert Placed(s, r);
    }
    forall p | 0 <= p < |t.promises| ensures Awaited(t, p) {
      if p < |s.promises| {
        assert Awaited(s, p);
      }
    }
  }

  lemma ArrivalKeepsProtocol(s: State, cacheable: bool, key: string, ttl: Ttl, now: int)
    requires Protocol(s)
    ensures Protocol(Arrival(s, cacheable, key, ttl, now))
  {
    var t := Arrival(s, cacheable, key, ttl, now);
    if |t.promises| == |s.promises| {
      JoiningKeepsProtocol(s, t);
    } else {
      FetchingKeepsProtocol(s, t);
    }
  }

  lemma SettlementKeepsProtocol(s: State, p: nat, outcome: Outcome)
    requires Protocol(s) && p < |s.promises|
    ensures Protocol(Settlement(s, p, outcome))
  {
    var t := Settlement(s, p, outcome);
    forall k | k in t.inflight ensures EntryHasFetcher(t, k) {
      assert EntryHasFetcher(s, k);
    }
    forall r | 0 <= r < |t.requests| ensures Placed(t, r) {
      assert Placed(s, r);
    }
    forall q | 0 <= q < |t.promises| ensures Awaited(t, q) {
      assert Awaited(s, q);
    }
  }

  lemma ResumptionKeepsProtocol(s: State, r: nat, now: int)
    requires Protocol(s) && Enabled(s, Resume(r, now))
    ensures Protocol(Resumption(s, r, now))
  {
    var t := Resumption(s, r, now);
    var p := s.requests[r].status.promise;
    assert Placed(s, r);
    forall k | k in t.inflight ensures EntryHasFetcher(t, k) {
      assert EntryHasFetcher(s, k);
    }
    forall q | 0 <= q < |t.requests| ensures Placed(t, q) {
      assert Placed(s, q);
    }
    forall q | 0 <= q < |t.promises| ensures Awaited(t, q) {
      assert Awaited(s, q);
    }
  }

  // ---------- The cache part ----------

  lemma LookupAfterGet(c: Cache<string, Response>, key: string, now: int, k: string)
    ensures Lookup(Get(c, key, now).0.entries, k).Some? ==> Lookup(c.entries, k).Some?
    ensures Get(c, key, now).1.None? ==> Lookup(Get(c, key, now).0.entries, key).None?
    ensures forall e :: e in Get(c, key, now).0.entries ==> e in c.entries
    ensures Get(c, key, now).1.Some? ==>
              exists e :: e in c.entries && e.key == key && Get(c, key, now).1 == Some(e.value)
                          && !Expired(now, e.expiresAt)
  {
    LookupFinds(c.entries, key);
    WithoutMembers(c.entries, key);
    LookupWithout(c.entries, key);
    LookupFinds(Get(c, key, now).0.entries, k);
    if Lookup(c.entries, k).None? {
      LookupFinds(c.entries, k);
      LookupAbsent(Get(c, key, now).0.entries, k);
    }
  }

  lemma LookupAfterPut(c: Cache<string, Response>, key: string, v: Response, ttl: Ttl, now: int, k: string)
    ensures k != key && Lookup(Put(c, key, v, ttl, now).entries, k).Some? ==> Lookup(c.entries, k).Some?
    ensures forall e :: e in Put(c, key, v, ttl, now).entries ==>
              e in c.entries || e == Entry(key, v, ExpiresAt(ttl, c.defaultTtlMs, now))
  {
    var t := Put(c, key, v, ttl, now);
    WithoutMembers(c.entries, key);
    if Lookup(c.entries, k).None? && k != key {
      LookupFinds(c.entries, k);
      LookupAbsent(t.entries, k);
    }
  }

  lemma ArrivalKeepsCache(s: State, cacheable: bool, key: string, ttl: Ttl, now: int)
    requires Inv(s)
    ensures var t := Arrival(s, cacheable, key, ttl, now);
            WellFormed(t.cache) && InflightNotCached(t) && CacheHasSources(t)
  {
    var t := Arrival(s, cacheable, key, ttl, now);
    StepGrows(s, Arrive(cacheable, key, ttl, now));
    if cacheable {
      GetKeepsWellFormed(s.cache, key, now);
      forall k | k in t.inflight ensures Lookup(t.cache.entries, k).None? {
        LookupAfterGet(s.cache, key, now, k);
      }
      LookupAfterGet(s.cache, key, now, key);
    }
    forall i | 0 <= i < |t.cache.entries| ensures EntryHasSource(t, t.cache.entries[i]) {
      var e := t.cache.entries[i];
      assert e in s.cache.entries;
      EntryHasSourceGrows(s, t, e);
    }
  }

  lemma ArrivalKeepsResults(s: State, cacheable: bool, key: string, ttl: Ttl, now: int)
    requires Inv(s)
    ensures ResultsSound(Arrival(s, cacheable, key, ttl, now))
  {
    var t := Arrival(s, cacheable, key, ttl, now);
    StepGrows(s, Arrive(cacheable, key, ttl, now));
    forall r | 0 <= r < |t.requests| && t.requests[r].status.Done? ensures ResultSound(t, r) {
      if r < |s.requests| {
        assert SameRequest(s.requests[r], t.requests[r]) && t.requests[r] == s.requests[r];
        ResultSoundGrows(s, t, r);
      } else {
        LookupAfterGet(s.cache, key, now, key);
        var e :| e in s.cache.entries && e.key == key && Get(s.cache, key, now).1 == Some(e.value)
                 && !Expired(now, e.expiresAt);
        EntryHasSourceGrows(s, t, e);
        var w :| 0 <= w < |t.requests| && StoredBy(t, w, e.key, e.value, e.expiresAt);
        assert HitHasSource(t, key, e.value, now);
      }
    }
  }

  lemma SettlementKeepsRest(s: State, p: nat, outcome: Outcome)
    requires Inv(s) && Enabled(s, Settle(p, outcome))
    ensures var t := Settlement(s, p, outcome);
            WellFormed(t.cache) && InflightNotCached(t) && CacheHasSources(t) && ResultsSound(t)
  {
    var t := Settlement(s, p, outcome);
    StepGrows(s, Settle(p, outcome));
    forall i | 0 <= i < |t.cache.entries| ensures EntryHasSource(t, t.cache.entries[i]) {
      EntryHasSourceGrows(s, t, t.cache.entries[i]);
    }
    forall r | 0 <= r < |t.requests| && t.requests[r].status.Done? ensures ResultSound(t, r) {
      ResultSoundGrows(s, t, r);
    }
  }

  lemma ResumptionKeepsCache(s: State, r: nat, now: int)
    requires Inv(s) && Enabled(s, Resume(r, now))
    ensures var t := Resumption(s, r, now);
            WellFormed(t.cache) && InflightNotCached(t) && CacheHasSources(t)
  {
    var t, req := Resumption(s, r, now), s.requests[r];
    StepGrows(s, Resume(r, now));
    assert Placed(s, r);
    var stores := t.cache != s.cache;
    var v := s.promises[req.status.promise].outcome.value;
    if stores {
      PutKeepsWellFormed(s.cache, req.key, v.response, req.ttl, now);
    }
    forall k | k in t.inflight ensures Lookup(t.cache.entries, k).None? {
      if stores {
        LookupAfterPut(s.cache, req.key, v.response, req.ttl, now, k);
      }
    }
    forall i | 0 <= i < |t.cache.entries| ensures EntryHasSource(t, t.cache.entries[i]) {
      var e := t.cache.entries[i];
      if stores {
        LookupAfterPut(s.cache, req.key, v.response, req.ttl, now, req.key);
        assert StoredBy(t, r, req.key, v.response, ExpiresAt(req.ttl, s.cache.defaultTtlMs, now));
      }
      if e in s.cache.entries {
        EntryHasSourceGrows(s, t, e);
      }
    }
  }

  lemma ResumptionKeepsResults(s: State, r: nat, now: int)
    requires Inv(s) && Enabled(s, Resume(r, now))
    ensures ResultsSound(Resumption(s, r, now))
  {
    var t := Resumption(s, r, now);
    StepGrows(s, Resume(r, now));
    forall q | 0 <= q < |t.requests| && t.requests[q].status.Done? ensures ResultSound(t, q) {
      if q == r {
        assert Placed(s, r);
        if s.requests[r].status.Waiting? {
          AttachedGrows(s, t, r, s.requests[r].status.promise);
        }
      } else {
        ResultSoundGrows(s, t, q);
      }
    }
  }

  lemma StepKeepsInv(s: State, e: Event)
    requires Inv(s) && Enabled(s, e)
    ensures Inv(Step(s, e))
  {
    match e
    case Arrive(cacheable, key, ttl, now) =>
      ArrivalKeepsProtocol(s, cacheable, key, ttl, now);
      ArrivalKeepsCache(s, cacheable, key, ttl, now);
      ArrivalKeepsResults(s, cacheable, key, ttl, now);
    case Settle(p, outcome) =>
      SettlementKeepsProtocol(s, p, outcome);
      SettlementKeepsRest(s, p, outcome);
    case Resume(r, now) =>
      ResumptionKeepsProtocol(s, r, now);
      ResumptionKeepsCache(s, r, now);
      ResumptionKeepsResults(s, r, now);
  }

  /** The invariant holds in every reachable state. */
  lemma {:induction false} RunKeepsInv(s: State, events: seq<Event>)
    requires Inv(s) && Possible(s, events)
    ensures Inv(After(s, events))
    decreases |events|
  {
    if events != [] {
      StepKeepsInv(s, events[0]);
      RunKeepsInv(Step(s, events[0]), events[1..]);
    }
  }

  ghost predicate Reachable(t: State) {
    exists s, events :: Initial(s) && Possible(s, events) && After(s, events) == t
  }

  lemma ReachableInv(t: State)
    requires Reachable(t)
    ensures Inv(t)
  {
    var s, events :| Initial(s) && Possible(s, events) && After(s, events) == t;
    RunKeepsInv(s, events);
  }
}
