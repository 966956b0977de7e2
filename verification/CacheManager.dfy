/** server/src/cache/cacheManager.js in its own form: the shared cache and the `inflight` map,
    updated by each stretch of `getOrFetch` between two awaits. The pending promises and the
    suspended calls, which JavaScript keeps in its runtime, are two more fields here. */
module CacheManager {
  import opened Wrappers
  import opened LruSpec
  import opened Coalescing
  import opened LruCache
  import CacheKey
  import CP = CoalescingProgress

  class CacheManager {
    const cache: LRUCache<string, Response>
    var inflight: map<string, nat>
    var promises: seq<Promise>
    var requests: seq<Request>

    ghost predicate Valid()
      reads this, cache, cache.spine
    {
      cache.Valid()
    }

    ghost function View(): State
      reads this, cache
    {
      State(cache.View(), inflight, promises, requests)
    }

    constructor (capacity: int, defaultTtlMs: int)
      requires capacity >= 1
      ensures Valid() && fresh(cache) && fresh(cache.spine)
      ensures Initial(View()) && View().cache.capacity == capacity && View().cache.defaultTtlMs == defaultTtlMs
    {
      cache := new LRUCache(capacity, defaultTtlMs);
      inflight, promises, requests := map[], [], [];
    }

    /** `getOrFetch` from its call to its first await, or to its return on a hit. The result is
        the number of the call. */
    method GetOrFetch(req: CacheKey.Request, ttl: Ttl, now: int) returns (r: nat)
      requires Valid()
      modifies this, cache, cache.spine
      ensures Valid() && fresh(cache.spine - old(cache.spine))
      ensures r == |old(requests)|
      ensures View() == Arrival(old(View()), CacheKey.IsCacheable(req), CacheKey.BuildCacheKey(req), ttl, now)
    {
      r := |requests|;
      var key := CacheKey.BuildCacheKey(req);
      var status: Status;
      if !CacheKey.IsCacheable(req) {
        var direct := FetchFn(r);
        status := Direct(direct);
      } else {
        var cached := cache.Get(key, now);
        if cached.Some? {
          status := Done(Hit(cached.value), now);
        } else {
          status := Join(key, r);
        }
      }
      requests := requests + [Request(CacheKey.IsCacheable(req), key, ttl, status)];
    }

    /** A miss: the call attaches to the fetch registered for its key, or starts and registers
        one of its own, with no await in between. */
    method Join(key: string, r: nat) returns (status: Status)
      modifies this`promises, this`inflight
      ensures key in inflight
      ensures status == if key in old(inflight) then Waiting(inflight[key]) else Fetching(inflight[key])
      ensures key in old(inflight) ==> inflight == old(inflight) && promises == old(promises)
      ensures key !in old(inflight) ==>
                && inflight == old(inflight)[key := |old(promises)|]
                && promises == old(promises) + [Promise(r, None)]
    {
      if key in inflight {
        status := Waiting(inflight[key]);
      } else {
        var fetchPromise := FetchFn(r);
        inflight := inflight[key := fetchPromise];
        status := Fetching(fetchPromise);
      }
    }

    /** `fetchFn()`: the upstream call starts and its promise is pending. */
    method FetchFn(owner: nat) returns (p: nat)
      modifies this`promises
      ensures p == |old(promises)| && promises == old(promises) + [Promise(owner, None)]
    {
      p := |promises|;
      promises := promises + [Promise(owner, None)];
    }

    /** The upstream answers, or fails: one promise is settled, for good, and one unit of the
        outstanding work is done. */
    method Settle(p: nat, outcome: Outcome)
      requires Valid() && Enabled(View(), Coalescing.Settle(p, outcome))
      modifies this`promises
      ensures Valid() && View() == Settlement(old(View()), p, outcome)
      ensures CP.Work(View()) == old(CP.Work(View())) - 1
    {
      CP.StepDoesWork(View(), Coalescing.Settle(p, outcome));
      promises := promises[p := promises[p].(outcome := Some(outcome))];
    }

    /** `getOrFetch` from its await to its end. */
    method Resume(r: nat, now: int)
      requires Valid() && Enabled(View(), Coalescing.Resume(r, now))
      modifies this, cache, cache.spine
      ensures Valid() && fresh(cache.spine - old(cache.spine))
      ensures View() == Resumption(old(View()), r, now)
    {
      var req := requests[r];
      var p := req.status.promise;
      var outcome := promises[p].outcome.value;
      var result := Failed(p);
      if req.status.Fetching? {
        if outcome.Resolved? {
          if outcome.response.statusCode < 400 {
            cache.Put(req.key, outcome.response, req.ttl, now);
          }
          result := Miss(outcome.response, p);
        }
        inflight := inflight - {req.key};
      } else if outcome.Resolved? {
        result := if req.status.Waiting? then Coalesced(outcome.response, p) else Miss(outcome.response, p);
      }
      requests := requests[r := req.(status := Done(result, now))];
    }
  }
}
