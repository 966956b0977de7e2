/** server/src/ratelimiter/tokenBucket.js in its own form: bucket objects updated in place,
    held by a store that creates them on demand and prunes them when idle. */
module TokenBucket {
  import opened BucketSpec
  import Spec = BucketStoreSpec

  class TokenBucket {
    const capacity: int
    const refillRate: real
    var tokens: real
    var lastRefillTime: real
    var lastUsedAt: int

    /** The refill time is always a clock reading, although it is computed by division. */
    ghost predicate Valid()
      reads this
    {
      lastRefillTime == lastRefillTime.Floor as real
    }

    ghost function View(): Bucket
      reads this
    {
      Bucket(Limit(capacity, refillRate), tokens, lastRefillTime.Floor, lastUsedAt)
    }

    constructor (capacity: int, refillRate: real, now: int)
      ensures Valid() && View() == NewBucket(Limit(capacity, refillRate), now)
    {
      this.capacity, this.refillRate := capacity, refillRate;
      tokens := capacity as real;
      lastRefillTime := now as real;
      lastUsedAt := now;
    }

    method Consume(now: int) returns (r: Verdict)
      requires Valid()
      modifies this
      ensures Valid()
      ensures (View(), r) == BucketSpec.Consume(old(View()), now)
    {
      var elapsedSeconds := (now as real - lastRefillTime) / 1000.0;
      var refilled := elapsedSeconds * refillRate;
      assert refilled == Gain(refillRate, now - lastRefillTime.Floor);
      var newTokens := Min(capacity as real, tokens + refilled);
      if refilled > 0.0 {
        tokens := newTokens;
        lastRefillTime := lastRefillTime + elapsedSeconds * 1000.0;
      }
      lastUsedAt := now;
      if tokens >= 1.0 {
        tokens := tokens - 1.0;
        return Verdict(true, tokens.Floor, Ms(0));
      }
      assert tokens == Refill(old(View()), now).tokens;
      if refillRate == 0.0 {
        return Verdict(false, 0, Forever);
      }
      var resetAfterMs := Ceil((1.0 - tokens) / refillRate * 1000.0);
      assert Ms(resetAfterMs) == WaitFor(tokens, refillRate);
      return Verdict(false, 0, Ms(resetAfterMs));
    }

    method IsStale(now: int) returns (r: bool)
      ensures r == BucketSpec.IsStale(View(), now)
    {
      r := now - lastUsedAt > IDLE_TTL_MS;
    }
  }

  class BucketStore {
    var buckets: map<string, TokenBucket>
    ghost var objects: set<TokenBucket>  // every bucket object the store has made

    /** No two keys share a bucket object. */
    ghost predicate Valid()
      reads this, objects
    {
      && (forall k :: k in buckets ==> buckets[k] in objects && buckets[k].Valid())
      && (forall k, l :: k in buckets && l in buckets && k != l ==> buckets[k] != buckets[l])
    }

    ghost function View(): Spec.Store
      requires Valid()
      reads this, objects
    {
      map k | k in buckets :: buckets[k].View()
    }

    constructor ()
      ensures Valid() && fresh(objects) && View() == map[]
    {
      buckets, objects := map[], {};
    }

    method GetBucket(key: string, limit: Limit, now: int) returns (b: TokenBucket)
      requires Valid()
      modifies this
      ensures Valid() && key in buckets && b == buckets[key]
      ensures View() == old(View())[key := Spec.GetBucket(old(View()), key, limit, now)]
      ensures b in old(objects) || fresh(b)
      ensures fresh(objects - old(objects))
    {
      if key !in buckets {
        var created := new TokenBucket(limit.capacity, limit.refillRate, now);
        buckets := buckets[key := created];
        objects := objects + {created};
      }
      b := buckets[key];
    }

    /** `consumeToken` on the shared store. */
    method ConsumeToken(ip: string, prefix: string, limit: Limit, now: int) returns (r: Verdict)
      requires Valid()
      modifies this, objects
      ensures Valid() && fresh(objects - old(objects))
      ensures (View(), r) == Spec.ConsumeToken(old(View()), Spec.ClientKey(ip, prefix), limit, now)
    {
      var key := ip + [':'] + prefix;
      var bucket := GetBucket(key, limit, now);
      ghost var s, b := View(), Spec.GetBucket(old(View()), key, limit, now);
      assert bucket.View() == s[key] == b;
      r := bucket.Consume(now);
      assert (bucket.View(), r) == BucketSpec.Consume(b, now);
      assert View() == s[key := bucket.View()] == old(View())[key := bucket.View()];
    }

    /** `_prune`: walks the map and deletes the stale buckets as it goes. */
    method Prune(now: int)
      requires Valid()
      modifies this`buckets
      ensures Valid()
      ensures View() == Spec.Prune(old(View()), now)
    {
      var rest := buckets.Keys;
      while rest != {}
        invariant rest <= buckets.Keys <= old(buckets.Keys)
        invariant forall k :: k in buckets ==> buckets[k] == old(buckets[k])
        invariant forall k :: k in old(buckets) && k !in rest ==>
                    (k in buckets <==> !BucketSpec.IsStale(old(buckets[k].View()), now))
        invariant forall k :: k in rest ==> k in buckets
        decreases rest
      {
        var key :| key in rest;
        var stale := buckets[key].IsStale(now);
        if stale {
          buckets := buckets - {key};
        }
        rest := rest - {key};
      }
    }
  }
}
