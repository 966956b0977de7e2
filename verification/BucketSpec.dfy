/** The token bucket of server/src/ratelimiter/tokenBucket.js as a value, in exact
    arithmetic: tokens are reals, clock readings are integer milliseconds. */
module BucketSpec {
  /** How long until the next token: milliseconds, or JavaScript's `Infinity`. */
  datatype Wait = Ms(ms: int) | Forever

  datatype Verdict = Verdict(allowed: bool, remaining: int, resetAfter: Wait)

  datatype Limit = Limit(capacity: int, refillRate: real)

  datatype Bucket = Bucket(limit: Limit, tokens: real, lastRefillTime: int, lastUsedAt: int)

  const IDLE_TTL_MS: int := 5 * 60 * 1000

  function NewBucket(limit: Limit, now: int): Bucket {
    Bucket(limit, limit.capacity as real, now, now)
  }

  /** Tokens produced in `ms` milliseconds. */
  function Gain(rate: real, ms: int): real {
    ms as real / 1000.0 * rate
  }

  function Min(a: real, b: real): real {
    if a <= b then a else b
  }

  /** `Math.ceil`. */
  function Ceil(x: real): int {
    -((-x).Floor)
  }

  function Refill(b: Bucket, now: int): Bucket {
    var refilled := Gain(b.limit.refillRate, now - b.lastRefillTime);
    if refilled > 0.0 then
      b.(tokens := Min(b.limit.capacity as real, b.tokens + refilled), lastRefillTime := now)
    else b
  }

  /** Milliseconds, not rounded, until `tokens` has grown to one. */
  function TimeToToken(tokens: real, rate: real): real
    requires rate != 0.0
  {
    (1.0 - tokens) / rate * 1000.0
  }

  function WaitFor(tokens: real, rate: real): Wait {
    if rate == 0.0 then Forever else Ms(Ceil(TimeToToken(tokens, rate)))
  }

  function Consume(b: Bucket, now: int): (Bucket, Verdict) {
    var r := Refill(b, now).(lastUsedAt := now);
    if r.tokens >= 1.0 then
      (r.(tokens := r.tokens - 1.0), Verdict(true, (r.tokens - 1.0).Floor, Ms(0)))
    else
      (r, Verdict(false, 0, WaitFor(r.tokens, r.limit.refillRate)))
  }

  predicate IsStale(b: Bucket, now: int) {
    now - b.lastUsedAt > IDLE_TTL_MS
  }

  /** One bucket called at the given times, in this order. */
  function Run(b: Bucket, times: seq<int>): Bucket
    decreases |times|
  {
    if times == [] then b else Run(Consume(b, times[0]).0, times[1..])
  }

  function Verdicts(b: Bucket, times: seq<int>): (r: seq<Verdict>)
    ensures |r| == |times|
    decreases |times|
  {
    if times == [] then []
    else [Consume(b, times[0]).1] + Verdicts(Consume(b, times[0]).0, times[1..])
  }

  function Admitted(vs: seq<Verdict>): nat {
    if vs == [] then 0 else (if vs[0].allowed then 1 else 0) + Admitted(vs[1..])
  }

  /** The times, after `t`, of a clock that does not go back. */
  ghost predicate MonotoneFrom(t: int, times: seq<int>)
    decreases |times|
  {
    times == [] || (t <= times[0] && MonotoneFrom(times[0], times[1..]))
  }
}
