/** The bucket store of server/src/ratelimiter/tokenBucket.js as a value: a map from client
    keys to buckets, with `consumeToken` and the periodic `_prune`. */
module BucketStoreSpec {
  import opened BucketSpec

  type Store = map<string, Bucket>

  function ClientKey(ip: string, prefix: string): string {
    ip + [':'] + prefix
  }

  /** `getBucket`: a bucket that exists keeps the limit it was created with. */
  function GetBucket(s: Store, key: string, limit: Limit, now: int): Bucket {
    if key in s then s[key] else NewBucket(limit, now)
  }

  function ConsumeToken(s: Store, key: string, limit: Limit, now: int): (Store, Verdict) {
    var (b, v) := Consume(GetBucket(s, key, limit, now), now);
    (s[key := b], v)
  }

  function Prune(s: Store, now: int): Store {
    map k | k in s && !IsStale(s[k], now) :: s[k]
  }

  datatype Op =
    | Ask(key: string, limit: Limit, now: int)
    | PruneAt(now: int)

  function Apply(s: Store, op: Op): Store {
    match op
    case Ask(key, limit, now) => ConsumeToken(s, key, limit, now).0
    case PruneAt(now) => Prune(s, now)
  }

  function RunStore(s: Store, ops: seq<Op>): Store
    decreases |ops|
  {
    if ops == [] then s else RunStore(Apply(s, ops[0]), ops[1..])
  }

  function Answer(s: Store, op: Op): seq<Verdict> {
    match op
    case Ask(key, limit, now) => [ConsumeToken(s, key, limit, now).1]
    case PruneAt(_) => []
  }

  /** The answers to all asks of a run, in order. */
  function Answers(s: Store, ops: seq<Op>): seq<Verdict>
    decreases |ops|
  {
    if ops == [] then [] else Answer(s, ops[0]) + Answers(Apply(s, ops[0]), ops[1..])
  }

  /** What an operation answers to one key. */
  function AnswerTo(s: Store, op: Op, key: string): seq<Verdict> {
    if op.Ask? && op.key == key then Answer(s, op) else []
  }

  /** The answers to the asks for one key. */
  function AnswersFor(s: Store, ops: seq<Op>, key: string): seq<Verdict>
    decreases |ops|
  {
    if ops == [] then []
    else AnswerTo(s, ops[0], key) + AnswersFor(Apply(s, ops[0]), ops[1..], key)
  }

  /** The run with every `_prune` taken out. */
  function Unpruned(ops: seq<Op>): seq<Op> {
    if ops == [] then [] else (if ops[0].Ask? then [ops[0]] else []) + Unpruned(ops[1..])
  }

  /** The times at which one key is asked for. */
  function TimesOf(ops: seq<Op>, key: string): seq<int> {
    if ops == [] then []
    else (if ops[0].Ask? && ops[0].key == key then [ops[0].now] else []) + TimesOf(ops[1..], key)
  }

  ghost predicate Monotone(t: int, ops: seq<Op>)
    decreases |ops|
  {
    ops == [] || (t <= ops[0].now && Monotone(ops[0].now, ops[1..]))
  }

  /** Each key is always asked for with its one configured limit. */
  ghost predicate Configured(ops: seq<Op>, config: string -> Limit) {
    forall op :: op in ops && op.Ask? ==> op.limit == config(op.key)
  }

  /** A bucket idle long enough to be pruned has had time to fill up from empty. */
  predicate FillsWhileIdle(limit: Limit) {
    Gain(limit.refillRate, IDLE_TTL_MS + 1) >= limit.capacity as real
  }
}
