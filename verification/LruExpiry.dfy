/** What each call on the cache answers, told from the calls alone: when an entry is still served,
    what deletion does, and what the statistics count. */
module LruExpiry {
  import opened Collections
  import opened Wrappers
  import opened LruSpec
  import opened LruTheorems

  /** An entry of this age is still served: a positive lifetime, its own or the default when none
      was given, has not run out; `null` and lifetimes that are not positive never run out. */
  predicate StillServed(ttl: Ttl, defaultTtlMs: int, age: int) {
    match ttl
    case Millis(ms) => ms <= 0 || age <= ms
    case Undefined => defaultTtlMs <= 0 || age <= defaultTtlMs
    case Null => true
  }

  /** The operation leaves the key alone, or gets it while it is still served. */
  ghost predicate Honours<K, V>(op: Op<K, V>, key: K, ttl: Ttl, defaultTtlMs: int, at: int) {
    Spares(op, key) || (op.DoGet? && op.key == key && StillServed(ttl, defaultTtlMs, op.now - at))
  }

  lemma ServedUntil(ttl: Ttl, defaultTtlMs: int, at: int, now: int)
    ensures Expired(now, ExpiresAt(ttl, defaultTtlMs, at)) <==> !StillServed(ttl, defaultTtlMs, now - at)
  {
  }

  /** An entry stays through any such run that uses fewer than `capacity` distinct other keys. */
  lemma {:induction false} StaysServed<K, V>(
      c: Cache<K, V>, ops: seq<Op<K, V>>, e: Entry<K, V>, others: set<K>, ttl: Ttl, at: int)
    requires WellFormed(c) && Lookup(c.entries, e.key) == Some(e)
    requires e.expiresAt == ExpiresAt(ttl, c.defaultTtlMs, at)
    requires forall op :: op in ops ==> Honours(op, e.key, ttl, c.defaultTtlMs, at)
    requires Ahead(c.entries, e.key) <= others && Touched(c, ops) - {e.key} <= others && |others| < c.capacity
    ensures Lookup(Run(c, ops).entries, e.key) == Some(e)
    decreases |ops|
  {
    if ops != [] {
      var op, c' := ops[0], Apply(c, ops[0]);
      assert op in ops;
      ApplyKeepsWellFormed(c, op);
      ServedStep(c, op, e, others, ttl, at);
      StaysServed(c', ops[1..], e, others, ttl, at);
    }
  }

  lemma ServedStep<K, V>(c: Cache<K, V>, op: Op<K, V>, e: Entry<K, V>, others: set<K>, ttl: Ttl, at: int)
    requires WellFormed(c) && Lookup(c.entries, e.key) == Some(e)
    requires e.expiresAt == ExpiresAt(ttl, c.defaultTtlMs, at)
    requires Honours(op, e.key, ttl, c.defaultTtlMs, at)
    requires Ahead(c.entries, e.key) <= others && TouchedBy(c, op) - {e.key} <= others && |others| < c.capacity
    ensures Lookup(Apply(c, op).entries, e.key) == Some(e) && Ahead(Apply(c, op).entries, e.key) <= others
  {
    if Spares(op, e.key) {
      ResidencyStep(c, op, e.key);
      if Lookup(Apply(c, op).entries, e.key).None? {
        SubsetSize(Ahead(c.entries, e.key) + TouchedBy(c, op), others);
        assert false;
      }
    } else {
      ServedUntil(ttl, c.defaultTtlMs, at, op.now);
    }
  }

  /** After `put(key, value, ttl)` at time `at`, and any calls that use fewer than `capacity`
      distinct other keys and touch this one only by gets within its lifetime, `get(key)` at time
      `now` returns the value if and only if the lifetime, counted from the put, has not run out. */
  lemma PutThenGetIff<K, V>(c: Cache<K, V>, key: K, value: V, ttl: Ttl, at: int, ops: seq<Op<K, V>>, now: int)
    requires WellFormed(c)
    requires forall op :: op in ops ==> Honours(op, key, ttl, c.defaultTtlMs, at)
    requires |Touched(Put(c, key, value, ttl, at), ops) - {key}| < c.capacity
    ensures Get(Run(Put(c, key, value, ttl, at), ops), key, now).1
            == if StillServed(ttl, c.defaultTtlMs, now - at) then Some(value) else None
    ensures Lookup(Run(Put(c, key, value, ttl, at), ops).entries, key).Some?
  {
    var c' := Put(c, key, value, ttl, at);
    var e := Entry(key, value, ExpiresAt(ttl, c.defaultTtlMs, at));
    PutIsFirst(c, key, value, ttl, at, c');
    assert Lookup(Run(c', ops).entries, key) == Some(e) by {
      StaysServed(c', ops, e, Touched(c', ops) - {key}, ttl, at);
    }
    GetFound(Run(c', ops), e, ttl, c.defaultTtlMs, at, now);
  }

  lemma PutIsFirst<K, V>(c: Cache<K, V>, key: K, value: V, ttl: Ttl, at: int, c': Cache<K, V>)
    requires WellFormed(c) && c' == Put(c, key, value, ttl, at)
    ensures WellFormed(c') && c'.capacity == c.capacity && c'.defaultTtlMs == c.defaultTtlMs
    ensures Lookup(c'.entries, key) == Some(Entry(key, value, ExpiresAt(ttl, c.defaultTtlMs, at)))
    ensures Ahead(c'.entries, key) == {}
  {
    PutKeepsWellFormed(c, key, value, ttl, at);
  }

  lemma GetFound<K, V>(c: Cache<K, V>, e: Entry<K, V>, ttl: Ttl, defaultTtlMs: int, at: int, now: int)
    requires Lookup(c.entries, e.key) == Some(e) && e.expiresAt == ExpiresAt(ttl, defaultTtlMs, at)
    ensures Get(c, e.key, now).1 == if StillServed(ttl, defaultTtlMs, now - at) then Some(e.value) else None
  {
    ServedUntil(ttl, defaultTtlMs, at, now);
  }

  /** A get past the lifetime takes the entry out: until the key is put again no get returns it,
      even on a clock that goes back. */
  lemma ExpiredIsGone<K, V>(c: Cache<K, V>, key: K, now: int, ops: seq<Op<K, V>>, later: int)
    requires WellFormed(c) && Get(c, key, now).1.None?
    requires forall op :: op in ops ==> Spares(op, key)
    ensures Get(Run(Get(c, key, now).0, ops), key, later).1.None?
  {
    GetKeepsWellFormed(c, key, now);
    LookupWithout(c.entries, key);
    AbsentRun(Get(c, key, now).0, ops, key);
  }

  /** Deletion reports whether a get would have found the entry, expired or not, and after it no
      get returns the key until it is put again; other keys keep their entries. */
  lemma DeletedIsGone<K, V>(c: Cache<K, V>, key: K, other: K, ops: seq<Op<K, V>>, now: int)
    requires WellFormed(c) && other != key
    requires forall op :: op in ops ==> Spares(op, key)
    ensures Delete(c, key).1 <==> exists e :: e in c.entries && e.key == key
    ensures Get(Run(Delete(c, key).0, ops), key, now).1.None?
    ensures Lookup(Delete(c, key).0.entries, other) == Lookup(c.entries, other)
  {
    LookupFinds(c.entries, key);
    LookupWithout(c.entries, key);
    ApplyKeepsWellFormed(c, DoDelete(key));
    AbsentRun(Delete(c, key).0, ops, key);
    AheadWithout(c.entries, other, key);
  }

  /** After `clear` no get returns anything that was stored before. */
  lemma ClearedIsGone<K, V>(c: Cache<K, V>, key: K, ops: seq<Op<K, V>>, now: int)
    requires WellFormed(c)
    requires forall op :: op in ops ==> Spares(op, key)
    ensures Get(Run(Clear(c), ops), key, now).1.None?
  {
    AbsentRun(Clear(c), ops, key);
  }

  // ---------- The statistics, one by one ----------

  /** What an operation adds to each counter, told from what it answers and what it finds. */
  function Counted<K(==), V>(c: Cache<K, V>, op: Op<K, V>): Stats {
    match op
    case DoGet(k, now) =>
      var found, answered := Lookup(c.entries, k).Some?, Get(c, k, now).1.Some?;
      Stats(if answered then 1 else 0, if answered then 0 else 1, 0, if found && !answered then 1 else 0)
    case DoPut(k, _, _, _) =>
      Stats(0, 0, if Lookup(c.entries, k).None? && |c.entries| == c.capacity then 1 else 0, 0)
    case _ => Stats(0, 0, 0, 0)
  }

  function Add(a: Stats, b: Stats): Stats {
    Stats(a.hits + b.hits, a.misses + b.misses, a.evictions + b.evictions, a.expirations + b.expirations)
  }

  function AllCounted<K(==), V>(c: Cache<K, V>, ops: seq<Op<K, V>>): Stats
    decreases |ops|
  {
    if ops == [] then Stats(0, 0, 0, 0) else Add(Counted(c, ops[0]), AllCounted(Apply(c, ops[0]), ops[1..]))
  }

  lemma StepStats<K, V>(c: Cache<K, V>, op: Op<K, V>)
    requires WellFormed(c)
    ensures Apply(c, op).stats == Add(c.stats, Counted(c, op))
  {
  }

  lemma AddRegroups(a: Stats, b: Stats, c: Stats)
    ensures Add(Add(a, b), c) == Add(a, Add(b, c))
  {
  }

  /** Over any run: one hit for each get that returned a value, one miss for each that did not,
      one expiration for each that found an entry and did not return it, and one eviction for
      each put of a new key into a full cache. */
  lemma {:induction false} StatsAreExact<K, V>(c: Cache<K, V>, ops: seq<Op<K, V>>)
    requires WellFormed(c)
    ensures Run(c, ops).stats == Add(c.stats, AllCounted(c, ops))
    decreases |ops|
  {
    if ops != [] {
      var c' := Apply(c, ops[0]);
      assert WellFormed(c') by { ApplyKeepsWellFormed(c, ops[0]); }
      assert c'.stats == Add(c.stats, Counted(c, ops[0])) by { StepStats(c, ops[0]); }
      StatsAreExact(c', ops[1..]);
      AddRegroups(c.stats, Counted(c, ops[0]), AllCounted(c', ops[1..]));
    }
  }
}
