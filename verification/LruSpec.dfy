/** The cache of server/src/cache/LRUCache.js as a value: a list of entries, most
    recently used first. Every operation takes the clock reading it performs. */
module LruSpec {
  import opened Wrappers

  /** An expiry instant in milliseconds, or JavaScript's `Infinity`. */
  datatype Expiry = At(ms: int) | Never

  /** The optional `ttlMs` argument: left out, `null`, or a number. */
  datatype Ttl = Undefined | Null | Millis(ms: int)

  datatype Entry<+K, +V> = Entry(key: K, value: V, expiresAt: Expiry)

  datatype Stats = Stats(hits: nat, misses: nat, evictions: nat, expirations: nat)

  datatype Cache<+K, +V> = Cache(capacity: int, defaultTtlMs: int, entries: seq<Entry<K, V>>, stats: Stats)

  predicate Expired(now: int, expiresAt: Expiry) {
    expiresAt.At? && now > expiresAt.ms
  }

  /** The lifetime an entry stored with `ttl` gets, `None` when it never expires.
      `null` is not `undefined`: it does not fall back to the default. */
  function Lifetime(ttl: Ttl, defaultTtlMs: int): (r: Option<int>)
    ensures r.Some? ==> r.value > 0
  {
    match ttl
    case Undefined => if defaultTtlMs > 0 then Some(defaultTtlMs) else None
    case Null => None
    case Millis(ms) => if ms > 0 then Some(ms) else None
  }

  function ExpiresAt(ttl: Ttl, defaultTtlMs: int, now: int): Expiry {
    match Lifetime(ttl, defaultTtlMs)
    case Some(ms) => At(now + ms)
    case None => Never
  }

  ghost predicate DistinctKeys<K, V>(s: seq<Entry<K, V>>) {
    forall i, j :: 0 <= i < j < |s| ==> s[i].key != s[j].key
  }

  function Lookup<K(==), V>(s: seq<Entry<K, V>>, key: K): (r: Option<Entry<K, V>>)
    ensures r.Some? ==> r.value.key == key
  {
    if s == [] then None
    else if s[0].key == key then Some(s[0])
    else Lookup(s[1..], key)
  }

  /** The list without the entry for `key`. */
  function Without<K(==), V>(s: seq<Entry<K, V>>, key: K): (r: seq<Entry<K, V>>)
    ensures |r| <= |s|
  {
    if s == [] then []
    else if s[0].key == key then Without(s[1..], key)
    else [s[0]] + Without(s[1..], key)
  }

  function Hit(st: Stats): Stats { st.(hits := st.hits + 1) }
  function Miss(st: Stats): Stats { st.(misses := st.misses + 1) }

  function Get<K(==), V>(c: Cache<K, V>, key: K, now: int): (Cache<K, V>, Option<V>) {
    match Lookup(c.entries, key)
    case None => (c.(stats := Miss(c.stats)), None)
    case Some(e) =>
      if Expired(now, e.expiresAt) then
        (c.(entries := Without(c.entries, key),
            stats := Miss(c.stats.(expirations := c.stats.expirations + 1))), None)
      else
        (c.(entries := [e] + Without(c.entries, key), stats := Hit(c.stats)), Some(e.value))
  }

  function Put<K(==), V>(c: Cache<K, V>, key: K, value: V, ttl: Ttl, now: int): Cache<K, V> {
    var e := Entry(key, value, ExpiresAt(ttl, c.defaultTtlMs, now));
    if Lookup(c.entries, key).Some? then
      c.(entries := [e] + Without(c.entries, key))
    else if |c.entries| >= c.capacity && c.entries != [] then
      c.(entries := [e] + c.entries[..|c.entries| - 1],
         stats := c.stats.(evictions := c.stats.evictions + 1))
    else
      c.(entries := [e] + c.entries)
  }

  function Delete<K(==), V>(c: Cache<K, V>, key: K): (Cache<K, V>, bool) {
    (c.(entries := Without(c.entries, key)), Lookup(c.entries, key).Some?)
  }

  function Clear<K, V>(c: Cache<K, V>): Cache<K, V> {
    c.(entries := [])
  }

  ghost predicate WellFormed<K, V>(c: Cache<K, V>) {
    && c.capacity >= 1
    && |c.entries| <= c.capacity
    && DistinctKeys(c.entries)
  }

  /** One call on the cache, with its clock reading. */
  datatype Op<+K, +V> =
    | DoGet(key: K, now: int)
    | DoPut(key: K, value: V, ttl: Ttl, now: int)
    | DoDelete(key: K)
    | DoClear

  function Apply<K(==), V>(c: Cache<K, V>, op: Op<K, V>): Cache<K, V> {
    match op
    case DoGet(k, now) => Get(c, k, now).0
    case DoPut(k, v, ttl, now) => Put(c, k, v, ttl, now)
    case DoDelete(k) => Delete(c, k).0
    case DoClear => Clear(c)
  }

  function Run<K(==), V>(c: Cache<K, V>, ops: seq<Op<K, V>>): Cache<K, V>
    decreases |ops|
  {
    if ops == [] then c
    else Run(Apply(c, ops[0]), ops[1..])
  }

  // ---------- Facts about the list operations ----------

  lemma {:induction false} LookupFinds<K, V>(s: seq<Entry<K, V>>, key: K)
    ensures Lookup(s, key).Some? ==> Lookup(s, key).value in s
    ensures Lookup(s, key).None? ==> forall i :: 0 <= i < |s| ==> s[i].key != key
  {
    if s != [] {
      LookupFinds(s[1..], key);
    }
  }

  lemma {:induction false} LookupAt<K, V>(s: seq<Entry<K, V>>, i: nat)
    requires i < |s| && DistinctKeys(s)
    ensures Lookup(s, s[i].key) == Some(s[i])
  {
    if i > 0 {
      LookupAt(s[1..], i - 1);
    }
  }

  lemma {:induction false} WithoutMembers<K, V>(s: seq<Entry<K, V>>, key: K)
    ensures forall e :: e in Without(s, key) ==> e in s && e.key != key
    ensures forall e :: e in s && e.key != key ==> e in Without(s, key)
  {
    if s != [] {
      WithoutMembers(s[1..], key);
    }
  }

  lemma {:induction false} WithoutAbsent<K, V>(s: seq<Entry<K, V>>, key: K)
    requires Lookup(s, key).None?
    ensures Without(s, key) == s
  {
    if s != [] {
      WithoutAbsent(s[1..], key);
    }
  }

  lemma {:induction false} LookupAbsent<K, V>(s: seq<Entry<K, V>>, key: K)
    requires forall i :: 0 <= i < |s| ==> s[i].key != key
    ensures Lookup(s, key).None?
  {
    if s != [] {
      LookupAbsent(s[1..], key);
    }
  }

  /** In a list with distinct keys, removing a key cuts out its one position. */
  lemma {:induction false} WithoutAt<K, V>(s: seq<Entry<K, V>>, i: nat)
    requires i < |s| && DistinctKeys(s)
    ensures Without(s, s[i].key) == s[..i] + s[i + 1..]
  {
    if i == 0 {
      LookupAbsent(s[1..], s[0].key);
      WithoutAbsent(s[1..], s[0].key);
      assert s[..0] + s[1..] == s[1..];
    } else {
      WithoutAt(s[1..], i - 1);
      var t := s[1..];
      assert t[..i - 1] == s[1..i];
      assert t[i..] == s[i + 1..];
      assert [s[0]] + (s[1..i] + s[i + 1..]) == s[..i] + s[i + 1..];
    }
  }

  lemma {:induction false} WithoutKeepsDistinct<K, V>(s: seq<Entry<K, V>>, key: K)
    requires DistinctKeys(s)
    ensures DistinctKeys(Without(s, key))
    ensures |Without(s, key)| == if Lookup(s, key).Some? then |s| - 1 else |s|
  {
    LookupFinds(s, key);
    match Lookup(s, key)
    case None => WithoutAbsent(s, key);
    case Some(e) =>
      var i :| 0 <= i < |s| && s[i] == e;
      WithoutAt(s, i);
  }

  lemma PrependDistinct<K, V>(e: Entry<K, V>, s: seq<Entry<K, V>>)
    requires DistinctKeys(s) && Lookup(s, e.key).None?
    ensures DistinctKeys([e] + s)
  {
    LookupFinds(s, e.key);
  }

  lemma LookupWithout<K, V>(s: seq<Entry<K, V>>, key: K)
    ensures Lookup(Without(s, key), key).None?
  {
  }

  /** Moving or storing an entry at the front. */
  lemma ToFrontKeepsDistinct<K, V>(e: Entry<K, V>, s: seq<Entry<K, V>>)
    requires DistinctKeys(s)
    ensures DistinctKeys([e] + Without(s, e.key))
  {
    WithoutKeepsDistinct(s, e.key);
    LookupWithout(s, e.key);
    PrependDistinct(e, Without(s, e.key));
  }

  lemma {:induction false} GetKeepsWellFormed<K, V>(c: Cache<K, V>, key: K, now: int)
    requires WellFormed(c)
    ensures WellFormed(Get(c, key, now).0)
  {
    WithoutKeepsDistinct(c.entries, key);
    match Lookup(c.entries, key)
    case None =>
    case Some(e) => ToFrontKeepsDistinct(e, c.entries);
  }

  lemma {:induction false} PutKeepsWellFormed<K, V>(c: Cache<K, V>, key: K, value: V, ttl: Ttl, now: int)
    requires WellFormed(c)
    ensures WellFormed(Put(c, key, value, ttl, now))
  {
    var e := Entry(key, value, ExpiresAt(ttl, c.defaultTtlMs, now));
    var s := c.entries;
    if Lookup(s, key).Some? {
      WithoutKeepsDistinct(s, key);
      ToFrontKeepsDistinct(e, s);
    } else {
      LookupFinds(s, key);
    }
  }

  lemma ApplyKeepsWellFormed<K, V>(c: Cache<K, V>, op: Op<K, V>)
    requires WellFormed(c)
    ensures WellFormed(Apply(c, op))
    ensures Apply(c, op).capacity == c.capacity && Apply(c, op).defaultTtlMs == c.defaultTtlMs
  {
    match op
    case DoGet(k, now) => GetKeepsWellFormed(c, k, now);
    case DoPut(k, v, ttl, now) => PutKeepsWellFormed(c, k, v, ttl, now);
    case DoDelete(k) => WithoutKeepsDistinct(c.entries, k);
    case DoClear =>
  }

  /** Over any run the list stays within capacity with no key twice. */
  lemma {:induction false} RunKeepsWellFormed<K, V>(c: Cache<K, V>, ops: seq<Op<K, V>>)
    requires WellFormed(c)
    ensures WellFormed(Run(c, ops))
    ensures Run(c, ops).capacity == c.capacity && Run(c, ops).defaultTtlMs == c.defaultTtlMs
    decreases |ops|
  {
    if ops != [] {
      ApplyKeepsWellFormed(c, ops[0]);
      RunKeepsWellFormed(Apply(c, ops[0]), ops[1..]);
    }
  }
}
