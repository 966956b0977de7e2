/** What the cache promises over whole runs: a larger cache never loses a hit that a
    smaller one has, and an entry leaves exactly when enough other keys were used. */
module LruTheorems {
  import opened Collections
  import opened Wrappers
  import opened LruSpec

  // ---------- Capacity inclusion ----------

  ghost predicate Subseq<T>(s: seq<T>, l: seq<T>) {
    s == [] || (l != [] && ((s[0] == l[0] && Subseq(s[1..], l[1..])) || Subseq(s, l[1..])))
  }

  lemma {:induction false} SubseqWithout<K, V>(s: seq<Entry<K, V>>, l: seq<Entry<K, V>>, key: K)
    requires Subseq(s, l)
    ensures Subseq(Without(s, key), Without(l, key))
    decreases |l|
  {
    if s != [] {
      if s[0] == l[0] && Subseq(s[1..], l[1..]) {
        SubseqWithout(s[1..], l[1..], key);
      } else {
        SubseqWithout(s, l[1..], key);
      }
    }
  }

  lemma {:induction false} SubseqLookup<K, V>(s: seq<Entry<K, V>>, l: seq<Entry<K, V>>, key: K)
    requires Subseq(s, l) && DistinctKeys(l)
    ensures Lookup(s, key).Some? ==> Lookup(l, key) == Lookup(s, key)
    decreases |l|
  {
    if s != [] {
      if s[0] == l[0] && Subseq(s[1..], l[1..]) {
        SubseqLookup(s[1..], l[1..], key);
      } else {
        SubseqLookup(s, l[1..], key);
        LookupFinds(l[1..], key);
      }
    }
  }

  lemma {:induction false} SubseqTruncate<T>(s: seq<T>, l: seq<T>)
    requires Subseq(s, l) && s != []
    ensures Subseq(s[..|s| - 1], l)
    decreases |l|
  {
    var t := s[..|s| - 1];
    if s[0] == l[0] && Subseq(s[1..], l[1..]) {
      if |s| > 1 {
        SubseqTruncate(s[1..], l[1..]);
        assert t[1..] == s[1..][..|s| - 2];
      }
    } else {
      SubseqTruncate(s, l[1..]);
    }
  }

  /** Dropping the last element of the longer list costs the shorter at most its last. */
  lemma {:induction false} SubseqDropLast<T>(s: seq<T>, l: seq<T>)
    requires Subseq(s, l) && l != []
    ensures Subseq(s, l[..|l| - 1]) || (s != [] && Subseq(s[..|s| - 1], l[..|l| - 1]))
    decreases |l|
  {
    if s != [] && |l| > 1 {
      var m := l[..|l| - 1];
      assert m[1..] == l[1..][..|l| - 2];
      if s[0] == l[0] && Subseq(s[1..], l[1..]) {
        SubseqDropLast(s[1..], l[1..]);
        if |s| > 1 {
          assert s[..|s| - 1][1..] == s[1..][..|s| - 2];
        }
      } else {
        SubseqDropLast(s, l[1..]);
      }
    }
  }

  /** The small cache `a` holds a sub-list of what the large cache `b` holds, in the same
      recency order, and has not fallen further behind than the capacities differ. */
  ghost predicate Included<K, V>(a: Cache<K, V>, b: Cache<K, V>) {
    && WellFormed(a) && WellFormed(b)
    && a.capacity <= b.capacity && a.defaultTtlMs == b.defaultTtlMs
    && Subseq(a.entries, b.entries)
    && |b.entries| - |a.entries| <= b.capacity - a.capacity
    && a.stats.hits <= b.stats.hits
  }

  lemma {:induction false} GetKeepsIncluded<K, V>(a: Cache<K, V>, b: Cache<K, V>, key: K, now: int)
    requires Included(a, b)
    ensures Get(a, key, now).1.Some? ==> Get(b, key, now).1 == Get(a, key, now).1
    ensures Included(Get(a, key, now).0, Get(b, key, now).0)
  {
    var s, l := a.entries, b.entries;
    GetKeepsWellFormed(a, key, now);
    GetKeepsWellFormed(b, key, now);
    SubseqLookup(s, l, key);
    SubseqWithout(s, l, key);
    WithoutKeepsDistinct(s, key);
    WithoutKeepsDistinct(l, key);
    if Lookup(s, key).None? {
      WithoutAbsent(s, key);
    }
  }

  lemma {:induction false} PutKeepsIncluded<K, V>(
      a: Cache<K, V>, b: Cache<K, V>, key: K, value: V, ttl: Ttl, now: int)
    requires Included(a, b)
    ensures Included(Put(a, key, value, ttl, now), Put(b, key, value, ttl, now))
  {
    var s, l := a.entries, b.entries;
    var e := Entry(key, value, ExpiresAt(ttl, a.defaultTtlMs, now));
    PutKeepsWellFormed(a, key, value, ttl, now);
    PutKeepsWellFormed(b, key, value, ttl, now);
    SubseqLookup(s, l, key);
    WithoutKeepsDistinct(s, key);
    WithoutKeepsDistinct(l, key);
    if Lookup(l, key).Some? {
      SubseqWithout(s, l, key);
      if Lookup(s, key).None? {
        WithoutAbsent(s, key);
        if s != [] {
          SubseqTruncate(s, Without(l, key));
        }
      }
    } else {
      if s != [] {
        SubseqTruncate(s, l);
      }
      if l != [] {
        SubseqDropLast(s, l);
        if s != [] && Subseq(s, l[..|l| - 1]) {
          SubseqTruncate(s, l[..|l| - 1]);
        }
      }
    }
  }

  lemma {:induction false} ApplyKeepsIncluded<K, V>(a: Cache<K, V>, b: Cache<K, V>, op: Op<K, V>)
    requires Included(a, b)
    ensures Included(Apply(a, op), Apply(b, op))
  {
    match op
    case DoGet(k, now) => GetKeepsIncluded(a, b, k, now);
    case DoPut(k, v, ttl, now) => PutKeepsIncluded(a, b, k, v, ttl, now);
    case DoDelete(k) =>
      SubseqWithout(a.entries, b.entries, k);
      SubseqLookup(a.entries, b.entries, k);
      WithoutKeepsDistinct(a.entries, k);
      WithoutKeepsDistinct(b.entries, k);
    case DoClear =>
  }

  lemma {:induction false} RunKeepsIncluded<K, V>(a: Cache<K, V>, b: Cache<K, V>, ops: seq<Op<K, V>>)
    requires Included(a, b)
    ensures Included(Run(a, ops), Run(b, ops))
    decreases |ops|
  {
    if ops != [] {
      ApplyKeepsIncluded(a, b, ops[0]);
      RunKeepsIncluded(Apply(a, ops[0]), Apply(b, ops[0]), ops[1..]);
    }
  }

  function Empty<K, V>(capacity: int, defaultTtlMs: int): Cache<K, V> {
    Cache(capacity, defaultTtlMs, [], Stats(0, 0, 0, 0))
  }

  /** Run the same timed calls on a cache of capacity `n` and one of capacity `m >= n`:
      every hit of the small one is the same hit in the large one, and the large one's
      list contains the small one's in the same order. */
  lemma CapacityInclusion<K, V>(n: int, m: int, defaultTtlMs: int, ops: seq<Op<K, V>>, key: K, now: int)
    requires 1 <= n <= m
    ensures var a, b := Run(Empty(n, defaultTtlMs), ops), Run(Empty(m, defaultTtlMs), ops);
            && Subseq(a.entries, b.entries)
            && a.stats.hits <= b.stats.hits
            && (Get(a, key, now).1.Some? ==> Get(b, key, now).1 == Get(a, key, now).1)
  {
    RunKeepsIncluded<K, V>(Empty(n, defaultTtlMs), Empty(m, defaultTtlMs), ops);
    GetKeepsIncluded(Run(Empty(n, defaultTtlMs), ops), Run(Empty(m, defaultTtlMs), ops), key, now);
  }

  // ---------- Residency ----------

  /** The keys more recently used than `key`. */
  ghost function Ahead<K, V>(s: seq<Entry<K, V>>, key: K): set<K> {
    if s == [] || s[0].key == key then {} else {s[0].key} + Ahead(s[1..], key)
  }

  lemma {:induction false} AheadWithout<K, V>(s: seq<Entry<K, V>>, key: K, other: K)
    requires other != key
    ensures Ahead(Without(s, other), key) == Ahead(s, key) - {other}
    ensures Lookup(Without(s, other), key) == Lookup(s, key)
  {
    if s != [] {
      AheadWithout(s[1..], key, other);
    }
  }

  lemma {:induction false} AheadDropLast<K, V>(s: seq<Entry<K, V>>, key: K)
    requires Lookup(s, key).Some? && s[|s| - 1].key != key
    ensures Lookup(s[..|s| - 1], key) == Lookup(s, key)
    ensures Ahead(s[..|s| - 1], key) == Ahead(s, key)
  {
    if s[0].key != key {
      AheadDropLast(s[1..], key);
      assert s[..|s| - 1][1..] == s[1..][..|s| - 2];
    }
  }

  lemma {:induction false} LookupDropLast<K, V>(s: seq<Entry<K, V>>, key: K)
    requires s != []
    ensures Lookup(s[..|s| - 1], key).Some? ==> Lookup(s, key) == Lookup(s[..|s| - 1], key)
    ensures s[|s| - 1].key == key && DistinctKeys(s) ==> Lookup(s[..|s| - 1], key).None?
  {
    var t := s[..|s| - 1];
    if |s| > 1 {
      LookupDropLast(s[1..], key);
      assert t[1..] == s[1..][..|s| - 2];
    }
  }

  lemma {:induction false} AheadCount<K, V>(s: seq<Entry<K, V>>, key: K)
    requires DistinctKeys(s) && Lookup(s, key).Some?
    ensures |Ahead(s, key)| < |s|
    ensures s[|s| - 1].key == key ==> |Ahead(s, key)| == |s| - 1
    ensures forall k :: k in Ahead(s, key) ==> Lookup(s, k).Some?
  {
    if s[0].key != key {
      AheadCount(s[1..], key);
      LookupFinds(s[1..], key);
      if s[0].key in Ahead(s[1..], key) {
        LookupFinds(s[1..], s[0].key);
        assert false;
      }
    }
  }

  /** The key an operation makes most recently used: that of a put or of a get that hits. */
  ghost function TouchedBy<K, V>(c: Cache<K, V>, op: Op<K, V>): set<K> {
    match op
    case DoPut(k, _, _, _) => {k}
    case DoGet(k, now) => if Get(c, k, now).1.Some? then {k} else {}
    case _ => {}
  }

  ghost function Touched<K, V>(c: Cache<K, V>, ops: seq<Op<K, V>>): set<K>
    decreases |ops|
  {
    if ops == [] then {} else TouchedBy(c, ops[0]) + Touched(Apply(c, ops[0]), ops[1..])
  }

  /** The operation neither names `key` nor clears the cache. */
  ghost predicate Spares<K, V>(op: Op<K, V>, key: K) {
    !op.DoClear? && op.key != key
  }

  /** The operation drops no entry other than by eviction. */
  ghost predicate Keeps<K, V>(c: Cache<K, V>, op: Op<K, V>) {
    match op
    case DoPut(_, _, _, _) => true
    case DoGet(k, now) => Lookup(c.entries, k).Some? ==> Get(c, k, now).1.Some?
    case _ => false
  }

  ghost predicate KeepsAll<K, V>(c: Cache<K, V>, ops: seq<Op<K, V>>)
    decreases |ops|
  {
    ops == [] || (Keeps(c, ops[0]) && KeepsAll(Apply(c, ops[0]), ops[1..]))
  }

  lemma AheadToFront<K, V>(s: seq<Entry<K, V>>, key: K, e: Entry<K, V>)
    requires e.key != key
    ensures var t := [e] + Without(s, e.key);
            Lookup(t, key) == Lookup(s, key) && Ahead(t, key) == Ahead(s, key) + {e.key}
  {
    AheadWithout(s, key, e.key);
  }

  /** A put of a new key: the entry stays and the new key is ahead of it, unless the cache is
      full and the entry is last; then all the others are ahead of it. */
  lemma {:induction false} ResidencyPut<K, V>(c: Cache<K, V>, op: Op<K, V>, key: K)
    requires WellFormed(c) && op.DoPut? && op.key != key
    requires Lookup(c.entries, key).Some? && Lookup(c.entries, op.key).None?
    ensures var t := Apply(c, op).entries; var ahead := Ahead(c.entries, key) + {op.key};
            if |c.entries| >= c.capacity && c.entries[|c.entries| - 1].key == key then
              Lookup(t, key).None? && |ahead| == c.capacity
            else Lookup(t, key) == Lookup(c.entries, key) && Ahead(t, key) == ahead
  {
    var s := c.entries;
    if |s| >= c.capacity {
      if s[|s| - 1].key == key {
        AheadCount(s, key);
        LookupDropLast(s, key);
      } else {
        AheadDropLast(s, key);
      }
    }
  }

  /** One operation on another key: the entry stays, and only the operation's own key can
      have moved ahead of it, unless the entry is last and the operation evicts it. */
  lemma {:induction false} ResidencyStep<K, V>(c: Cache<K, V>, op: Op<K, V>, key: K)
    requires WellFormed(c) && Spares(op, key)
    requires Lookup(c.entries, key).Some?
    ensures var c' := Apply(c, op); var ahead := Ahead(c.entries, key) + TouchedBy(c, op);
            if Lookup(c'.entries, key).Some? then
              Lookup(c'.entries, key) == Lookup(c.entries, key)
              && Ahead(c'.entries, key) <= ahead
              && (Keeps(c, op) ==> Ahead(c'.entries, key) == ahead)
            else |ahead| == c.capacity
  {
    AheadWithout(c.entries, key, op.key);
    match op
    case DoDelete(k) =>
    case DoGet(k, now) =>
      if Lookup(c.entries, k).Some? {
        AheadToFront(c.entries, key, Lookup(c.entries, k).value);
      }
    case DoPut(k, v, ttl, now) =>
      if Lookup(c.entries, k).Some? {
        AheadToFront(c.entries, key, Entry(k, v, ExpiresAt(ttl, c.defaultTtlMs, now)));
      } else {
        ResidencyPut(c, op, key);
      }
  }

  /** An entry that is gone stays gone while nothing puts its key. */
  lemma {:induction false} AbsentStep<K, V>(c: Cache<K, V>, op: Op<K, V>, key: K)
    requires WellFormed(c) && Spares(op, key) && Lookup(c.entries, key).None?
    ensures Lookup(Apply(c, op).entries, key).None?
  {
    AheadWithout(c.entries, key, op.key);
    if op.DoPut? && c.entries != [] {
      LookupDropLast(c.entries, key);
    }
  }

  lemma {:induction false} AbsentRun<K, V>(c: Cache<K, V>, ops: seq<Op<K, V>>, key: K)
    requires WellFormed(c) && Lookup(c.entries, key).None?
    requires forall op :: op in ops ==> Spares(op, key)
    ensures Lookup(Run(c, ops).entries, key).None?
    decreases |ops|
  {
    if ops != [] {
      AbsentStep(c, ops[0], key);
      ApplyKeepsWellFormed(c, ops[0]);
      AbsentRun(Apply(c, ops[0]), ops[1..], key);
    }
  }

  /** The keys ahead of the entry, now or through the rest of the run. */
  ghost function AheadInAll<K, V>(c: Cache<K, V>, ops: seq<Op<K, V>>, key: K): set<K> {
    Ahead(c.entries, key) + Touched(c, ops)
  }

  lemma ResidencyFirst<K, V>(c: Cache<K, V>, ops: seq<Op<K, V>>, key: K)
    requires WellFormed(c) && Lookup(c.entries, key).Some?
    requires ops != [] && Spares(ops[0], key)
    ensures var c' := Apply(c, ops[0]); var total := AheadInAll(c, ops, key);
            if Lookup(c'.entries, key).Some? then
              Lookup(c'.entries, key) == Lookup(c.entries, key)
              && |AheadInAll(c', ops[1..], key)| <= |total|
              && (Keeps(c, ops[0]) ==> AheadInAll(c', ops[1..], key) == total)
            else |total| >= c.capacity
  {
    var c' := Apply(c, ops[0]);
    ResidencyStep(c, ops[0], key);
    var step := Ahead(c.entries, key) + TouchedBy(c, ops[0]);
    assert AheadInAll(c, ops, key) == step + Touched(c', ops[1..]);
    if Lookup(c'.entries, key).Some? {
      SubsetSize(AheadInAll(c', ops[1..], key), AheadInAll(c, ops, key));
    } else {
      SubsetSize(step, AheadInAll(c, ops, key));
    }
  }

  lemma {:induction false} ResidencyFrom<K, V>(c: Cache<K, V>, ops: seq<Op<K, V>>, key: K)
    requires WellFormed(c) && Lookup(c.entries, key).Some?
    requires forall op :: op in ops ==> Spares(op, key)
    ensures |AheadInAll(c, ops, key)| < c.capacity ==> Lookup(Run(c, ops).entries, key) == Lookup(c.entries, key)
    ensures KeepsAll(c, ops) && |AheadInAll(c, ops, key)| >= c.capacity ==> Lookup(Run(c, ops).entries, key).None?
    decreases |ops|
  {
    if ops == [] {
      AheadCount(c.entries, key);
      assert AheadInAll(c, ops, key) == Ahead(c.entries, key);
    } else {
      var c' := Apply(c, ops[0]);
      ResidencyFirst(c, ops, key);
      ApplyKeepsWellFormed(c, ops[0]);
      if Lookup(c'.entries, key).Some? {
        ResidencyFrom(c', ops[1..], key);
      } else {
        AbsentRun(c', ops[1..], key);
      }
    }
  }

  /** A key just put or hit, then left alone, is still there with its value and expiry as
      long as fewer than `capacity` distinct other keys were put or hit since. When nothing
      was deleted or expired in between, that count decides: it is there if and only if. */
  lemma Residency<K, V>(c: Cache<K, V>, ops: seq<Op<K, V>>)
    requires WellFormed(c) && c.entries != []
    requires forall op :: op in ops ==> Spares(op, c.entries[0].key)
    ensures |Touched(c, ops)| < c.capacity
            ==> Lookup(Run(c, ops).entries, c.entries[0].key) == Some(c.entries[0])
    ensures KeepsAll(c, ops) ==>
            (Lookup(Run(c, ops).entries, c.entries[0].key).Some? <==> |Touched(c, ops)| < c.capacity)
  {
    var key := c.entries[0].key;
    assert AheadInAll(c, ops, key) == Touched(c, ops);
    ResidencyFrom(c, ops, key);
  }

  /** The same promise as a caller sees it: after `put(key, value)`, a later `get(key)` that
      is not past the expiry returns `value`. */
  lemma PutThenGet<K, V>(c: Cache<K, V>, key: K, value: V, ttl: Ttl, at: int, ops: seq<Op<K, V>>, now: int)
    requires WellFormed(c)
    requires forall op :: op in ops ==> Spares(op, key)
    requires |Touched(Put(c, key, value, ttl, at), ops)| < c.capacity
    requires !Expired(now, ExpiresAt(ttl, c.defaultTtlMs, at))
    ensures Get(Run(Put(c, key, value, ttl, at), ops), key, now).1 == Some(value)
  {
    PutKeepsWellFormed(c, key, value, ttl, at);
    Residency(Put(c, key, value, ttl, at), ops);
  }

  // ---------- The statistics add up ----------

  function Gets<K, V>(ops: seq<Op<K, V>>): nat {
    if ops == [] then 0 else (if ops[0].DoGet? then 1 else 0) + Gets(ops[1..])
  }

  /** Entries that enter by an operation: a put of a key that is not there. */
  function Entering<K(==), V>(c: Cache<K, V>, op: Op<K, V>): nat {
    if op.DoPut? && Lookup(c.entries, op.key).None? then 1 else 0
  }

  /** Entries that leave because the caller asked for it. */
  function Dropped<K(==), V>(c: Cache<K, V>, op: Op<K, V>): nat {
    match op
    case DoDelete(k) => if Lookup(c.entries, k).Some? then 1 else 0
    case DoClear => |c.entries|
    case _ => 0
  }

  function AllEntering<K(==), V>(c: Cache<K, V>, ops: seq<Op<K, V>>): nat
    decreases |ops|
  {
    if ops == [] then 0 else Entering(c, ops[0]) + AllEntering(Apply(c, ops[0]), ops[1..])
  }

  function AllDropped<K(==), V>(c: Cache<K, V>, ops: seq<Op<K, V>>): nat
    decreases |ops|
  {
    if ops == [] then 0 else Dropped(c, ops[0]) + AllDropped(Apply(c, ops[0]), ops[1..])
  }

  /** Entries present, evicted, expired. */
  function Census<K, V>(c: Cache<K, V>): nat {
    |c.entries| + c.stats.evictions + c.stats.expirations
  }

  lemma {:induction false} StepAccount<K, V>(c: Cache<K, V>, op: Op<K, V>)
    requires WellFormed(c)
    ensures Census(Apply(c, op)) + Dropped(c, op) == Census(c) + Entering(c, op)
    ensures var s, t := c.stats, Apply(c, op).stats;
            t.hits + t.misses == s.hits + s.misses + (if op.DoGet? then 1 else 0)
  {
    if !op.DoClear? {
      WithoutKeepsDistinct(c.entries, op.key);
    }
  }

  /** Over any run: every entry that entered is present, was evicted, expired, or was dropped
      at the caller's request; and every get was counted as one hit or one miss. */
  lemma {:induction false} StatsAccount<K, V>(c: Cache<K, V>, ops: seq<Op<K, V>>)
    requires WellFormed(c)
    ensures var t := Run(c, ops);
            && Census(t) + AllDropped(c, ops) == Census(c) + AllEntering(c, ops)
            && t.stats.hits + t.stats.misses == c.stats.hits + c.stats.misses + Gets(ops)
    decreases |ops|
  {
    if ops != [] {
      StepAccount(c, ops[0]);
      ApplyKeepsWellFormed(c, ops[0]);
      StatsAccount(Apply(c, ops[0]), ops[1..]);
    }
  }
}
