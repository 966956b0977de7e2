/** Pruning idle buckets and sharing one store among clients: when neither can be noticed. */
module BucketStoreTheorems {
  import opened Collections
  import opened BucketSpec
  import opened BucketStoreSpec
  import BT = BucketTheorems

  // ---------- Pruning ----------

  /** A bucket that will be full by any call at `now` or later. */
  predicate FullBy(b: Bucket, now: int) {
    && now > b.lastRefillTime
    && b.tokens + Gain(b.limit.refillRate, now - b.lastRefillTime) >= b.limit.capacity as real
  }

  /** The limits under which pruning cannot be noticed. */
  predicate Generous(limit: Limit) {
    limit.refillRate > 0.0 && limit.capacity >= 0 && FillsWhileIdle(limit)
  }

  predicate Sound(b: Bucket, limit: Limit, now: int) {
    && b.limit == limit && Generous(limit) && BT.InBounds(b)
    && b.lastRefillTime == b.lastUsedAt <= now
  }

  /** The pruned store `p` has lost only buckets that the other, `u`, would find full. */
  ghost predicate Simulates(p: Store, u: Store, now: int, config: string -> Limit) {
    && (forall k :: k in p ==> k in u && p[k] == u[k])
    && (forall k :: k in u ==> Sound(u[k], config(k), now))
    && (forall k :: k in u && k !in p ==> FullBy(u[k], now))
  }

  lemma FullStaysFull(b: Bucket, now: int, later: int)
    requires FullBy(b, now) && now <= later && b.limit.refillRate > 0.0
    ensures FullBy(b, later)
  {
  }

  lemma SoundConsume(b: Bucket, limit: Limit, now: int)
    requires Sound(b, limit, now)
    ensures Sound(Consume(b, now).0, limit, now)
  {
  }

  /** A full bucket answers and continues as a new one. */
  lemma FullIsNew(b: Bucket, limit: Limit, now: int)
    requires Sound(b, limit, now) && FullBy(b, now)
    ensures Consume(b, now) == Consume(NewBucket(limit, now), now)
  {
  }

  lemma StaleIsFull(b: Bucket, limit: Limit, now: int)
    requires Sound(b, limit, now) && IsStale(b, now)
    ensures FullBy(b, now)
  {
  }

  lemma SimulatesLater(p: Store, u: Store, now: int, later: int, config: string -> Limit)
    requires Simulates(p, u, now, config) && now <= later
    ensures Simulates(p, u, later, config)
  {
    forall k | k in u && k !in p ensures FullBy(u[k], later) {
      FullStaysFull(u[k], now, later);
    }
  }

  lemma AskKeepsSimulation(p: Store, u: Store, op: Op, config: string -> Limit)
    requires op.Ask? && op.limit == config(op.key) && Generous(op.limit)
    requires Simulates(p, u, op.now, config)
    ensures Answer(p, op) == Answer(u, op)
    ensures Simulates(Apply(p, op), Apply(u, op), op.now, config)
  {
    var b := GetBucket(u, op.key, op.limit, op.now);
    SoundConsume(b, op.limit, op.now);
    if op.key in u && op.key !in p {
      FullIsNew(b, op.limit, op.now);
    }
  }

  lemma PruneKeepsSimulation(p: Store, u: Store, now: int, config: string -> Limit)
    requires Simulates(p, u, now, config)
    ensures Simulates(Prune(p, now), u, now, config)
  {
    forall k | k in u && k !in Prune(p, now) ensures FullBy(u[k], now) {
      if k in p {
        StaleIsFull(u[k], config(k), now);
      }
    }
  }

  ghost predicate AllGenerous(ops: seq<Op>) {
    forall op :: op in ops && op.Ask? ==> Generous(op.limit)
  }

  lemma {:induction false} PrunedRunAgrees(p: Store, u: Store, t: int, ops: seq<Op>, config: string -> Limit)
    requires Simulates(p, u, t, config)
    requires Configured(ops, config) && Monotone(t, ops)
    requires AllGenerous(ops)
    ensures Answers(p, ops) == Answers(u, Unpruned(ops))
    decreases |ops|
  {
    if ops != [] {
      var op := ops[0];
      assert op in ops;
      SimulatesLater(p, u, t, op.now, config);
      if op.Ask? {
        AskKeepsSimulation(p, u, op, config);
        PrunedRunAgrees(Apply(p, op), Apply(u, op), op.now, ops[1..], config);
        var all := Unpruned(ops);
        assert all[0] == op && all[1..] == Unpruned(ops[1..]);
      } else {
        PruneKeepsSimulation(p, u, op.now, config);
        PrunedRunAgrees(Apply(p, op), u, op.now, ops[1..], config);
        assert Unpruned(ops) == Unpruned(ops[1..]);
      }
    }
  }

  /** With limits that refill within the idle time, every answer of a run with `_prune` at
      arbitrary points is the answer of a store that never prunes. */
  lemma PruningIsInvisible(t: int, ops: seq<Op>, config: string -> Limit)
    requires Configured(ops, config) && Monotone(t, ops)
    requires AllGenerous(ops)
    ensures Answers(map[], ops) == Answers(map[], Unpruned(ops))
  {
    PrunedRunAgrees(map[], map[], t, ops, config);
  }

  // ---------- When pruning does show ----------

  /** n asks at one instant. */
  function Burst(key: string, limit: Limit, now: int, n: nat): seq<Op> {
    if n == 0 then [] else [Ask(key, limit, now)] + Burst(key, limit, now, n - 1)
  }

  lemma {:induction false} AnswersSplit(s: Store, a: seq<Op>, b: seq<Op>)
    ensures Answers(s, a + b) == Answers(s, a) + Answers(RunStore(s, a), b)
    decreases |a|
  {
    if a == [] {
      assert a + b == b;
    } else {
      assert (a + b)[0] == a[0] && (a + b)[1..] == a[1..] + b;
      var s' := Apply(s, a[0]);
      AnswersSplit(s', a[1..], b);
      Regroup(Answer(s, a[0]), Answers(s', a[1..]), Answers(RunStore(s', a[1..]), b));
    }
  }

  lemma {:induction false} UnprunedSplit(a: seq<Op>, b: seq<Op>)
    ensures Unpruned(a + b) == Unpruned(a) + Unpruned(b)
  {
    if a == [] {
      assert a + b == b;
    } else {
      assert (a + b)[0] == a[0] && (a + b)[1..] == a[1..] + b;
      UnprunedSplit(a[1..], b);
    }
  }

  /** A burst that spends all the bucket holds. */
  lemma {:induction false} BurstDrains(s: Store, key: string, limit: Limit, now: int, n: nat)
    requires limit.capacity >= 1
    requires GetBucket(s, key, limit, now) == Bucket(limit, n as real, now, now)
    requires n == 0 ==> key in s
    ensures var e := RunStore(s, Burst(key, limit, now, n)); key in e && e[key] == Bucket(limit, 0.0, now, now)
    ensures Unpruned(Burst(key, limit, now, n)) == Burst(key, limit, now, n)
    decreases n
  {
    if n > 0 {
      var s' := Apply(s, Ask(key, limit, now));
      assert Gain(limit.refillRate, 0) == 0.0;
      assert s'[key] == Bucket(limit, (n - 1) as real, now, now);
      BurstDrains(s', key, limit, now, n - 1);
    }
  }

  lemma {:induction false} BurstThen(key: string, limit: Limit, now: int, n: nat, tail: seq<Op>)
    requires Monotone(now, tail)
    ensures Monotone(now, Burst(key, limit, now, n) + tail)
    ensures forall op :: op in Burst(key, limit, now, n) + tail ==> op == Ask(key, limit, now) || op in tail
  {
    var ops := Burst(key, limit, now, n) + tail;
    if n == 0 {
      assert ops == tail;
    } else {
      BurstThen(key, limit, now, n - 1, tail);
      assert ops[0] == Ask(key, limit, now) && ops[1..] == Burst(key, limit, now, n - 1) + tail;
      assert ops == [ops[0]] + ops[1..];
    }
  }

  /** The bucket after a full burst and one idle period answers as a new one exactly when it
      has refilled. */
  lemma RefilledOrNoticed(limit: Limit)
    requires limit.capacity >= 1 && limit.refillRate > 0.0
    ensures Consume(Bucket(limit, 0.0, 0, 0), IDLE_TTL_MS + 1).1 ==
            Consume(NewBucket(limit, IDLE_TTL_MS + 1), IDLE_TTL_MS + 1).1
            ==> FillsWhileIdle(limit)
  {
    var t := IDLE_TTL_MS + 1;
    BT.GainPositive(limit.refillRate, t);
    assert Gain(limit.refillRate, 0) == 0.0;
    var full := NewBucket(limit, t);
    assert Consume(full, t).1 == Verdict(true, limit.capacity - 1, Ms(0));
  }

  ghost predicate Uniform(ops: seq<Op>, limit: Limit) {
    forall op :: op in ops && op.Ask? ==> op.limit == limit
  }

  /** No run of asks with this limit on a clock that does not go back shows its prunes. */
  ghost predicate NeverNoticed(limit: Limit) {
    forall ops :: Monotone(0, ops) && Uniform(ops, limit) ==> Answers(map[], ops) == Answers(map[], Unpruned(ops))
  }

  lemma AskAfterIdle(e: Store, key: string, limit: Limit, t: int)
    requires key in e && IsStale(e[key], t)
    ensures var ask := Ask(key, limit, t);
            && Answers(e, [ask]) == [Consume(e[key], t).1]
            && Answers(e, [PruneAt(t), ask]) == [Consume(NewBucket(limit, t), t).1]
            && Unpruned([PruneAt(t), ask]) == [ask]
  {
    var ask, p := Ask(key, limit, t), Prune(e, t);
    assert [PruneAt(t), ask][1..] == [ask];
    assert Unpruned([ask]) == [ask];
    assert GetBucket(p, key, limit, t) == NewBucket(limit, t);
    assert Answers(p, [ask]) == Answer(p, ask);
  }

  /** A full burst, one idle period, a prune and one more ask: with and without the prune. */
  lemma FullBurstAnswers(limit: Limit) returns (ops: seq<Op>, first: seq<Verdict>)
    requires limit.capacity >= 1
    ensures Monotone(0, ops) && Uniform(ops, limit)
    ensures Answers(map[], ops) == first + [Consume(NewBucket(limit, IDLE_TTL_MS + 1), IDLE_TTL_MS + 1).1]
    ensures Answers(map[], Unpruned(ops)) == first + [Consume(Bucket(limit, 0.0, 0, 0), IDLE_TTL_MS + 1).1]
  {
    var t, key := IDLE_TTL_MS + 1, "";
    var burst, ask := Burst(key, limit, 0, limit.capacity), Ask(key, limit, t);
    BurstDrains(map[], key, limit, 0, limit.capacity);
    AskAfterIdle(RunStore(map[], burst), key, limit, t);
    AnswersSplit(map[], burst, [PruneAt(t), ask]);
    AnswersSplit(map[], burst, [ask]);
    UnprunedSplit(burst, [PruneAt(t), ask]);
    assert [PruneAt(t), ask][1..] == [ask];
    BurstThen(key, limit, 0, limit.capacity, [PruneAt(t), ask]);
    ops, first := burst + [PruneAt(t), ask], Answers(map[], burst);
  }

  lemma FullBurstNoticed(limit: Limit)
    requires limit.capacity >= 1 && limit.refillRate > 0.0 && NeverNoticed(limit)
    ensures FillsWhileIdle(limit)
  {
    var ops, first := FullBurstAnswers(limit);
    assert Answers(map[], ops)[|first|] == Answers(map[], Unpruned(ops))[|first|];
    RefilledOrNoticed(limit);
  }

  /** Pruning is invisible exactly when a bucket refills completely within the idle time:
      300.001 seconds' worth of tokens must reach the capacity. */
  lemma PruningInvisibleIff(limit: Limit)
    requires limit.capacity >= 1 && limit.refillRate > 0.0
    ensures NeverNoticed(limit) <==> limit.refillRate * 300.001 >= limit.capacity as real
  {
    assert Gain(limit.refillRate, IDLE_TTL_MS + 1) == limit.refillRate * 300.001;
    if NeverNoticed(limit) {
      FullBurstNoticed(limit);
    }
    if FillsWhileIdle(limit) {
      forall ops | Monotone(0, ops) && Uniform(ops, limit)
        ensures Answers(map[], ops) == Answers(map[], Unpruned(ops))
      {
        PruningIsInvisible(0, ops, _ => limit);
      }
    }
  }

  // ---------- Isolation ----------

  /** The calls that concern one key: its own asks, and the prunes. */
  function Project(ops: seq<Op>, key: string): seq<Op> {
    if ops == [] then []
    else (if ops[0].PruneAt? || ops[0].key == key then [ops[0]] else []) + Project(ops[1..], key)
  }

  ghost predicate AgreeAt(s: Store, r: Store, key: string) {
    (key in s <==> key in r) && (key in s ==> s[key] == r[key])
  }

  /** What one key is answered in a shared store is what it would be answered alone. */
  lemma {:induction false} KeysAreIsolated(s: Store, r: Store, ops: seq<Op>, key: string)
    requires AgreeAt(s, r, key)
    ensures AnswersFor(s, ops, key) == Answers(r, Project(ops, key))
    decreases |ops|
  {
    if ops != [] {
      var op := ops[0];
      if op.PruneAt? || op.key == key {
        KeysAreIsolated(Apply(s, op), Apply(r, op), ops[1..], key);
        var mine := Project(ops, key);
        assert mine[0] == op && mine[1..] == Project(ops[1..], key);
      } else {
        KeysAreIsolated(Apply(s, op), r, ops[1..], key);
        assert Project(ops, key) == Project(ops[1..], key);
      }
    }
  }

  lemma {:induction false} AloneIsOneBucket(s: Store, ops: seq<Op>, key: string, limit: Limit)
    requires forall op :: op in ops ==> op == Ask(key, limit, op.now)
    requires key in s && s[key].limit == limit
    ensures Answers(s, ops) == Verdicts(s[key], TimesOf(ops, key))
    decreases |ops|
  {
    if ops != [] {
      assert ops[0] in ops;
      AloneIsOneBucket(Apply(s, ops[0]), ops[1..], key, limit);
      var times := TimesOf(ops, key);
      assert times[0] == ops[0].now && times[1..] == TimesOf(ops[1..], key);
    }
  }

  /** Every ask for this key is made under this limit. */
  ghost predicate AskedUnder(ops: seq<Op>, key: string, limit: Limit) {
    forall op :: op in ops && op.Ask? && op.key == key ==> op.limit == limit
  }

  /** What concerns one key, without the prunes, is its asks, at their times. */
  lemma {:induction false} ProjectedAsks(ops: seq<Op>, key: string, limit: Limit)
    requires AskedUnder(ops, key, limit)
    ensures var mine := Unpruned(Project(ops, key));
            && mine == Project(Unpruned(ops), key)
            && (forall op :: op in mine ==> op == Ask(key, limit, op.now))
            && TimesOf(mine, key) == TimesOf(ops, key)
  {
    if ops != [] {
      assert ops[0] in ops;
      ProjectedAsks(ops[1..], key, limit);
      var rest := Unpruned(Project(ops[1..], key));
      var all, un := Project(ops, key), Unpruned(ops);
      if ops[0].PruneAt? {
        assert all[0] == ops[0] && all[1..] == Project(ops[1..], key);
        assert un == Unpruned(ops[1..]);
      } else {
        assert un[0] == ops[0] && un[1..] == Unpruned(ops[1..]);
        if ops[0].key == key {
          assert all[0] == ops[0] && all[1..] == Project(ops[1..], key);
          assert Unpruned(all) == [ops[0]] + rest && ([ops[0]] + rest)[1..] == rest;
        } else {
          assert all == Project(ops[1..], key) && [] + rest == rest;
        }
      }
    }
  }

  lemma AsksAreOneBucket(asks: seq<Op>, key: string, limit: Limit, times: seq<int>)
    requires forall op :: op in asks ==> op == Ask(key, limit, op.now)
    requires times == TimesOf(asks, key) && times != []
    ensures Answers(map[], asks) == Verdicts(NewBucket(limit, times[0]), times)
  {
    assert asks[0] in asks;
    AloneIsOneBucket(Apply(map[], asks[0]), asks[1..], key, limit);
    assert times[1..] == TimesOf(asks[1..], key);
  }

  /** In a store that never prunes, each key is served by one bucket of its own, full at its
      first call, whatever the other keys do in between and whatever the clock does. */
  lemma OwnBucket(ops: seq<Op>, key: string, limit: Limit)
    requires AskedUnder(ops, key, limit) && TimesOf(ops, key) != []
    ensures var times := TimesOf(ops, key);
            AnswersFor(map[], Unpruned(ops), key) == Verdicts(NewBucket(limit, times[0]), times)
  {
    ProjectedAsks(ops, key, limit);
    KeysAreIsolated(map[], map[], Unpruned(ops), key);
    AsksAreOneBucket(Project(Unpruned(ops), key), key, limit, TimesOf(ops, key));
  }

  lemma {:induction false} ProjectMembers(t: int, ops: seq<Op>, key: string)
    requires Monotone(t, ops)
    ensures Monotone(t, Project(ops, key))
    ensures forall op :: op in Project(ops, key) ==> op in ops && (op.Ask? ==> op.key == key)
    decreases |ops|
  {
    if ops != [] {
      ProjectMembers(ops[0].now, ops[1..], key);
      var mine := Project(ops, key);
      assert mine == Project(ops[1..], key) || (mine[0] == ops[0] && mine[1..] == Project(ops[1..], key));
      MonotoneEarlier(t, ops[0].now, Project(ops[1..], key));
    }
  }

  lemma MonotoneEarlier(t: int, u: int, ops: seq<Op>)
    requires t <= u && Monotone(u, ops)
    ensures Monotone(t, ops)
  {
  }

  /** The same with prunes at arbitrary points, if this key's limit refills within the idle
      time and the clock does not go back; the limits of other keys do not matter. */
  lemma OwnBucketDespitePruning(t: int, ops: seq<Op>, key: string, limit: Limit)
    requires AskedUnder(ops, key, limit) && Generous(limit) && Monotone(t, ops)
    requires TimesOf(ops, key) != []
    ensures var times := TimesOf(ops, key);
            AnswersFor(map[], ops, key) == Verdicts(NewBucket(limit, times[0]), times)
  {
    var mine := Project(ops, key);
    KeysAreIsolated(map[], map[], ops, key);
    ProjectMembers(t, ops, key);
    PruningIsInvisible(t, mine, _ => limit);
    ProjectedAsks(ops, key, limit);
    AsksAreOneBucket(Unpruned(mine), key, limit, TimesOf(ops, key));
  }
}
