/** Which limit a client is held to: a live bucket keeps the limit it was created with, so a
    route's new limit waits until the bucket has been pruned. */
module BucketTerms {
  import opened Wrappers
  import opened BucketSpec
  import opened BucketStoreSpec

  /** What the store remembers of a key: the limit it answers under and the last ask. */
  datatype Terms = Terms(limit: Limit, lastAsk: int)

  /** One operation's effect on that, told from the operations alone: an ask counts as the last
      one, and brings its own limit if nothing is remembered; a prune more than the idle time
      after the last ask forgets. */
  function Remember(terms: Option<Terms>, op: Op, key: string): Option<Terms> {
    match op
    case Ask(k, limit, now) =>
      if k != key then terms
      else Some(Terms(if terms.Some? then terms.value.limit else limit, now))
    case PruneAt(now) =>
      if terms.Some? && now - terms.value.lastAsk > IDLE_TTL_MS then None else terms
  }

  function InForce(terms: Option<Terms>, ops: seq<Op>, key: string): Option<Terms>
    decreases |ops|
  {
    if ops == [] then terms else InForce(Remember(terms, ops[0], key), ops[1..], key)
  }

  /** The store remembers exactly these terms. */
  predicate Keeps(s: Store, key: string, terms: Option<Terms>) {
    match terms
    case None => key !in s
    case Some(t) => key in s && s[key].limit == t.limit && s[key].lastUsedAt == t.lastAsk
  }

  lemma {:induction false} RunKeepsTerms(s: Store, ops: seq<Op>, key: string, terms: Option<Terms>)
    requires Keeps(s, key, terms)
    ensures Keeps(RunStore(s, ops), key, InForce(terms, ops, key))
    decreases |ops|
  {
    if ops != [] {
      RunKeepsTerms(Apply(s, ops[0]), ops[1..], key, Remember(terms, ops[0], key));
    }
  }

  lemma {:induction false} InForceSplits(terms: Option<Terms>, a: seq<Op>, b: seq<Op>, key: string)
    ensures InForce(terms, a + b, key) == InForce(InForce(terms, a, key), b, key)
    decreases |a|
  {
    if a == [] {
      assert a + b == b;
    } else {
      assert (a + b)[0] == a[0] && (a + b)[1..] == a[1..] + b;
      InForceSplits(Remember(terms, a[0], key), a[1..], b, key);
    }
  }

  /** While a key is not asked for, it is forgotten exactly if a prune comes late enough. */
  lemma {:induction false} ForgottenIff(terms: Terms, between: seq<Op>, key: string)
    requires forall op :: op in between && op.Ask? ==> op.key != key
    ensures InForce(Some(terms), between, key) ==
            if exists op :: op in between && op.PruneAt? && op.now - terms.lastAsk > IDLE_TTL_MS
            then None else Some(terms)
  {
    if between != [] {
      var head, rest := between[0], between[1..];
      assert head in between && between == [head] + rest;
      if Remember(Some(terms), head, key).None? {
        StaysForgotten(rest, key);
      } else {
        ForgottenIff(terms, rest, key);
      }
    }
  }

  lemma {:induction false} StaysForgotten(ops: seq<Op>, key: string)
    requires forall op :: op in ops && op.Ask? ==> op.key != key
    ensures InForce(None, ops, key) == None
  {
    if ops != [] {
      assert ops[0] in ops;
      StaysForgotten(ops[1..], key);
    }
  }

  /** The limit under which an ask with this limit would be answered now. */
  function AppliedLimit(s: Store, key: string, limit: Limit, now: int): Limit {
    GetBucket(s, key, limit, now).limit
  }

  /** Over any run, an ask is answered under its own limit exactly if nothing is remembered of
      its key, as for one never asked for, or if the limit in force is that very limit. */
  lemma LimitAppliesIff(ops: seq<Op>, key: string, wanted: Limit, now: int)
    ensures AppliedLimit(RunStore(map[], ops), key, wanted, now) == wanted
            <==> InForce(None, ops, key).None? || InForce(None, ops, key).value.limit == wanted
  {
    RunKeepsTerms(map[], ops, key, None);
  }

  /** A key never asked for is answered under the limit it is asked with. */
  lemma FirstLimitApplies(before: seq<Op>, key: string, limit: Limit, now: int)
    requires forall op :: op in before && op.Ask? ==> op.key != key
    ensures AppliedLimit(RunStore(map[], before), key, limit, now) == limit
  {
    StaysForgotten(before, key);
    LimitAppliesIff(before, key, limit, now);
  }

  /** A new limit is applied exactly from the first ask after a late enough prune on. Let a key
      be asked for, not asked for in `between`, and then asked for under `wanted`: the answer is
      given under `wanted` if and only if a prune in between came more than the idle time after
      the earlier ask, or `wanted` was in force at that ask already. */
  lemma NewLimitAppliesIff(before: seq<Op>, ask: Op, between: seq<Op>, wanted: Limit, now: int)
    requires ask.Ask? && forall op :: op in between && op.Ask? ==> op.key != ask.key
    ensures AppliedLimit(RunStore(map[], before + [ask] + between), ask.key, wanted, now) == wanted
            <==> (exists op :: op in between && op.PruneAt? && op.now - ask.now > IDLE_TTL_MS)
                 || Remember(InForce(None, before, ask.key), ask, ask.key).value.limit == wanted
  {
    var key, terms := ask.key, InForce(None, before, ask.key);
    InForceSplits(None, before, [ask] + between, key);
    assert before + [ask] + between == before + ([ask] + between);
    assert ([ask] + between)[1..] == between;
    ForgottenIff(Remember(terms, ask, key).value, between, key);
    LimitAppliesIff(before + [ask] + between, key, wanted, now);
  }

  /** A raised limit that is not in effect after 15 seconds: twenty seconds after a client used
      up its one token it is asked for under a larger limit, and still rejected. */
  lemma NewLimitIgnored(key: string)
    ensures var lower, raised := Limit(1, 0.01), Limit(100, 10.0);
            var answers := Answers(map[], [Ask(key, lower, 0), PruneAt(15000), Ask(key, raised, 20000)]);
            && |answers| == 2 && answers[0].allowed && !answers[1].allowed
            && Consume(NewBucket(raised, 20000), 20000).1.allowed
  {
    var lower, raised := Limit(1, 0.01), Limit(100, 10.0);
    var ops := [Ask(key, lower, 0), PruneAt(15000), Ask(key, raised, 20000)];
    var s := Apply(map[], ops[0]);
    assert s[key] == Bucket(lower, 0.0, 0, 0);
    assert Prune(s, 15000) == s;
    assert ops[1..][1..] == [ops[2]];
    assert Answers(s, [ops[2]]) == Answer(s, ops[2]);
    assert Gain(0.01, 20000) == 0.2;
  }
}
