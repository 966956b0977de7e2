/** Per-client rate limiting in the shared store, with prunes and other clients at any points and
    for every limit: how much one key is admitted at most. */
module BucketStoreBound {
  import opened Collections
  import opened BucketSpec
  import opened BucketStoreSpec
  import BT = BucketTheorems
  import ST = BucketStoreTheorems

  // ---------- The rate bound ----------

  ghost predicate NeverPruned(ops: seq<Op>) {
    forall op :: op in ops ==> op.Ask?
  }

  /** A pruned bucket comes back full, so with prunes a key is admitted as if its bucket filled
      up from empty in the idle time, if that is faster than its own rate. */
  function PacedRate(limit: Limit, pruned: bool): (r: real)
    ensures r >= 0.0 && r >= limit.refillRate
    ensures pruned ==> Gain(r, IDLE_TTL_MS + 1) >= limit.capacity as real
  {
    var own := if limit.refillRate >= 0.0 then limit.refillRate else 0.0;
    var idle := limit.capacity as real / 300.001;
    assert Gain(idle, IDLE_TTL_MS + 1) == limit.capacity as real;
    if pruned && idle > own then idle else own
  }

  /** A limit that allows no more than another. */
  predicate Within(limit: Limit, most: Limit) {
    0 <= limit.capacity <= most.capacity && limit.refillRate <= most.refillRate
  }

  /** Every ask for this key is made under a limit that allows no more than `most`. */
  ghost predicate AskedWithin(ops: seq<Op>, key: string, most: Limit) {
    forall op :: op in ops && op.Ask? && op.key == key ==> Within(op.limit, most)
  }

  /** A live bucket of the key, last used at `last`. */
  predicate Live(b: Bucket, most: Limit, last: int) {
    && Within(b.limit, most) && BT.InBounds(b)
    && b.lastRefillTime <= b.lastUsedAt == last
    && (b.limit.refillRate > 0.0 ==> b.lastRefillTime == last)
  }

  /** The key's bucket is live, or was pruned after its last use. */
  predicate Tracked(s: Store, key: string, most: Limit, last: int, now: int) {
    last <= now && if key in s then Live(s[key], most, last) else now - last > IDLE_TTL_MS
  }

  predicate Pace(most: Limit, rate: real, pruned: bool) {
    && rate >= 0.0 && rate >= most.refillRate
    && (pruned ==> Gain(rate, IDLE_TTL_MS + 1) >= most.capacity as real)
  }

  function Credit(s: Store, key: string): real {
    if key in s then s[key].tokens else 0.0
  }

  lemma FasterGainsMore(slow: real, fast: real, ms: int)
    requires slow <= fast && ms >= 0
    ensures Gain(slow, ms) <= Gain(fast, ms)
  {
  }

  /** What an ask takes and leaves comes out of the credit and the pace. */
  lemma AskSpendsCredit(s: Store, ask: Op, most: Limit, rate: real, pruned: bool, last: int, now: int)
    requires ask.Ask? && Within(ask.limit, most) && Pace(most, rate, pruned)
    requires Tracked(s, ask.key, most, last, now) && now <= ask.now
    requires ask.key !in s ==> pruned
    ensures var (s', v) := ConsumeToken(s, ask.key, ask.limit, ask.now);
            && Live(s'[ask.key], most, ask.now)
            && (if v.allowed then 1.0 else 0.0) + s'[ask.key].tokens
               <= Credit(s, ask.key) + Gain(rate, ask.now - last)
  {
    var b := GetBucket(s, ask.key, ask.limit, ask.now);
    RefillIsTimely(b, ask.now);
    BT.ConsumeKeepsBounds(b, ask.now);
    BT.GainMonotone(rate, 0, ask.now - last);
    if ask.key in s {
      FasterGainsMore(b.limit.refillRate, rate, ask.now - last);
    } else {
      BT.GainMonotone(rate, IDLE_TTL_MS + 1, ask.now - last);
    }
  }

  /** A bucket with a positive rate is refilled as soon as time has passed, any other never. */
  lemma RefillIsTimely(b: Bucket, now: int)
    requires b.lastRefillTime <= now
    ensures b.limit.refillRate > 0.0 ==> Refill(b, now).lastRefillTime == now
    ensures b.limit.refillRate <= 0.0 ==> Refill(b, now) == b
  {
    if b.limit.refillRate > 0.0 {
      BT.GainPositive(b.limit.refillRate, now - b.lastRefillTime);
    } else {
      NoRefill(b.limit.refillRate, now - b.lastRefillTime);
    }
  }

  lemma NoRefill(rate: real, ms: int)
    requires rate <= 0.0 && ms >= 0
    ensures Gain(rate, ms) <= 0.0
  {
  }

  /** An operation that is not an ask for the key keeps its bucket or prunes it when idle. */
  lemma OtherKeepsTracked(s: Store, op: Op, key: string, most: Limit, last: int, now: int)
    requires Tracked(s, key, most, last, now) && now <= op.now
    requires op.Ask? ==> op.key != key
    ensures Tracked(Apply(s, op), key, most, last, op.now)
    ensures Credit(Apply(s, op), key) <= Credit(s, key)
    ensures op.Ask? ==> (key in Apply(s, op) <==> key in s)
  {
  }

  lemma HeadAnswer(s: Store, ops: seq<Op>, key: string)
    requires ops != []
    ensures var rest, times := AnswersFor(Apply(s, ops[0]), ops[1..], key), TimesOf(ops[1..], key);
            if ops[0].Ask? && ops[0].key == key then
              AnswersFor(s, ops, key) == [ConsumeToken(s, key, ops[0].limit, ops[0].now).1] + rest
              && TimesOf(ops, key) == [ops[0].now] + times
            else AnswersFor(s, ops, key) == rest && TimesOf(ops, key) == times
  {
  }

  lemma {:induction false} AnswerPerAsk(s: Store, ops: seq<Op>, key: string)
    ensures |AnswersFor(s, ops, key)| == |TimesOf(ops, key)|
    decreases |ops|
  {
    if ops != [] {
      AnswerPerAsk(Apply(s, ops[0]), ops[1..], key);
    }
  }

  /** What was admitted in the first k calls after `last`. */
  ghost predicate Covered(credit: real, rate: real, last: int, times: seq<int>, answers: seq<Verdict>, k: nat)
    requires k <= |times| == |answers|
  {
    Admitted(answers[..k]) as real <= credit + Gain(rate, (if k == 0 then last else times[k - 1]) - last)
  }

  lemma CoveredAfterAsk(credit: real, left: real, rate: real, last: int, t: int, v: Verdict,
                        times: seq<int>, answers: seq<Verdict>, k: nat)
    requires k <= |times| == |answers| && Covered(left, rate, t, times, answers, k)
    requires (if v.allowed then 1.0 else 0.0) + left <= credit + Gain(rate, t - last)
    ensures Covered(credit, rate, last, [t] + times, [v] + answers, k + 1)
  {
    assert ([v] + answers)[..k + 1] == [v] + answers[..k];
    assert ([v] + answers[..k])[1..] == answers[..k];
    BT.GainAdds(rate, t - last, (if k == 0 then t else times[k - 1]) - t);
  }

  /** What a run of operations from time `now` on must keep to. */
  ghost predicate Setting(ops: seq<Op>, key: string, most: Limit, rate: real, pruned: bool, now: int) {
    && Pace(most, rate, pruned)
    && AskedWithin(ops, key, most) && Monotone(now, ops)
    && (pruned || NeverPruned(ops))
  }

  lemma SettingOfTail(ops: seq<Op>, key: string, most: Limit, rate: real, pruned: bool, now: int)
    requires Setting(ops, key, most, rate, pruned, now) && ops != []
    ensures Setting(ops[1..], key, most, rate, pruned, ops[0].now) && now <= ops[0].now
    ensures ops[0].Ask? && ops[0].key == key ==> Within(ops[0].limit, most)
    ensures pruned || ops[0].Ask?
  {
    assert ops[0] in ops;
  }

  /** From a bucket last used at `last` on: the first k calls are admitted out of its credit
      and the pace since then. */
  lemma {:induction false} CallsAreCovered(
      s: Store, ops: seq<Op>, key: string, most: Limit, rate: real, pruned: bool, last: int, now: int,
      times: seq<int>, answers: seq<Verdict>, k: nat)
    requires Tracked(s, key, most, last, now) && Setting(ops, key, most, rate, pruned, now)
    requires key !in s ==> pruned
    requires times == TimesOf(ops, key) && answers == AnswersFor(s, ops, key) && k <= |times| == |answers|
    ensures Covered(Credit(s, key), rate, last, times, answers, k)
    decreases |ops|
  {
    if ops != [] && k > 0 {
      var op, s' := ops[0], Apply(s, ops[0]);
      var times', answers' := TimesOf(ops[1..], key), AnswersFor(s', ops[1..], key);
      SettingOfTail(ops, key, most, rate, pruned, now);
      HeadAnswer(s, ops, key);
      if op.Ask? && op.key == key {
        AskSpendsCredit(s, op, most, rate, pruned, last, now);
        CallsAreCovered(s', ops[1..], key, most, rate, pruned, op.now, op.now, times', answers', k - 1);
        CoveredAfterAsk(Credit(s, key), Credit(s', key), rate, last, op.now, answers[0], times', answers', k - 1);
      } else {
        OtherKeepsTracked(s, op, key, most, last, now);
        CallsAreCovered(s', ops[1..], key, most, rate, pruned, last, op.now, times', answers', k);
      }
    }
  }

  /** No bucket yet, or a live one. */
  predicate Usable(s: Store, key: string, most: Limit, now: int) {
    key in s ==> Live(s[key], most, s[key].lastUsedAt) && s[key].lastUsedAt <= now
  }

  lemma FirstAsk(s: Store, ask: Op, most: Limit, now: int)
    requires ask.Ask? && Within(ask.limit, most)
    requires Usable(s, ask.key, most, now) && now <= ask.now
    ensures var (s', v) := ConsumeToken(s, ask.key, ask.limit, ask.now);
            && Live(s'[ask.key], most, ask.now)
            && (if v.allowed then 1.0 else 0.0) + s'[ask.key].tokens <= most.capacity as real
  {
    var b := GetBucket(s, ask.key, ask.limit, ask.now);
    RefillIsTimely(b, ask.now);
    BT.ConsumeKeepsBounds(b, ask.now);
  }

  /** Calls i..j are admitted at most the capacity and what the pace gives in their time. */
  ghost predicate Bounded(most: Limit, rate: real, times: seq<int>, answers: seq<Verdict>, i: nat, j: nat)
    requires i <= j < |times| == |answers|
  {
    Admitted(answers[i..j + 1]) as real <= most.capacity as real + Gain(rate, times[j] - times[i])
  }

  /** The calls that start with the head of the run. */
  lemma BoundedFromHead(s: Store, ops: seq<Op>, key: string, most: Limit, rate: real, pruned: bool, now: int,
                        times: seq<int>, answers: seq<Verdict>, j: nat)
    requires Usable(s, key, most, now) && Setting(ops, key, most, rate, pruned, now)
    requires ops != [] && ops[0].Ask? && ops[0].key == key
    requires times == TimesOf(ops, key) && answers == AnswersFor(s, ops, key) && j < |times| == |answers|
    ensures Bounded(most, rate, times, answers, 0, j)
  {
    var op, s' := ops[0], Apply(s, ops[0]);
    var times', answers' := TimesOf(ops[1..], key), AnswersFor(s', ops[1..], key);
    SettingOfTail(ops, key, most, rate, pruned, now);
    FirstAsk(s, op, most, now);
    assert times == [op.now] + times' && answers == [answers[0]] + answers' by {
      HeadAnswer(s, ops, key);
    }
    assert Covered(Credit(s', key), rate, op.now, times', answers', j) by {
      CallsAreCovered(s', ops[1..], key, most, rate, pruned, op.now, op.now, times', answers', j);
    }
    CoveredAfterAsk(most.capacity as real, Credit(s', key), rate, op.now, op.now, answers[0], times', answers', j);
    CoveredIsBounded(most, rate, times, answers, j);
  }

  lemma CoveredIsBounded(most: Limit, rate: real, times: seq<int>, answers: seq<Verdict>, j: nat)
    requires j < |times| == |answers|
    requires Covered(most.capacity as real, rate, times[0], times, answers, j + 1)
    ensures Bounded(most, rate, times, answers, 0, j)
  {
    assert answers[0..j + 1] == answers[..j + 1];
  }

  lemma OtherKeepsUsable(s: Store, op: Op, key: string, most: Limit, now: int)
    requires Usable(s, key, most, now) && now <= op.now
    requires op.Ask? && op.key == key ==> Within(op.limit, most)
    ensures Usable(Apply(s, op), key, most, op.now)
  {
    if op.Ask? && op.key == key {
      FirstAsk(s, op, most, now);
    }
  }

  // ---------- Cutting a run ----------

  lemma {:induction false} TimesSplit(a: seq<Op>, b: seq<Op>, key: string)
    ensures TimesOf(a + b, key) == TimesOf(a, key) + TimesOf(b, key)
  {
    if a == [] {
      assert a + b == b;
    } else {
      assert (a + b)[0] == a[0] && (a + b)[1..] == a[1..] + b;
      TimesSplit(a[1..], b, key);
    }
  }

  lemma {:induction false} AnswersForSplit(s: Store, a: seq<Op>, b: seq<Op>, key: string)
    ensures AnswersFor(s, a + b, key) == AnswersFor(s, a, key) + AnswersFor(RunStore(s, a), b, key)
    decreases |a|
  {
    if a == [] {
      assert a + b == b;
    } else {
      assert (a + b)[0] == a[0] && (a + b)[1..] == a[1..] + b;
      var s' := Apply(s, a[0]);
      AnswersForSplit(s', a[1..], b, key);
      Regroup(AnswerTo(s, a[0], key), AnswersFor(s', a[1..], key), AnswersFor(RunStore(s', a[1..]), b, key));
    }
  }

  /** Where ask number i for the key stands in a run. */
  lemma {:induction false} AskNumber(ops: seq<Op>, key: string, i: nat) returns (n: nat)
    requires i < |TimesOf(ops, key)|
    ensures n < |ops| && ops[n].Ask? && ops[n].key == key && |TimesOf(ops[..n], key)| == i
  {
    var d := if ops[0].Ask? && ops[0].key == key then 1 else 0;
    n := 0;
    if i >= d {
      var m := AskNumber(ops[1..], key, i - d);
      n := m + 1;
      assert ops[..n][0] == ops[0] && ops[..n][1..] == ops[1..][..m];
    }
  }

  lemma {:induction false} RunKeepsUsable(s: Store, a: seq<Op>, b: seq<Op>, key: string, most: Limit, rate: real,
                                          pruned: bool, now: int)
    returns (later: int)
    requires Usable(s, key, most, now) && Setting(a + b, key, most, rate, pruned, now)
    ensures Usable(RunStore(s, a), key, most, later) && Setting(b, key, most, rate, pruned, later)
    decreases |a|
  {
    if a == [] {
      assert a + b == b;
      later := now;
    } else {
      assert (a + b)[0] == a[0] && (a + b)[1..] == a[1..] + b;
      SettingOfTail(a + b, key, most, rate, pruned, now);
      OtherKeepsUsable(s, a[0], key, most, now);
      later := RunKeepsUsable(Apply(s, a[0]), a[1..], b, key, most, rate, pruned, a[0].now);
    }
  }

  lemma CallsAreBounded(s: Store, ops: seq<Op>, key: string, most: Limit, rate: real, pruned: bool, now: int,
                        times: seq<int>, answers: seq<Verdict>, i: nat, j: nat)
    requires Usable(s, key, most, now) && Setting(ops, key, most, rate, pruned, now)
    requires times == TimesOf(ops, key) && answers == AnswersFor(s, ops, key) && i <= j < |times| == |answers|
    ensures Bounded(most, rate, times, answers, i, j)
  {
    var n := AskNumber(ops, key, i);
    var a, b := ops[..n], ops[n..];
    assert ops == a + b;
    TimesSplit(a, b, key);
    AnswersForSplit(s, a, b, key);
    AnswerPerAsk(s, a, key);
    var later := RunKeepsUsable(s, a, b, key, most, rate, pruned, now);
    assert times[i..] == TimesOf(b, key) && answers[i..] == AnswersFor(RunStore(s, a), b, key);
    BoundedFromHead(RunStore(s, a), b, key, most, rate, pruned, later, times[i..], answers[i..], j - i);
    BoundedShifts(most, rate, times, answers, i, j);
  }

  lemma BoundedShifts(most: Limit, rate: real, times: seq<int>, answers: seq<Verdict>, i: nat, j: nat)
    requires i <= j < |times| == |answers| && Bounded(most, rate, times[i..], answers[i..], 0, j - i)
    ensures Bounded(most, rate, times, answers, i, j)
  {
    assert answers[i..][0..j - i + 1] == answers[i..j + 1];
  }

  /** Per-client rate limiting in the shared store, whatever the other keys are asked, wherever
      `_prune` runs, and even if the key's own limit changes, as long as it stays within `most`:
      of the calls for one key, made at `times` on a clock that does not go back and answered
      with `answers`, the calls i..j are admitted at most capacity + pace * (elapsed time between
      them) times. The pace is the rate, or with prunes capacity / 300.001 if that is more. */
  lemma SharedStoreWindowBound(t: int, ops: seq<Op>, key: string, most: Limit,
                               times: seq<int>, answers: seq<Verdict>, i: nat, j: nat)
    requires AskedWithin(ops, key, most) && Monotone(t, ops)
    requires times == TimesOf(ops, key) && answers == AnswersFor(map[], ops, key)
    requires i <= j < |times|
    ensures |answers| == |times|
    ensures Admitted(answers[i..j + 1]) as real
            <= most.capacity as real + Gain(PacedRate(most, !NeverPruned(ops)), times[j] - times[i])
  {
    var pruned := !NeverPruned(ops);
    AnswerPerAsk(map[], ops, key);
    CallsAreBounded(map[], ops, key, most, PacedRate(most, pruned), pruned, t, times, answers, i, j);
  }

  /** The same for all the calls of a run. */
  lemma SharedStoreTotalBound(t: int, ops: seq<Op>, key: string, most: Limit, times: seq<int>)
    requires AskedWithin(ops, key, most) && Monotone(t, ops)
    requires times == TimesOf(ops, key)
    ensures times == [] ==> Admitted(AnswersFor(map[], ops, key)) == 0
    ensures times != [] ==>
              Admitted(AnswersFor(map[], ops, key)) as real
              <= most.capacity as real + Gain(PacedRate(most, !NeverPruned(ops)), times[|times| - 1] - times[0])
  {
    var answers := AnswersFor(map[], ops, key);
    AnswerPerAsk(map[], ops, key);
    if times != [] {
      SharedStoreWindowBound(t, ops, key, most, times, answers, 0, |times| - 1);
      assert answers[0..|times|] == answers;
    }
  }

  // ---------- When the own rate is kept ----------

  /** Calls i..j for the key are admitted at most capacity + rate * (elapsed time between them)
      times, at the limit's own rate. */
  ghost predicate OwnRateKept(ops: seq<Op>, key: string, limit: Limit, i: nat, j: nat) {
    var times, answers := TimesOf(ops, key), AnswersFor(map[], ops, key);
    i <= j < |times| ==> |answers| == |times| && Bounded(limit, limit.refillRate, times, answers, i, j)
  }

  /** That, for every run on a clock that does not go back in which the key is asked for under
      this limit, and every stretch of its calls. */
  ghost predicate AlwaysOwnRate(limit: Limit) {
    forall t, ops, key, i: nat, j: nat :: Monotone(t, ops) && ST.AskedUnder(ops, key, limit) ==>
      OwnRateKept(ops, key, limit, i, j)
  }

  /** A full bucket admits a burst of its size. */
  lemma {:induction false} BurstIsAdmitted(s: Store, key: string, limit: Limit, now: int, n: nat)
    requires GetBucket(s, key, limit, now) == Bucket(limit, n as real, now, now)
    ensures Admitted(AnswersFor(s, ST.Burst(key, limit, now, n), key)) == n
    ensures TimesOf(ST.Burst(key, limit, now, n), key) == seq(n, _ => now)
    decreases n
  {
    if n > 0 {
      var s', burst := Apply(s, Ask(key, limit, now)), ST.Burst(key, limit, now, n);
      assert burst[0] == Ask(key, limit, now) && burst[1..] == ST.Burst(key, limit, now, n - 1);
      assert Gain(limit.refillRate, 0) == 0.0;
      BurstIsAdmitted(s', key, limit, now, n - 1);
      HeadAnswer(s, burst, key);
    }
  }

  /** A burst, one idle period, a prune and another burst: twice the capacity is admitted. */
  lemma TwoBursts(limit: Limit, key: string) returns (ops: seq<Op>)
    requires limit.capacity >= 1
    ensures Monotone(0, ops) && ST.AskedUnder(ops, key, limit)
    ensures TimesOf(ops, key) == seq(limit.capacity, _ => 0) + seq(limit.capacity, _ => IDLE_TTL_MS + 1)
    ensures Admitted(AnswersFor(map[], ops, key)) == 2 * limit.capacity
  {
    var t, n := IDLE_TTL_MS + 1, limit.capacity;
    var first, prune, second := ST.Burst(key, limit, 0, n), [PruneAt(t)], ST.Burst(key, limit, t, n);
    ops := first + (prune + second);
    TwoBurstsInOrder(limit, key, first, prune, second);
    var s := RunStore(map[], first);
    ST.BurstDrains(map[], key, limit, 0, n);
    BurstIsAdmitted(map[], key, limit, 0, n);
    assert RunStore(s, prune) == Prune(s, t) && AnswersFor(s, prune, key) == [] by {
      assert prune[1..] == [];
    }
    BurstIsAdmitted(Prune(s, t), key, limit, t, n);
    AnswersForSplit(map[], first, prune + second, key);
    AnswersForSplit(s, prune, second, key);
    assert [] + AnswersFor(Prune(s, t), second, key) == AnswersFor(Prune(s, t), second, key);
    BT.AdmittedSplits(AnswersFor(map[], first, key), AnswersFor(s, prune + second, key));
    TimesSplit(first, prune + second, key);
    TimesSplit(prune, second, key);
  }

  lemma TwoBurstsInOrder(limit: Limit, key: string, first: seq<Op>, prune: seq<Op>, second: seq<Op>)
    requires limit.capacity >= 1 && prune == [PruneAt(IDLE_TTL_MS + 1)]
    requires first == ST.Burst(key, limit, 0, limit.capacity)
    requires second == ST.Burst(key, limit, IDLE_TTL_MS + 1, limit.capacity)
    ensures Monotone(0, first + (prune + second)) && ST.AskedUnder(first + (prune + second), key, limit)
  {
    var t := IDLE_TTL_MS + 1;
    ST.BurstThen(key, limit, t, limit.capacity, []);
    assert second + [] == second;
    assert (prune + second)[0] == PruneAt(t) && (prune + second)[1..] == second;
    ST.BurstThen(key, limit, 0, limit.capacity, prune + second);
  }

  lemma OwnRateNeedsRefill(limit: Limit)
    requires limit.capacity >= 1 && AlwaysOwnRate(limit)
    ensures limit.refillRate * 300.001 >= limit.capacity as real
  {
    var n := limit.capacity;
    var ops := TwoBursts(limit, "");
    var times, answers := TimesOf(ops, ""), AnswersFor(map[], ops, "");
    assert OwnRateKept(ops, "", limit, 0, 2 * n - 1);
    assert answers[0..2 * n] == answers && times[2 * n - 1] - times[0] == IDLE_TTL_MS + 1;
    assert Gain(limit.refillRate, IDLE_TTL_MS + 1) == limit.refillRate * 300.001;
  }

  /** With pruning, a client is held to its own limit, capacity + rate * elapsed in every stretch
      of every run, exactly if the limit refills completely within the idle time: otherwise a
      burst, an idle period, a prune and another burst break it. */
  lemma OwnRateKeptIff(limit: Limit)
    requires limit.capacity >= 0 && limit.refillRate >= 0.0
    ensures AlwaysOwnRate(limit) <==> limit.refillRate * 300.001 >= limit.capacity as real
  {
    if AlwaysOwnRate(limit) && limit.capacity >= 1 {
      OwnRateNeedsRefill(limit);
    }
    if limit.refillRate * 300.001 >= limit.capacity as real {
      forall t, ops, key, i: nat, j: nat | Monotone(t, ops) && ST.AskedUnder(ops, key, limit)
        ensures OwnRateKept(ops, key, limit, i, j)
      {
        var times, answers := TimesOf(ops, key), AnswersFor(map[], ops, key);
        if i <= j < |times| {
          SharedStoreWindowBound(t, ops, key, limit, times, answers, i, j);
        }
      }
    }
  }
}
