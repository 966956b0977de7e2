/** Exactly which calls a token bucket admits, told from the times and the limit alone. */
module BucketExact {
  import opened Collections
  import opened BucketSpec
  import BT = BucketTheorems

  /** What the rate gives between two clock readings. */
  function Given(limit: Limit, from: int, to: int): real {
    limit.refillRate * (to - from) as real / 1000.0
  }

  lemma GivenAdds(limit: Limit, t: int, u: int, v: int)
    ensures Given(limit, t, u) + Given(limit, u, v) == Given(limit, t, v)
  {
  }

  /** Capacity plus what the rate gives between calls i and k. */
  function Allowance(limit: Limit, times: seq<int>, i: nat, k: nat): real
    requires i <= k < |times|
  {
    limit.capacity as real + Given(limit, times[i], times[k])
  }

  /** Admitting call k too would keep the calls i..k within their allowance. */
  ghost predicate Fits(limit: Limit, times: seq<int>, answers: seq<Verdict>, i: nat, k: nat)
    requires i <= k < |times| == |answers|
  {
    Admitted(answers[i..k]) as real + 1.0 <= Allowance(limit, times, i, k)
  }

  // ---------- What a call finds ----------

  /** The tokens that call k finds once it has refilled. */
  function Found(b: Bucket, times: seq<int>, k: nat): real
    requires k < |times|
  {
    Refill(Run(b, times[..k]), times[k]).tokens
  }

  lemma CallIsConsume(b: Bucket, times: seq<int>, k: nat)
    requires k < |times|
    ensures Verdicts(b, times)[k] == Consume(Run(b, times[..k]), times[k]).1
    ensures Run(b, times[..k + 1]) == Consume(Run(b, times[..k]), times[k]).0
  {
    BT.WindowIsRun(b, times, k, k);
    assert times[k..k + 1] == [times[k]];
    assert times[..k + 1] == times[..k] + [times[k]];
    BT.RunSplits(b, times[..k], [times[k]]);
    assert [times[k]][1..] == [];
    assert Verdicts(b, times)[k..k + 1][0] == Verdicts(b, times)[k];
  }

  /** The bucket's last refill was at its last call, unless its rate is 0. */
  lemma {:induction false} ClockOfRun(b: Bucket, times: seq<int>, k: nat)
    requires BT.InBounds(b) && b.limit.refillRate >= 0.0
    requires MonotoneFrom(b.lastRefillTime, times) && k < |times|
    ensures var r := Run(b, times[..k]);
            && BT.InBounds(r) && r.limit == b.limit && r.lastRefillTime <= times[k]
            && (k > 0 && b.limit.refillRate > 0.0 ==> r.lastRefillTime == times[k - 1])
  {
    BT.RunKeepsBounds(b, times[..k]);
    BT.MonotoneSplits(b.lastRefillTime, times, k, k);
    if b.limit.refillRate > 0.0 {
      BT.RefillTimeIsClock(b, times[..k]);
    } else {
      NeverRefilled(b, times[..k]);
      BT.MonotoneSplits(b.lastRefillTime, times, 0, k);
      MonotoneReaches(b.lastRefillTime, times, k);
    }
  }

  lemma {:induction false} NeverRefilled(b: Bucket, times: seq<int>)
    requires b.limit.refillRate == 0.0
    ensures Run(b, times).lastRefillTime == b.lastRefillTime
    decreases |times|
  {
    if times != [] {
      NeverRefilled(Consume(b, times[0]).0, times[1..]);
    }
  }

  lemma {:induction false} MonotoneReaches(t: int, times: seq<int>, k: nat)
    requires MonotoneFrom(t, times) && k < |times|
    ensures t <= times[k]
    decreases k
  {
    if k > 0 {
      MonotoneReaches(times[0], times[1..], k - 1);
    }
  }

  lemma RefillAdds(b: Bucket, now: int)
    requires BT.InBounds(b) && b.limit.refillRate >= 0.0 && b.lastRefillTime <= now
    ensures Refill(b, now).tokens
            == Min(b.limit.capacity as real, b.tokens + Given(b.limit, b.lastRefillTime, now))
    ensures Given(b.limit, b.lastRefillTime, now) >= 0.0
  {
    BT.GainMonotone(b.limit.refillRate, 0, now - b.lastRefillTime);
    assert Given(b.limit, b.lastRefillTime, now) == Gain(b.limit.refillRate, now - b.lastRefillTime);
  }

  lemma FirstFinds(limit: Limit, t: int, times: seq<int>)
    requires limit.capacity >= 0 && limit.refillRate >= 0.0 && times != [] && MonotoneFrom(t, times)
    ensures Found(NewBucket(limit, t), times, 0) == limit.capacity as real
  {
    RefillAdds(NewBucket(limit, t), times[0]);
  }

  /** A call and the refill before the next: one token less if it was admitted, plus what the
      time between them gives, up to the capacity. */
  lemma ConsumeThenRefill(b: Bucket, t: int, u: int)
    requires BT.InBounds(b) && b.limit.refillRate >= 0.0 && b.lastRefillTime <= t <= u
    ensures Refill(Consume(b, t).0, u).tokens ==
            Min(b.limit.capacity as real,
                Refill(b, t).tokens - (if Consume(b, t).1.allowed then 1.0 else 0.0) + Given(b.limit, t, u))
  {
    var m := Consume(b, t).0;
    BT.ConsumeKeepsBounds(b, t);
    if b.limit.refillRate > 0.0 {
      BT.GainPositive(b.limit.refillRate, t - b.lastRefillTime);
      assert m.lastRefillTime == t;
    } else {
      assert Given(b.limit, t, u) == Given(b.limit, m.lastRefillTime, u) == 0.0;
    }
    RefillAdds(m, u);
  }

  lemma NextFinds(b: Bucket, times: seq<int>, k: nat)
    requires BT.InBounds(b) && b.limit.refillRate >= 0.0
    requires MonotoneFrom(b.lastRefillTime, times) && k + 1 < |times|
    ensures Found(b, times, k + 1) ==
            Min(b.limit.capacity as real,
                Found(b, times, k) - (if Verdicts(b, times)[k].allowed then 1.0 else 0.0)
                + Given(b.limit, times[k], times[k + 1]))
  {
    var r := Run(b, times[..k]);
    assert BT.InBounds(r) && r.limit == b.limit && r.lastRefillTime <= times[k] by { ClockOfRun(b, times, k); }
    assert times[k] <= times[k + 1] by { BT.MonotoneSplits(b.lastRefillTime, times, k, k + 1); }
    assert Run(b, times[..k + 1]) == Consume(r, times[k]).0 by { CallIsConsume(b, times, k); }
    assert Verdicts(b, times)[k] == Consume(r, times[k]).1 by { CallIsConsume(b, times, k); }
    ConsumeThenRefill(r, times[k], times[k + 1]);
  }

  // ---------- Allowances ----------

  lemma AdmittedNext(answers: seq<Verdict>, i: nat, k: nat)
    requires i <= k < |answers|
    ensures Admitted(answers[i..k + 1]) == Admitted(answers[i..k]) + (if answers[k].allowed then 1 else 0)
  {
    assert answers[i..k + 1] == answers[i..k] + [answers[k]];
    BT.AdmittedSplits(answers[i..k], [answers[k]]);
    assert [answers[k]][1..] == [];
  }

  lemma AllowanceNext(limit: Limit, times: seq<int>, i: nat, k: nat)
    requires i <= k && k + 1 < |times|
    ensures Allowance(limit, times, i, k + 1) == Allowance(limit, times, i, k) + Given(limit, times[k], times[k + 1])
  {
    GivenAdds(limit, times[i], times[k], times[k + 1]);
  }

  /** What call k finds is within the allowance of every stretch that ends there. */
  lemma {:induction false} FoundIsWithin(limit: Limit, t: int, times: seq<int>, answers: seq<Verdict>, i: nat, k: nat)
    requires limit.capacity >= 0 && limit.refillRate >= 0.0 && MonotoneFrom(t, times)
    requires answers == Verdicts(NewBucket(limit, t), times) && i <= k < |times|
    ensures Found(NewBucket(limit, t), times, k) + Admitted(answers[i..k]) as real <= Allowance(limit, times, i, k)
    decreases k
  {
    var b := NewBucket(limit, t);
    if k == 0 {
      FirstFinds(limit, t, times);
    } else {
      NextFinds(b, times, k - 1);
      if i < k {
        FoundIsWithin(limit, t, times, answers, i, k - 1);
        AdmittedNext(answers, i, k - 1);
        AllowanceNext(limit, times, i, k - 1);
      }
    }
  }

  /** And it is all that some stretch leaves of its allowance. */
  lemma {:induction false} FoundIsReached(limit: Limit, t: int, times: seq<int>, answers: seq<Verdict>, k: nat)
    returns (i: nat)
    requires limit.capacity >= 0 && limit.refillRate >= 0.0 && MonotoneFrom(t, times)
    requires answers == Verdicts(NewBucket(limit, t), times) && k < |times|
    ensures i <= k
    ensures Found(NewBucket(limit, t), times, k) + Admitted(answers[i..k]) as real == Allowance(limit, times, i, k)
    decreases k
  {
    var b := NewBucket(limit, t);
    i := k;
    if k == 0 {
      FirstFinds(limit, t, times);
    } else {
      NextFinds(b, times, k - 1);
      if Found(b, times, k) != limit.capacity as real {
        i := FoundIsReached(limit, t, times, answers, k - 1);
        AdmittedNext(answers, i, k - 1);
        AllowanceNext(limit, times, i, k - 1);
      }
    }
  }

  /** Call k of a new bucket is admitted if and only if, together with the calls admitted before
      it, it fits into capacity + rate * elapsed seconds in every stretch that ends with it. */
  lemma AdmittedIff(limit: Limit, t: int, times: seq<int>, answers: seq<Verdict>, k: nat)
    requires limit.capacity >= 0 && limit.refillRate >= 0.0 && MonotoneFrom(t, times)
    requires answers == Verdicts(NewBucket(limit, t), times) && k < |times|
    ensures answers[k].allowed <==> forall i: nat :: i <= k ==> Fits(limit, times, answers, i, k)
  {
    var b := NewBucket(limit, t);
    CallIsConsume(b, times, k);
    if answers[k].allowed {
      forall i: nat | i <= k ensures Fits(limit, times, answers, i, k) {
        FoundIsWithin(limit, t, times, answers, i, k);
      }
    } else {
      var i := FoundIsReached(limit, t, times, answers, k);
      assert !Fits(limit, times, answers, i, k);
    }
  }

  // ---------- No conforming policy admits more ----------

  /** In every stretch of calls no more are chosen than its allowance. */
  ghost predicate Conforms(limit: Limit, times: seq<int>, choices: seq<bool>)
    requires |choices| == |times|
  {
    forall i, j :: 0 <= i <= j < |times| ==>
      BT.Chosen(choices[i..j + 1]) as real <= Allowance(limit, times, i, j)
  }

  lemma {:induction false} ChosenSplits(a: seq<bool>, b: seq<bool>)
    ensures BT.Chosen(a + b) == BT.Chosen(a) + BT.Chosen(b)
  {
    if a == [] {
      assert a + b == b;
    } else {
      assert (a + b)[0] == a[0] && (a + b)[1..] == a[1..] + b;
      ChosenSplits(a[1..], b);
    }
  }

  /** A stretch that leaves no room for a call admits as many as any conforming choice. */
  lemma FullStretch(limit: Limit, times: seq<int>, answers: seq<Verdict>, choices: seq<bool>, i: nat, m: nat)
    requires |choices| == |times| == |answers| && i <= m < |times| && Conforms(limit, times, choices)
    requires !answers[m].allowed && !Fits(limit, times, answers, i, m)
    ensures BT.Chosen(choices[i..m + 1]) <= Admitted(answers[i..m + 1])
  {
    AdmittedNext(answers, i, m);
  }

  /** Each call ends some stretch in which the bucket admits as many as are chosen. */
  lemma GoodStretch(limit: Limit, t: int, times: seq<int>, answers: seq<Verdict>, choices: seq<bool>, m: nat)
    returns (i: nat)
    requires limit.capacity >= 0 && limit.refillRate >= 0.0 && MonotoneFrom(t, times)
    requires answers == Verdicts(NewBucket(limit, t), times)
    requires |choices| == |times| && m < |times| && Conforms(limit, times, choices)
    ensures i <= m && BT.Chosen(choices[i..m + 1]) <= Admitted(answers[i..m + 1])
  {
    if answers[m].allowed {
      i := m;
      AdmittedNext(answers, m, m);
      assert choices[m..m + 1] == [choices[m]] && [choices[m]][1..] == [];
    } else {
      AdmittedIff(limit, t, times, answers, m);
      var n :| 0 <= n <= m && !Fits(limit, times, answers, n, m);
      i := n;
      FullStretch(limit, times, answers, choices, i, m);
    }
  }

  lemma PartsAddUp(choices: seq<bool>, answers: seq<Verdict>, i: nat, k: nat)
    requires i <= k <= |choices| == |answers|
    requires BT.Chosen(choices[..i]) <= Admitted(answers[..i])
    requires BT.Chosen(choices[i..k]) <= Admitted(answers[i..k])
    ensures BT.Chosen(choices[..k]) <= Admitted(answers[..k])
  {
    assert choices[..k] == choices[..i] + choices[i..k] && answers[..k] == answers[..i] + answers[i..k];
    ChosenSplits(choices[..i], choices[i..k]);
    BT.AdmittedSplits(answers[..i], answers[i..k]);
  }

  /** However its calls are chosen from, a client that keeps to capacity + rate * elapsed in every
      stretch is admitted no more often, in any prefix, than the bucket admits. */
  lemma {:induction false} ConformingIsAdmitted(
      limit: Limit, t: int, times: seq<int>, answers: seq<Verdict>, choices: seq<bool>, k: nat)
    requires limit.capacity >= 0 && limit.refillRate >= 0.0 && MonotoneFrom(t, times)
    requires answers == Verdicts(NewBucket(limit, t), times)
    requires |choices| == |times| && k <= |times| && Conforms(limit, times, choices)
    ensures BT.Chosen(choices[..k]) <= Admitted(answers[..k])
    decreases k
  {
    if k > 0 {
      var i := GoodStretch(limit, t, times, answers, choices, k - 1);
      ConformingIsAdmitted(limit, t, times, answers, choices, i);
      PartsAddUp(choices, answers, i, k);
    }
  }

  // ---------- Where the rate or the clock stands still ----------

  /** A clock reading that is not past the last refill adds no tokens and moves no refill time. */
  lemma OldReadingAddsNothing(b: Bucket, now: int)
    requires b.limit.refillRate >= 0.0 && now <= b.lastRefillTime
    ensures Consume(b, now).1.allowed <==> b.tokens >= 1.0
    ensures Consume(b, now).0
            == b.(lastUsedAt := now, tokens := if b.tokens >= 1.0 then b.tokens - 1.0 else b.tokens)
  {
    BT.GainMonotone(b.limit.refillRate, now - b.lastRefillTime, 0);
  }

  /** A rejection says "forever" exactly at rate 0, and then no later call is admitted. */
  lemma {:induction false} ForeverIsExact(b: Bucket, t: int, times: seq<int>)
    requires !Consume(b, t).1.allowed
    ensures Consume(b, t).1.resetAfter == Forever <==> b.limit.refillRate == 0.0
    ensures b.limit.refillRate == 0.0 ==> Admitted(Verdicts(Consume(b, t).0, times)) == 0
    decreases |times|
  {
    if b.limit.refillRate == 0.0 && times != [] {
      ForeverIsExact(Consume(b, t).0, times[0], times[1..]);
    }
  }

  /** The `Retry-After` header is the least number of whole seconds that suffices: waiting any
      smaller number of seconds leads to another rejection. */
  lemma RetryAfterHeaderIsLeast(b: Bucket, t: int, seconds: nat)
    requires b.limit.refillRate > 0.0 && b.limit.capacity >= 1 && b.lastRefillTime <= t
    requires !Consume(b, t).1.allowed
    ensures Consume(b, t).1.resetAfter.Ms?
    ensures Consume(Consume(b, t).0, t + 1000 * seconds).1.allowed
            <==> seconds >= BT.RetryAfterSeconds(Consume(b, t).1.resetAfter.ms)
  {
    BT.RejectionWaits(b, t);
    var d := Consume(b, t).1.resetAfter.ms;
    BT.PollWhileWaiting(Consume(b, t).0, t, t + d, t + 1000 * seconds);
  }
}
