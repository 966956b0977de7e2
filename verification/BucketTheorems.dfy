/** What one token bucket promises its caller. */
module BucketTheorems {
  import opened Collections
  import opened BucketSpec

  // ---------- Arithmetic of refilling and waiting ----------

  lemma GainAdds(rate: real, a: int, b: int)
    ensures Gain(rate, a) + Gain(rate, b) == Gain(rate, a + b)
  {
  }

  lemma GainMonotone(rate: real, a: int, b: int)
    requires rate >= 0.0 && a <= b
    ensures Gain(rate, a) <= Gain(rate, b)
  {
  }

  lemma GainPositive(rate: real, ms: int)
    requires rate > 0.0
    ensures Gain(rate, ms) > 0.0 <==> ms > 0
  {
  }

  lemma TimeToTokenShifts(tokens: real, rate: real, ms: int)
    requires rate > 0.0
    ensures TimeToToken(tokens + Gain(rate, ms), rate) == TimeToToken(tokens, rate) - ms as real
  {
  }

  lemma TimeToTokenReached(tokens: real, rate: real, ms: int)
    requires rate > 0.0
    ensures tokens + Gain(rate, ms) >= 1.0 <==> ms >= Ceil(TimeToToken(tokens, rate))
  {
    var need := TimeToToken(tokens, rate);
    assert ms as real >= need <==> ms >= Ceil(need);
    var x := need / 1000.0;
    assert x * rate == 1.0 - tokens;
    var y := ms as real / 1000.0;
    if y >= x {
      assert (y - x) * rate >= 0.0;
    } else {
      assert (x - y) * rate > 0.0;
    }
  }

  // ---------- Bounds ----------

  predicate InBounds(b: Bucket) {
    0.0 <= b.tokens <= b.limit.capacity as real
  }

  /** Whatever the clock and the rate, no call takes the bucket outside 0..capacity. */
  lemma ConsumeKeepsBounds(b: Bucket, now: int)
    requires InBounds(b)
    ensures InBounds(Consume(b, now).0) && Consume(b, now).0.limit == b.limit
    ensures Consume(b, now).1.allowed ==> Consume(b, now).0.tokens + 1.0 <= b.limit.capacity as real
  {
  }

  lemma {:induction false} RunKeepsBounds(b: Bucket, times: seq<int>)
    requires InBounds(b)
    ensures InBounds(Run(b, times)) && Run(b, times).limit == b.limit
    decreases |times|
  {
    if times != [] {
      ConsumeKeepsBounds(b, times[0]);
      RunKeepsBounds(Consume(b, times[0]).0, times[1..]);
    }
  }

  // ---------- Rate bound ----------

  lemma {:induction false} AdmittedSplits(a: seq<Verdict>, b: seq<Verdict>)
    ensures Admitted(a + b) == Admitted(a) + Admitted(b)
  {
    if a == [] {
      assert a + b == b;
    } else {
      assert (a + b)[0] == a[0] && (a + b)[1..] == a[1..] + b;
      AdmittedSplits(a[1..], b);
    }
  }

  /** Tokens spent come out of what was there and what time produced. */
  lemma {:induction false} TokensAccount(b: Bucket, times: seq<int>)
    requires b.limit.refillRate >= 0.0
    ensures var e := Run(b, times);
            && e.limit == b.limit && e.lastRefillTime >= b.lastRefillTime
            && Admitted(Verdicts(b, times)) as real
               <= b.tokens - e.tokens + Gain(b.limit.refillRate, e.lastRefillTime - b.lastRefillTime)
    decreases |times|
  {
    if times != [] {
      var m, e := Consume(b, times[0]).0, Run(b, times);
      TokensAccount(m, times[1..]);
      if times[0] < b.lastRefillTime {
        GainMonotone(b.limit.refillRate, times[0] - b.lastRefillTime, 0);
      }
      GainAdds(b.limit.refillRate, m.lastRefillTime - b.lastRefillTime, e.lastRefillTime - m.lastRefillTime);
    }
  }

  lemma {:induction false} RunSplits(b: Bucket, s: seq<int>, t: seq<int>)
    ensures Run(b, s + t) == Run(Run(b, s), t)
    ensures Verdicts(b, s + t) == Verdicts(b, s) + Verdicts(Run(b, s), t)
    decreases |s|
  {
    if s == [] {
      assert s + t == t;
    } else {
      assert (s + t)[1..] == s[1..] + t;
      RunSplits(Consume(b, s[0]).0, s[1..], t);
    }
  }

  lemma VerdictsOfWindow(b: Bucket, before: seq<int>, window: seq<int>, after: seq<int>)
    ensures Verdicts(b, before + window + after)[|before|..|before| + |window|] == Verdicts(Run(b, before), window)
  {
    RunSplits(b, before + window, after);
    RunSplits(b, before, window);
  }

  /** Calls i..j of a run are a run of their own, from the bucket call i found. */
  lemma WindowIsRun(b: Bucket, times: seq<int>, i: nat, j: nat)
    requires i <= j < |times|
    ensures Verdicts(b, times)[i..j + 1] == Verdicts(Run(b, times[..i]), times[i..j + 1])
  {
    assert times == times[..i] + times[i..j + 1] + times[j + 1..];
    VerdictsOfWindow(b, times[..i], times[i..j + 1], times[j + 1..]);
  }

  /** A stretch of calls, on any clock, admits at most the burst size plus what the time between
      its first and its last refill produced. */
  lemma StretchBound(b: Bucket, window: seq<int>, first: int, last: int)
    requires InBounds(b) && b.limit.refillRate >= 0.0 && window != []
    requires first == Consume(b, window[0]).0.lastRefillTime && last == Run(b, window).lastRefillTime
    ensures first <= last
    ensures Admitted(Verdicts(b, window)) as real
            <= b.limit.capacity as real + Gain(b.limit.refillRate, last - first)
  {
    FirstCall(b, window);
    StretchAccount(Consume(b, window[0]).0, window[1..], first, last);
  }

  lemma StretchAccount(m: Bucket, rest: seq<int>, first: int, last: int)
    requires InBounds(m) && m.limit.refillRate >= 0.0
    requires first == m.lastRefillTime && last == Run(m, rest).lastRefillTime
    ensures first <= last
    ensures Admitted(Verdicts(m, rest)) as real <= m.tokens + Gain(m.limit.refillRate, last - first)
  {
    TokensAccount(m, rest);
    RunKeepsBounds(m, rest);
  }

  /** What the first call takes and what it leaves fit into the capacity. */
  lemma FirstCall(b: Bucket, window: seq<int>)
    requires InBounds(b) && window != []
    ensures var m := Consume(b, window[0]).0;
            && InBounds(m) && m.limit == b.limit && Run(b, window) == Run(m, window[1..])
            && Admitted(Verdicts(b, window)) as real + m.tokens
               <= b.limit.capacity as real + Admitted(Verdicts(m, window[1..])) as real
  {
    var m, v := Consume(b, window[0]).0, Consume(b, window[0]).1;
    ConsumeKeepsBounds(b, window[0]);
    assert ([v] + Verdicts(m, window[1..]))[1..] == Verdicts(m, window[1..]);
  }

  /** The same for the calls i..j of any run, in which call i leaves the refill time at `first`
      and call j leaves it at `last`. */
  lemma WindowBound(b: Bucket, times: seq<int>, i: nat, j: nat, first: int, last: int)
    requires InBounds(b) && b.limit.refillRate >= 0.0
    requires i <= j < |times|
    requires first == Consume(Run(b, times[..i]), times[i]).0.lastRefillTime
    requires last == Run(Run(b, times[..i]), times[i..j + 1]).lastRefillTime
    ensures first <= last
    ensures Admitted(Verdicts(b, times)[i..j + 1]) as real
            <= b.limit.capacity as real + Gain(b.limit.refillRate, last - first)
  {
    WindowIsRun(b, times, i, j);
    RunKeepsBounds(b, times[..i]);
    StretchBound(Run(b, times[..i]), times[i..j + 1], first, last);
  }

  /** On a clock that does not go back, `lastRefillTime` is the time of the last call. */
  lemma {:induction false} RefillTimeIsClock(b: Bucket, times: seq<int>)
    requires b.limit.refillRate > 0.0 && MonotoneFrom(b.lastRefillTime, times)
    ensures Run(b, times).lastRefillTime == (if times == [] then b.lastRefillTime else times[|times| - 1])
    decreases |times|
  {
    if times != [] {
      GainPositive(b.limit.refillRate, times[0] - b.lastRefillTime);
      RefillTimeIsClock(Consume(b, times[0]).0, times[1..]);
    }
  }

  lemma RefillTimes(b: Bucket, window: seq<int>)
    requires b.limit.refillRate > 0.0 && window != [] && MonotoneFrom(b.lastRefillTime, window)
    ensures Consume(b, window[0]).0.lastRefillTime == window[0]
    ensures Run(b, window).lastRefillTime == window[|window| - 1]
  {
    GainPositive(b.limit.refillRate, window[0] - b.lastRefillTime);
    RefillTimeIsClock(b, window);
  }

  lemma StretchBoundByClock(b: Bucket, window: seq<int>)
    requires InBounds(b) && b.limit.refillRate > 0.0 && window != []
    requires MonotoneFrom(b.lastRefillTime, window)
    ensures Admitted(Verdicts(b, window)) as real
            <= b.limit.capacity as real + Gain(b.limit.refillRate, window[|window| - 1] - window[0])
  {
    var first, last := window[0], window[|window| - 1];
    assert first == Consume(b, first).0.lastRefillTime by { RefillTimes(b, window); }
    assert last == Run(b, window).lastRefillTime by { RefillTimes(b, window); }
    StretchBound(b, window, first, last);
  }

  lemma ClockOfWindow(b: Bucket, times: seq<int>, i: nat, j: nat)
    requires b.limit.refillRate > 0.0 && MonotoneFrom(b.lastRefillTime, times) && i <= j < |times|
    ensures MonotoneFrom(Run(b, times[..i]).lastRefillTime, times[i..j + 1])
  {
    MonotoneSplits(b.lastRefillTime, times, i, j);
    RefillTimeIsClock(b, times[..i]);
  }

  lemma {:induction false} MonotoneSplits(t: int, times: seq<int>, i: nat, j: nat)
    requires MonotoneFrom(t, times) && i <= j < |times|
    ensures MonotoneFrom(t, times[..i])
    ensures MonotoneFrom(if i == 0 then t else times[i - 1], times[i..j + 1])
    decreases |times|
  {
    if i > 0 {
      MonotoneSplits(times[0], times[1..], i - 1, j - 1);
      assert times[..i][1..] == times[1..][..i - 1];
      SliceOfTail(times, i, j + 1);
    } else if j > 0 {
      MonotoneSplits(times[0], times[1..], 0, j - 1);
      assert times[..j + 1][1..] == times[1..][..j];
    }
  }

  /** The promise in wall-clock terms: any stretch of calls from time s to time t admits at
      most capacity + rate * (t - s). */
  lemma WindowBoundByClock(b: Bucket, times: seq<int>, i: nat, j: nat)
    requires InBounds(b) && b.limit.refillRate > 0.0 && MonotoneFrom(b.lastRefillTime, times)
    requires i <= j < |times|
    ensures Admitted(Verdicts(b, times)[i..j + 1]) as real
            <= b.limit.capacity as real + Gain(b.limit.refillRate, times[j] - times[i])
  {
    var window := times[i..j + 1];
    assert window[0] == times[i] && window[|window| - 1] == times[j];
    WindowIsRun(b, times, i, j);
    RunKeepsBounds(b, times[..i]);
    ClockOfWindow(b, times, i, j);
    StretchBoundByClock(Run(b, times[..i]), window);
  }

  // ---------- A burst is admitted exactly ----------

  /** Calling again at the same instant refills nothing. */
  lemma NoSecondRefill(b: Bucket, t: int)
    ensures Refill(Consume(b, t).0, t) == Consume(b, t).0
  {
  }

  /** Of n calls at one instant exactly as many are admitted as the bucket holds whole tokens
      then; a new bucket admits exactly its capacity. */
  lemma {:induction false} BurstIsExact(b: Bucket, t: int, n: nat)
    requires InBounds(b)
    ensures var whole := Refill(b, t).tokens.Floor;
            Admitted(Verdicts(b, seq(n, _ => t))) == if n <= whole then n else whole
    decreases n
  {
    if n > 0 {
      var times := seq(n, _ => t);
      assert times[1..] == seq(n - 1, _ => t);
      ConsumeKeepsBounds(b, t);
      NoSecondRefill(b, t);
      BurstIsExact(Consume(b, t).0, t, n - 1);
    }
  }

  /** The number reported as remaining is how many more calls at that instant are admitted. */
  lemma RemainingIsExact(b: Bucket, t: int, n: nat)
    requires InBounds(b)
    ensures var v := Consume(b, t).1;
            v.remaining >= 0
            && Admitted(Verdicts(Consume(b, t).0, seq(n, _ => t))) == if n <= v.remaining then n else v.remaining
  {
    ConsumeKeepsBounds(b, t);
    NoSecondRefill(b, t);
    BurstIsExact(Consume(b, t).0, t, n);
  }

  // ---------- Greedy admission is optimal ----------

  /** The same bucket under another policy, which spends a token exactly where `choices` says. */
  function Spend(b: Bucket, now: int, choice: bool): Bucket {
    var r := Refill(b, now);
    if choice then r.(tokens := r.tokens - 1.0) else r
  }

  /** The policy never spends a token it does not have. */
  ghost predicate Honest(b: Bucket, times: seq<int>, choices: seq<bool>)
    requires |choices| == |times|
    decreases |times|
  {
    times == []
    || ((choices[0] ==> Refill(b, times[0]).tokens >= 1.0)
        && Honest(Spend(b, times[0], choices[0]), times[1..], choices[1..]))
  }

  function Chosen(choices: seq<bool>): nat {
    if choices == [] then 0 else (if choices[0] then 1 else 0) + Chosen(choices[1..])
  }

  /** `q`, under the policy, is ahead of `g`, under `consume`, by at most the number `lead`
      of requests that `consume` has admitted more. */
  lemma {:induction false} GreedyKeepsLead(
      g: Bucket, q: Bucket, lead: nat, times: seq<int>, choices: seq<bool>, k: nat)
    requires |choices| == |times| && k <= |times| && Honest(q, times, choices)
    requires g.limit == q.limit && g.lastRefillTime == q.lastRefillTime
    requires q.tokens <= g.tokens + lead as real
    ensures Chosen(choices[..k]) <= Admitted(Verdicts(g, times)[..k]) + lead
    decreases k
  {
    if k > 0 {
      var g', v := Consume(g, times[0]).0, Consume(g, times[0]).1;
      var q' := Spend(q, times[0], choices[0]);
      var lead' := lead + (if v.allowed then 1 else 0) - (if choices[0] then 1 else 0);
      GreedyKeepsLead(g', q', lead', times[1..], choices[1..], k - 1);
      assert choices[..k][1..] == choices[1..][..k - 1];
      assert Verdicts(g, times)[..k][1..] == Verdicts(g', times[1..])[..k - 1];
    }
  }

  /** Admitting whenever a token is there admits, in every prefix of the run, at least as
      many requests as any honest policy on the same clock. */
  lemma GreedyIsOptimal(b: Bucket, times: seq<int>, choices: seq<bool>, k: nat)
    requires |choices| == |times| && k <= |times| && Honest(b, times, choices)
    ensures Chosen(choices[..k]) <= Admitted(Verdicts(b, times)[..k])
  {
    GreedyKeepsLead(b, b, 0, times, choices, k);
  }

  // ---------- Retry-After is exact ----------

  /** The bucket was last refilled at `t` and its next token is due at `deadline`. */
  predicate Waiting(b: Bucket, t: int, deadline: int) {
    && b.limit.refillRate > 0.0 && b.limit.capacity >= 1
    && b.tokens < 1.0 && b.lastRefillTime == t
    && deadline == t + Ceil(TimeToToken(b.tokens, b.limit.refillRate))
  }

  lemma RejectionWaits(b: Bucket, t: int)
    requires b.limit.refillRate > 0.0 && b.limit.capacity >= 1 && b.lastRefillTime <= t
    requires !Consume(b, t).1.allowed
    ensures Consume(b, t).1.resetAfter.Ms?
    ensures Waiting(Consume(b, t).0, t, t + Consume(b, t).1.resetAfter.ms)
  {
  }

  lemma PollWhileWaiting(b: Bucket, t: int, deadline: int, u: int)
    requires Waiting(b, t, deadline) && t <= u
    ensures Consume(b, u).1.allowed <==> u >= deadline
    ensures u < deadline ==> Waiting(Consume(b, u).0, u, deadline)
    ensures u < deadline ==> Consume(b, u).1.resetAfter == Ms(deadline - u)
  {
    var rate := b.limit.refillRate;
    GainPositive(rate, u - t);
    TimeToTokenReached(b.tokens, rate, u - t);
    TimeToTokenReached(b.tokens, rate, 0);
    TimeToTokenShifts(b.tokens, rate, u - t);
  }

  lemma {:induction false} PollsWhileWaiting(b: Bucket, t: int, deadline: int, polls: seq<int>, u: int)
    requires Waiting(b, t, deadline) && MonotoneFrom(t, polls + [u])
    requires forall i :: 0 <= i < |polls| ==> polls[i] < deadline
    ensures forall i :: 0 <= i < |polls| ==>
              Verdicts(b, polls)[i] == Verdict(false, 0, Ms(deadline - polls[i]))
    ensures Consume(Run(b, polls), u).1.allowed <==> u >= deadline
    decreases |polls|
  {
    var all := polls + [u];
    if polls == [] {
      assert all[0] == u;
      PollWhileWaiting(b, t, deadline, u);
    } else {
      assert all[0] == polls[0];
      PollWhileWaiting(b, t, deadline, polls[0]);
      assert polls[1..] + [u] == all[1..];
      PollsWhileWaiting(Consume(b, polls[0]).0, polls[0], deadline, polls[1..], u);
    }
  }

  /** After a rejection at time t with wait d, on a clock that does not go back: every call
      before t + d is rejected and told the same deadline, and the next call is admitted if
      and only if it comes at t + d or later, however many polls lie between. */
  lemma RetryIsExact(b: Bucket, t: int, polls: seq<int>, u: int)
    requires b.limit.refillRate > 0.0 && b.limit.capacity >= 1 && b.lastRefillTime <= t
    requires !Consume(b, t).1.allowed
    requires MonotoneFrom(t, polls + [u])
    requires var d := Consume(b, t).1.resetAfter;
             d.Ms? && forall i :: 0 <= i < |polls| ==> polls[i] < t + d.ms
    ensures var deadline := t + Consume(b, t).1.resetAfter.ms; var b' := Consume(b, t).0;
            && (forall i :: 0 <= i < |polls| ==>
                  Verdicts(b', polls)[i] == Verdict(false, 0, Ms(deadline - polls[i])))
            && (Consume(Run(b', polls), u).1.allowed <==> u >= deadline)
  {
    RejectionWaits(b, t);
    PollsWhileWaiting(Consume(b, t).0, t, t + Consume(b, t).1.resetAfter.ms, polls, u);
  }

  /** The `Retry-After` header of a rejection: whole seconds, rounded up. */
  function RetryAfterSeconds(ms: int): int {
    Ceil(ms as real / 1000.0)
  }

  /** A client that stays away for the advertised seconds is admitted on its next call. */
  lemma RetryAfterHeaderSuffices(b: Bucket, t: int, u: int)
    requires b.limit.refillRate > 0.0 && b.limit.capacity >= 1 && b.lastRefillTime <= t
    requires !Consume(b, t).1.allowed
    requires var d := Consume(b, t).1.resetAfter; d.Ms? && u >= t + 1000 * RetryAfterSeconds(d.ms)
    ensures Consume(Consume(b, t).0, u).1.allowed
  {
    RejectionWaits(b, t);
    var b' := Consume(b, t).0;
    var d := Consume(b, t).1.resetAfter.ms;
    TimeToTokenReached(b'.tokens, b'.limit.refillRate, 0);
    assert d > 0;
    PollWhileWaiting(b', t, t + d, u);
  }
}
