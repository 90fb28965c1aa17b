/** SimpleLimiter of pkg/protection: a token bucket refilled by whole intervals. */
module TokenBucket {

  datatype Bucket = Bucket(tokens: int, maxTokens: int, refillRate: int, lastRefill: int)

  function Create(burst: int, refillRate: int, now: int): Bucket {
    Bucket(burst, burst, refillRate, now)
  }

  /** The bucket after the refill half of Allow.  Elapsed times are not negative, so Go's
      truncating division and Dafny's agree. */
  function Refill(b: Bucket, now: int): Bucket
    requires b.refillRate >= 1 && b.lastRefill <= now
  {
    var add := (now - b.lastRefill) / b.refillRate;
    if add > 0
    then b.(tokens := if b.tokens + add > b.maxTokens then b.maxTokens else b.tokens + add, lastRefill := now)
    else b
  }

  function AllowStep(b: Bucket, now: int): (Bucket, bool)
    requires b.refillRate >= 1 && b.lastRefill <= now
  {
    var r := Refill(b, now);
    if r.tokens > 0 then (r.(tokens := r.tokens - 1), true) else (r, false)
  }

  class SimpleLimiter {
    var lastRefill: int
    var tokens: int
    const maxTokens: int
    const refillRate: int

    ghost function State(): Bucket
      reads this
    {
      Bucket(tokens, maxTokens, refillRate, lastRefill)
    }

    constructor (refillRate: int, burst: int, now: int)
      ensures State() == Create(burst, refillRate, now)
    {
      this.tokens, this.maxTokens := burst, burst;
      this.refillRate, this.lastRefill := refillRate, now;
    }

    method Allow(now: int) returns (ok: bool)
      requires refillRate >= 1 && lastRefill <= now
      modifies this`lastRefill, this`tokens
      ensures (State(), ok) == AllowStep(old(State()), now)
    {
      var elapsed := now - lastRefill;
      var tokensToAdd := elapsed / refillRate;
      if tokensToAdd > 0 {
        tokens := tokens + tokensToAdd;
        if tokens > maxTokens {
          tokens := maxTokens;
        }
        lastRefill := now;
      }
      if tokens > 0 {
        tokens := tokens - 1;
        return true;
      }
      return false;
    }
  }

  // ----- runs of calls at non-decreasing times

  predicate Times(from: int, ts: seq<int>, to: int)
    decreases |ts|
  {
    if ts == [] then from <= to else from <= ts[0] && Times(ts[0], ts[1..], to)
  }

  function Allowed(b: Bucket, ts: seq<int>, to: int): nat
    requires b.refillRate >= 1 && Times(b.lastRefill, ts, to)
    decreases |ts|
  {
    if ts == [] then 0 else
      var (b', ok) := AllowStep(b, ts[0]);
      LaterTimes(b'.lastRefill, ts, to);
      (if ok then 1 else 0) + Allowed(b', ts[1..], to)
  }

  lemma LaterTimes(from: int, ts: seq<int>, to: int)
    requires ts != [] && from <= ts[0] && Times(ts[0], ts[1..], to)
    ensures Times(from, ts[1..], to)
  {
  }

  lemma TimesBounded(from: int, ts: seq<int>, to: int)
    requires Times(from, ts, to)
    ensures from <= to
    ensures ts != [] ==> ts[0] <= to
    decreases |ts|
  {
    if ts != [] {
      TimesBounded(ts[0], ts[1..], to);
    }
  }

  function Positive(n: int): nat {
    if n > 0 then n else 0
  }

  /** Whole intervals in two adjacent stretches fit in the joined stretch. */
  lemma FloorsAdd(a: int, b: int, r: int)
    requires a >= 0 && b >= 0 && r >= 1
    ensures a / r + b / r <= (a + b) / r
  {
    var q := a / r + b / r;
    assert r * q <= a + b;
    DivLower(a + b, q, r);
  }

  lemma DivLower(n: int, q: int, r: int)
    requires r >= 1 && r * q <= n
    ensures q <= n / r
  {
    if n / r < q {
      MulMono(n / r + 1, q, r);
    }
  }

  lemma MulMono(a: int, b: int, r: int)
    requires a <= b && r >= 0
    ensures r * a <= r * b
  {
  }

  lemma DivMono(a: int, b: int, r: int)
    requires a <= b && r >= 1
    ensures a / r <= b / r
  {
    assert r * (a / r) <= a;
    DivLower(b, a / r, r);
  }

  /** What is left in the bucket plus one token per whole interval bounds every future. */
  lemma {:induction false} FutureBound(b: Bucket, ts: seq<int>, to: int)
    requires b.refillRate >= 1 && Times(b.lastRefill, ts, to)
    ensures b.lastRefill <= to
    ensures Allowed(b, ts, to) <= Positive(b.tokens) + (to - b.lastRefill) / b.refillRate
    decreases |ts|
  {
    TimesBounded(b.lastRefill, ts, to);
    var r := b.refillRate;
    if ts == [] {
      DivLower(to - b.lastRefill, 0, r);
    } else {
      var now := ts[0];
      var (b', ok) := AllowStep(b, now);
      LaterTimes(b'.lastRefill, ts, to);
      FutureBound(b', ts[1..], to);
      FloorsAdd(now - b.lastRefill, to - now, r);
      DivLower(to - now, 0, r);
      DivLower(to - b.lastRefill, 0, r);
      assert (now - b.lastRefill) + (to - now) == to - b.lastRefill;
    }
  }

  /** Since creation at most burst + floor((t - t0)/r) calls are allowed. */
  lemma AllowedSinceCreation(burst: int, r: int, t0: int, ts: seq<int>, t: int)
    requires r >= 1 && Times(t0, ts, t)
    ensures t0 <= t && Allowed(Create(burst, r, t0), ts, t) <= Positive(burst) + (t - t0) / r
  {
    FutureBound(Create(burst, r, t0), ts, t);
  }

  // ----- any window of a run

  function After(b: Bucket, ts: seq<int>, to: int): Bucket
    requires b.refillRate >= 1 && Times(b.lastRefill, ts, to)
    decreases |ts|
  {
    if ts == [] then b else
      var b' := AllowStep(b, ts[0]).0;
      LaterTimes(b'.lastRefill, ts, to);
      After(b', ts[1..], to)
  }

  lemma {:induction false} AfterKeeps(b: Bucket, ts: seq<int>, to: int)
    requires b.refillRate >= 1 && Times(b.lastRefill, ts, to) && b.tokens <= b.maxTokens
    ensures var b' := After(b, ts, to);
            b'.tokens <= b'.maxTokens == b.maxTokens && b'.refillRate == b.refillRate && b'.lastRefill <= to
    decreases |ts|
  {
    TimesBounded(b.lastRefill, ts, to);
    if ts != [] {
      var b' := AllowStep(b, ts[0]).0;
      LaterTimes(b'.lastRefill, ts, to);
      AfterKeeps(b', ts[1..], to);
    }
  }

  lemma WindowFrom(b: Bucket, s: int, ts: seq<int>, t: int)
    requires b.refillRate >= 1 && b.tokens <= b.maxTokens && b.lastRefill <= s && Times(s, ts, t)
    ensures Times(b.lastRefill, ts, t)
    ensures s <= t && Allowed(b, ts, t) <= Positive(b.maxTokens) + 1 + (t - s) / b.refillRate
  {
    var r := b.refillRate;
    TimesBounded(s, ts, t);
    FutureBound(b, ts, t);
    DivLower(t - s, 0, r);
    if ts != [] {
      if (ts[0] - b.lastRefill) / r > 0 {
        WindowWithRefill(b, s, ts, t);
      } else {
        LastRefillIsRecent(b, ts[0]);
        DivMono(t - b.lastRefill, (t - s) + r, r);
        DivNext(t - s, r);
      }
    }
  }

  lemma DivNext(n: int, r: int)
    requires n >= 0 && r >= 1
    ensures (n + r) / r <= n / r + 1
  {
    var q := (n + r) / r;
    assert r * (q - 1) == r * q - r;
    DivLower(n, q - 1, r);
  }

  /** The first call of the window does not refill: the last refill is less than one interval old. */
  lemma LastRefillIsRecent(b: Bucket, now: int)
    requires b.refillRate >= 1 && b.lastRefill <= now && (now - b.lastRefill) / b.refillRate <= 0
    ensures now - b.lastRefill < b.refillRate
  {
    if b.refillRate <= now - b.lastRefill {
      DivLower(now - b.lastRefill, 1, b.refillRate);
    }
  }

  /** The first call of the window refills: at most a full bucket, counted from inside the window. */
  lemma WindowWithRefill(b: Bucket, s: int, ts: seq<int>, t: int)
    requires b.refillRate >= 1 && b.tokens <= b.maxTokens && b.lastRefill <= s && Times(s, ts, t)
    requires ts != [] && (ts[0] - b.lastRefill) / b.refillRate > 0
    ensures Times(b.lastRefill, ts, t) && s <= t
    ensures Allowed(b, ts, t) <= Positive(b.maxTokens) + (t - s) / b.refillRate
  {
    TimesBounded(s, ts, t);
    var (b', ok) := AllowStep(b, ts[0]);
    LaterTimes(b'.lastRefill, ts, t);
    FutureBound(b', ts[1..], t);
    DivMono(t - ts[0], t - s, b.refillRate);
  }

  /** In any window [s, t] of any run at most burst + 1 + floor((t - s)/r) calls are allowed. */
  lemma AllowedInWindow(burst: int, r: int, t0: int, before: seq<int>, s: int, ts: seq<int>, t: int)
    requires r >= 1 && Times(t0, before, s) && Times(s, ts, t)
    ensures var b := After(Create(burst, r, t0), before, s);
            && b.refillRate == r && Times(b.lastRefill, ts, t) && s <= t
            && Allowed(b, ts, t) <= Positive(burst) + 1 + (t - s) / r
  {
    AfterKeeps(Create(burst, r, t0), before, s);
    WindowFrom(After(Create(burst, r, t0), before, s), s, ts, t);
  }

  function Calls(n: nat, s: int, t: int): seq<int> {
    if n == 0 then [t] else [s] + Calls(n - 1, s, t)
  }

  lemma {:induction false} CallsAreTimes(from: int, n: nat, s: int, t: int)
    requires from <= s <= t
    ensures Times(from, Calls(n, s, t), t)
    decreases n
  {
    if n > 0 {
      CallsAreTimes(s, n - 1, s, t);
    }
  }

  /** n tokens spent at s, before the next refill is due, and one more call at t when it is. */
  lemma {:induction false} SpendThenRefill(b: Bucket, s: int, t: int)
    requires b.refillRate >= 1 && 0 <= b.tokens <= b.maxTokens && b.maxTokens >= 1
    requires b.lastRefill <= s < b.lastRefill + b.refillRate <= t
    ensures Times(b.lastRefill, Calls(b.tokens, s, t), t)
    ensures Allowed(b, Calls(b.tokens, s, t), t) == b.tokens + 1
    decreases b.tokens
  {
    CallsAreTimes(b.lastRefill, b.tokens, s, t);
    var ts := Calls(b.tokens, s, t);
    if b.tokens == 0 {
      DivLower(t - b.lastRefill, 1, b.refillRate);
      assert ts[1..] == [];
    } else {
      NoWholeInterval(s - b.lastRefill, b.refillRate);
      assert ts[1..] == Calls(b.tokens - 1, s, t);
      SpendThenRefill(b.(tokens := b.tokens - 1), s, t);
    }
  }

  lemma NoWholeInterval(n: int, r: int)
    requires 0 <= n < r
    ensures n / r == 0
  {
    if n / r >= 1 {
      MulMono(1, n / r, r);
    }
  }

  /** The extra call is real, for every burst and every interval of at least two: the burst
      spent just before the first refill is due and one call when it is fall into a window
      shorter than an interval, and all of them are allowed. */
  lemma WindowBoundIsReached(burst: int, r: int, t0: int)
    requires burst >= 1 && r >= 2
    ensures var s, t := t0 + r - 1, t0 + r;
            && Times(t0, [], s) && Times(s, Calls(burst, s, t), t)
            && var b := After(Create(burst, r, t0), [], s);
               Times(b.lastRefill, Calls(burst, s, t), t) && Allowed(b, Calls(burst, s, t), t) == burst + 1 + (t - s) / r
  {
    var s, t := t0 + r - 1, t0 + r;
    CallsAreTimes(s, burst, s, t);
    SpendThenRefill(Create(burst, r, t0), s, t);
    NoWholeInterval(1, r);
  }

  // ----- what is allowed for certain

  function Repeat(n: nat, now: int): seq<int> {
    if n == 0 then [] else [now] + Repeat(n - 1, now)
  }

  function Least(a: int, b: int): int {
    if a <= b then a else b
  }

  /** Between refills a burst spends the tokens there are. */
  lemma {:induction false} BurstSpends(b: Bucket, n: nat, now: int)
    requires b.refillRate >= 1 && b.lastRefill <= now && 0 <= b.tokens && (now - b.lastRefill) / b.refillRate == 0
    ensures Times(b.lastRefill, Repeat(n, now), now)
    ensures Allowed(b, Repeat(n, now), now) == Least(n, b.tokens)
    decreases n
  {
    TimesOfBurst(b.lastRefill, n, now);
    if n > 0 {
      assert Repeat(n, now)[1..] == Repeat(n - 1, now);
      BurstSpends(if b.tokens > 0 then b.(tokens := b.tokens - 1) else b, n - 1, now);
    }
  }

  /** A burst: of n calls at one moment exactly as many are allowed as there are tokens, the
      ones left plus one for every whole interval since the last refill, up to the maximum. */
  lemma BurstExactly(b: Bucket, n: nat, now: int)
    requires b.refillRate >= 1 && b.lastRefill <= now && 0 <= b.tokens <= b.maxTokens
    ensures Times(b.lastRefill, Repeat(n, now), now)
    ensures Allowed(b, Repeat(n, now), now) == Least(n, Least(b.maxTokens, b.tokens + (now - b.lastRefill) / b.refillRate))
  {
    TimesOfBurst(b.lastRefill, n, now);
    var r := Refilled(b, now);
    BurstSpends(r, n, now);
    if n > 0 {
      assert Repeat(n, now)[0] == now;
    }
  }

  /** The bucket with everything that is due put in. */
  lemma Refilled(b: Bucket, now: int) returns (r: Bucket)
    requires b.refillRate >= 1 && b.lastRefill <= now && 0 <= b.tokens <= b.maxTokens
    ensures r.refillRate == b.refillRate && r.lastRefill <= now && (now - r.lastRefill) / r.refillRate == 0
    ensures r.tokens == Least(b.maxTokens, b.tokens + (now - b.lastRefill) / b.refillRate) && r.tokens >= 0
    ensures AllowStep(r, now) == AllowStep(b, now)
  {
    r := Refill(b, now);
    NoWholeInterval(0, b.refillRate);
    QuotientNotNegative(now - b.lastRefill, b.refillRate);
  }

  lemma QuotientNotNegative(n: int, r: int)
    requires n >= 0 && r >= 1
    ensures n / r >= 0
  {
  }

  lemma {:induction false} TimesOfBurst(from: int, n: nat, now: int)
    requires from <= now
    ensures Times(from, Repeat(n, now), now)
    decreases n
  {
    if n > 0 {
      assert Repeat(n, now)[1..] == Repeat(n - 1, now);
      TimesOfBurst(now, n - 1, now);
    }
  }

  /** Calls a whole interval apart. */
  predicate Spaced(from: int, ts: seq<int>, r: int)
    decreases |ts|
  {
    ts == [] || (from + r <= ts[0] && Spaced(ts[0], ts[1..], r))
  }

  /** A caller that waits a whole interval before each call is never refused. */
  lemma {:induction false} SpacedCallsAllowed(b: Bucket, ts: seq<int>, to: int)
    requires b.refillRate >= 1 && 0 <= b.tokens <= b.maxTokens && b.maxTokens >= 1
    requires Times(b.lastRefill, ts, to) && Spaced(b.lastRefill, ts, b.refillRate)
    ensures Allowed(b, ts, to) == |ts|
    decreases |ts|
  {
    if ts != [] {
      DivLower(ts[0] - b.lastRefill, 1, b.refillRate);
      var (b', ok) := AllowStep(b, ts[0]);
      assert ok && b'.lastRefill == ts[0];
      SpacedCallsAllowed(b', ts[1..], to);
    }
  }
}
