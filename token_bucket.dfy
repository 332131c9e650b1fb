/**
 * The token-bucket rate limiter (TokenBucket.cs). A bucket holds up to `capacity`
 * tokens; one token comes back every `refillRate` milliseconds, counted from
 * the last time a refill added anything. The wall clock is the parameter `now`
 * (milliseconds); the lock of the source only makes each call atomic, and calls
 * are modelled as sequential steps.
 */
module RateLimiting {
  import opened Numbers

  /** The mutable part of a bucket: its token count and the time of its last refill. */
  datatype BucketState = BucketState(tokens: int, lastRefillTime: int)

  /** `(int)(elapsed / refillRate)`: the cast truncates toward zero, so a clock that ran
      backwards yields zero or a negative count. */
  function NewTokens(elapsed: int, refillRate: int): (q: int)
    requires refillRate > 0
    ensures elapsed >= 0 ==> 0 <= q && q * refillRate <= elapsed < q * refillRate + refillRate
    ensures elapsed < 0 ==> q <= 0
    ensures q > 0 <==> elapsed >= refillRate
  {
    if elapsed >= 0 then
      DivisionBounds(elapsed, refillRate);
      elapsed / refillRate
    else
      DivisionBounds(-elapsed, refillRate);
      -((-elapsed) / refillRate)
  }

  lemma DivisionBounds(a: int, b: int)
    requires a >= 0 && b > 0
    ensures var q := a / b; 0 <= q && q * b <= a < q * b + b && (q > 0 <==> a >= b)
  {
    var q := a / b;
    assert a == q * b + a % b;
    if q >= 1 {
      MulMonotone(1, q, b);
    } else {
      assert q == 0;
    }
  }

  lemma MulMonotone(a: int, b: int, c: int)
    requires a <= b && c >= 0
    ensures a * c <= b * c
  {
  }

  /** Whole refill intervals never get lost by being counted in two pieces. */
  lemma Superadditive(a: int, b: int, refillRate: int)
    requires a >= 0 && b >= 0 && refillRate > 0
    ensures NewTokens(a, refillRate) + NewTokens(b, refillRate) <= NewTokens(a + b, refillRate)
  {
    var qa, qb, q := NewTokens(a, refillRate), NewTokens(b, refillRate), NewTokens(a + b, refillRate);
    Distribute(qa, qb, refillRate);
    Distribute(q, 1, refillRate);
    if qa + qb > q {
      MulMonotone(q + 1, qa + qb, refillRate);
      assert false;
    }
  }

  lemma Distribute(x: int, y: int, c: int)
    ensures (x + y) * c == x * c + y * c
  {
  }

  /** `Refill()`: adds the whole intervals elapsed since the last refill, capped at
      `capacity`, and moves the refill time to `now` only if a token was added. */
  function AfterRefill(s: BucketState, capacity: int, refillRate: int, now: int): BucketState
    requires refillRate > 0
  {
    var newTokens := NewTokens(now - s.lastRefillTime, refillRate);
    if newTokens > 0 then BucketState(Min(s.tokens + newTokens, capacity), now) else s
  }

  /** `TryConsumeToken(count)`: refill, then grant and deduct `count` tokens if there are enough. */
  function AfterConsume(s: BucketState, capacity: int, refillRate: int, count: int, now: int): (r: (bool, BucketState))
    requires refillRate > 0
    ensures var p := AfterRefill(s, capacity, refillRate, now);
      && (r.0 <==> p.tokens >= count)
      && r.1.lastRefillTime == p.lastRefillTime
      && r.1.tokens == if r.0 then p.tokens - count else p.tokens
  {
    var p := AfterRefill(s, capacity, refillRate, now);
    if p.tokens < count then (false, p) else (true, p.(tokens := p.tokens - count))
  }

  /** At least one whole interval since the last refill: the bucket gains
      `elapsed / refillRate` tokens up to the cap and the clock moves to `now`;
      less than one interval (including a clock that stood still or ran back):
      nothing changes. */
  lemma RefillCharacterised(s: BucketState, capacity: int, refillRate: int, now: int)
    requires refillRate > 0
    ensures var r := AfterRefill(s, capacity, refillRate, now);
      var elapsed := now - s.lastRefillTime;
      && (elapsed >= refillRate ==> r == BucketState(Min(s.tokens + elapsed / refillRate, capacity), now))
      && (elapsed < refillRate ==> r == s)
  {
  }

  /** Refilling keeps `0 <= tokens <= capacity`. */
  lemma RefillKeepsBounds(s: BucketState, capacity: int, refillRate: int, now: int)
    requires refillRate > 0 && 0 <= s.tokens <= capacity
    ensures var r := AfterRefill(s, capacity, refillRate, now);
      0 <= r.tokens <= capacity && s.tokens <= r.tokens
  {
  }

  /** Consuming a non-negative count keeps `0 <= tokens <= capacity`. */
  lemma ConsumeKeepsBounds(s: BucketState, capacity: int, refillRate: int, count: int, now: int)
    requires refillRate > 0 && 0 <= s.tokens <= capacity && count >= 0
    ensures var r := AfterConsume(s, capacity, refillRate, count, now).1;
      0 <= r.tokens <= capacity
  {
    RefillKeepsBounds(s, capacity, refillRate, now);
  }

  /** A refill that adds nothing leaves the refill time alone, so time shorter than
      one interval carries over to the next call. */
  lemma PartialIntervalsAccumulate(s: BucketState, capacity: int, refillRate: int, now1: int, now2: int)
    requires refillRate > 0 && now1 - s.lastRefillTime < refillRate
    ensures AfterRefill(AfterRefill(s, capacity, refillRate, now1), capacity, refillRate, now2)
         == AfterRefill(s, capacity, refillRate, now2)
  {
  }

  /** A refill restarts the clock at `now`, not at the end of the last whole interval:
      the fraction of an interval is discarded. With one token per 1000 ms, refills at
      1500 ms and 2000 ms yield one token where a single refill at 2000 ms yields two. */
  lemma RemainderDiscarded()
    ensures var s := BucketState(0, 0);
      && AfterRefill(AfterRefill(s, 100, 1000, 1500), 100, 1000, 2000).tokens == 1
      && AfterRefill(s, 100, 1000, 2000).tokens == 2
  {
  }

  /** Refilling in two steps, with time moving forward, never yields more tokens than
      refilling once at the end. */
  lemma SplitRefillNeverGains(s: BucketState, capacity: int, refillRate: int, now1: int, now2: int)
    requires refillRate > 0 && s.lastRefillTime <= now1 <= now2
    ensures AfterRefill(AfterRefill(s, capacity, refillRate, now1), capacity, refillRate, now2).tokens
         <= AfterRefill(s, capacity, refillRate, now2).tokens
  {
    var a, b := now1 - s.lastRefillTime, now2 - now1;
    var q1 := NewTokens(a, refillRate);
    var p := AfterRefill(s, capacity, refillRate, now1);
    if q1 > 0 {
      assert p == BucketState(Min(s.tokens + q1, capacity), now1);
      assert now2 - p.lastRefillTime == b && now2 - s.lastRefillTime == a + b;
      Superadditive(a, b, refillRate);
    } else {
      assert p == s;
    }
  }

  /** One consume step: the refill time never moves back, and what the bucket holds
      afterwards plus what it handed out is at most what it held plus the whole
      intervals between the two refill times. */
  lemma ConsumeStep(s: BucketState, capacity: int, refillRate: int, count: int, now: int)
    requires refillRate > 0 && count >= 0
    ensures var (granted, r) := AfterConsume(s, capacity, refillRate, count, now);
      && s.lastRefillTime <= r.lastRefillTime
      && r.tokens + (if granted then count else 0)
         <= s.tokens + NewTokens(r.lastRefillTime - s.lastRefillTime, refillRate)
  {
  }

  /** One call to `TryConsumeToken`, with the arguments it received. */
  datatype Call = Call(count: int, now: int)

  /** A run of calls against one bucket: the final state and the number of tokens handed out. */
  function Run(s: BucketState, capacity: int, refillRate: int, calls: seq<Call>): (BucketState, int)
    requires refillRate > 0
    decreases |calls|
  {
    if calls == [] then (s, 0)
    else
      var (granted, s1) := AfterConsume(s, capacity, refillRate, calls[0].count, calls[0].now);
      var (last, total) := Run(s1, capacity, refillRate, calls[1..]);
      (last, total + if granted then calls[0].count else 0)
  }

  /** Over any run of calls, whatever the clock does, the bucket stays within bounds and
      hands out at most what it held at the start plus one token per whole interval
      between the first and the last refill time. */
  lemma {:induction false} RunHandsOutAtMostRefills(s: BucketState, capacity: int, refillRate: int, calls: seq<Call>)
    requires refillRate > 0 && 0 <= s.tokens <= capacity
    requires forall i :: 0 <= i < |calls| ==> calls[i].count >= 0
    decreases |calls|
    ensures var (last, total) := Run(s, capacity, refillRate, calls);
      && 0 <= last.tokens <= capacity
      && s.lastRefillTime <= last.lastRefillTime
      && total + last.tokens <= s.tokens + NewTokens(last.lastRefillTime - s.lastRefillTime, refillRate)
  {
    if calls != [] {
      var (granted, s1) := AfterConsume(s, capacity, refillRate, calls[0].count, calls[0].now);
      ConsumeStep(s, capacity, refillRate, calls[0].count, calls[0].now);
      ConsumeKeepsBounds(s, capacity, refillRate, calls[0].count, calls[0].now);
      RunHandsOutAtMostRefills(s1, capacity, refillRate, calls[1..]);
      var (last, total) := Run(s1, capacity, refillRate, calls[1..]);
      Superadditive(s1.lastRefillTime - s.lastRefillTime, last.lastRefillTime - s1.lastRefillTime, refillRate);
    }
  }

  /** The limiter object: `_tokens` and `_lastRefillTime` change in place. */
  class TokenBucket {
    const capacity: int
    const refillRate: int
    var tokens: int
    var lastRefillTime: int

    ghost predicate Valid() {
      refillRate > 0
    }

    /** The invariant the limiter keeps while every request asks for a non-negative count. */
    predicate Bounded()
      reads this
    {
      0 <= tokens <= capacity
    }

    function State(): BucketState
      reads this
    {
      BucketState(tokens, lastRefillTime)
    }

    /** A new bucket is full, with its refill clock started now. */
    constructor (capacity: int, refillRate: int, now: int)
      requires refillRate > 0
      ensures Valid() && this.capacity == capacity && this.refillRate == refillRate
      ensures tokens == capacity && lastRefillTime == now
      ensures capacity >= 0 ==> Bounded()
    {
      this.capacity := capacity;
      this.refillRate := refillRate;
      tokens := capacity;
      lastRefillTime := now;
    }

    method TryConsumeToken(count: int, now: int) returns (granted: bool)
      requires Valid()
      modifies this
      ensures (granted, State()) == AfterConsume(old(State()), capacity, refillRate, count, now)
      ensures granted <==> AfterRefill(old(State()), capacity, refillRate, now).tokens >= count
      ensures old(Bounded()) && count >= 0 ==> Bounded()
    {
      ghost var before := State();
      Refill(now);
      if tokens < count {
        granted := false;
      } else {
        tokens := tokens - count;
        granted := true;
      }
      if 0 <= before.tokens <= capacity && count >= 0 {
        ConsumeKeepsBounds(before, capacity, refillRate, count, now);
      }
    }

    method Refill(now: int)
      requires Valid()
      modifies this
      ensures State() == AfterRefill(old(State()), capacity, refillRate, now)
    {
      var timeSinceLastRefill := now - lastRefillTime;
      var newTokens := NewTokens(timeSinceLastRefill, refillRate);
      if newTokens > 0 {
        tokens := Min(tokens + newTokens, capacity);
        lastRefillTime := now;
      }
    }
  }
}
