/** The token bucket that limits traffic with a peer. `Limiter` is the stored value, with the meaning of each
    operation over unbounded integers; `RateLimiter` is the object that the program mutates with saturating
    64-bit arithmetic. */
module RateLimits {
  import opened Numbers
  import opened Wrappers

  datatype Limiter = Limiter(capacity: u64, tokens: u64, refillPerSecond: u64, lastRefillTime: u64) {
    /** Kept by every operation. */
    predicate Valid() {
      tokens <= capacity
    }

    /** Tokens earned since the last refill, without any bound. */
    function Earned(now: u64): nat {
      if now > lastRefillTime then
        MulNonNegative(now - lastRefillTime, refillPerSecond);
        (now - lastRefillTime) * refillPerSecond
      else 0
    }

    /** The bucket refilled at `now`, with `extra` tokens on top. */
    function Refilled(now: u64, extra: nat): Limiter {
      Limiter(capacity, Min(capacity, tokens + extra + Earned(now)), refillPerSecond, now)
    }

    /** Tokens that could be consumed at `now`. */
    function Available(now: u64): u64 {
      Refilled(now, 0).tokens
    }

    function WithRate(now: u64, rate: u64): Limiter {
      Refilled(now, 0).(refillPerSecond := rate)
    }

    function WithCapacity(now: u64, newCapacity: u64): Limiter {
      Limiter(newCapacity, newCapacity, refillPerSecond, now)
    }

    function Consumed(now: u64, amount: u64): Result<Limiter> {
      if amount <= Available(now) then
        Ok(Refilled(now, 0).(tokens := Available(now) - amount))
      else
        Err(RateLimitExceeded)
    }
  }

  const DEFAULT_LIMITER := Limiter(0, 0, 0, 0)

  /** Saturating sums capped by a 64-bit capacity are exact sums capped by it. */
  lemma SaturationIsHarmless(capacity: u64, tokens: u64, extra: u64, seconds: u64, rate: u64)
    ensures Min(capacity, SaturatingAdd(tokens, SaturatingAdd(extra, SaturatingMul(seconds, rate))))
            == Min(capacity, tokens + extra + seconds * rate)
  {
    MulNonNegative(seconds, rate);
  }

  class RateLimiter {
    var capacity: u64
    var tokens: u64
    var refillPerSecond: u64
    var lastRefillTime: u64

    function Value(): Limiter
      reads this
    {
      Limiter(capacity, tokens, refillPerSecond, lastRefillTime)
    }

    constructor (limiter: Limiter)
      ensures Value() == limiter
    {
      capacity, tokens := limiter.capacity, limiter.tokens;
      refillPerSecond, lastRefillTime := limiter.refillPerSecond, limiter.lastRefillTime;
    }

    method Refill(now: u64, extraTokens: u64)
      modifies this
      ensures Value() == old(Value()).Refilled(now, extraTokens)
    {
      var newTokens := extraTokens;
      if now > lastRefillTime {
        var elapsed := now - lastRefillTime;
        newTokens := SaturatingAdd(newTokens, SaturatingMul(elapsed, refillPerSecond));
        SaturationIsHarmless(capacity, tokens, extraTokens, elapsed, refillPerSecond);
      }
      tokens := Min(capacity, SaturatingAdd(tokens, newTokens));
      lastRefillTime := now;
    }

    method SetRate(now: u64, rate: u64)
      modifies this
      ensures Value() == old(Value()).WithRate(now, rate)
    {
      Refill(now, 0);
      refillPerSecond := rate;
    }

    method SetCapacity(now: u64, newCapacity: u64)
      modifies this
      ensures Value() == old(Value()).WithCapacity(now, newCapacity)
    {
      capacity := newCapacity;
      tokens := newCapacity;
      lastRefillTime := now;
    }

    method TryConsume(now: u64, amount: u64) returns (r: Result<()>)
      modifies this
      ensures match old(Value()).Consumed(now, amount)
              case Ok(after) => r == Ok(()) && Value() == after
              case Err(e) => r == Err(e)
    {
      Refill(now, 0);
      if amount <= tokens {
        tokens := tokens - amount;
        return Ok(());
      }
      return Err(RateLimitExceeded);
    }
  }

  // ---- Lazy refill is per-second refill ----

  /** What one second does to a bucket that is topped up every second. */
  ghost function Tick(tokens: nat, capacity: nat, rate: nat): nat {
    Min(capacity, tokens + rate)
  }

  ghost function Ticks(tokens: nat, capacity: nat, rate: nat, seconds: nat): nat
    decreases seconds
  {
    if seconds == 0 then tokens else Tick(Ticks(tokens, capacity, rate, seconds - 1), capacity, rate)
  }

  lemma {:induction false} TicksClosedForm(tokens: nat, capacity: nat, rate: nat, seconds: nat)
    requires tokens <= capacity
    ensures Ticks(tokens, capacity, rate, seconds) == Min(capacity, tokens + seconds * rate)
  {
    if seconds == 0 {
    } else {
      TicksClosedForm(tokens, capacity, rate, seconds - 1);
      assert seconds * rate == (seconds - 1) * rate + rate;
    }
  }

  /** One lazy refill equals a refill on every second since the last one. */
  lemma LazyRefillIsPerSecond(l: Limiter, now: u64)
    requires l.Valid() && l.lastRefillTime <= now
    ensures l.Available(now) == Ticks(l.tokens, l.capacity, l.refillPerSecond, now - l.lastRefillTime)
  {
    TicksClosedForm(l.tokens, l.capacity, l.refillPerSecond, now - l.lastRefillTime);
  }

  // ---- Splitting an interval ----

  datatype TimedRefill = TimedRefill(at: u64, extra: u64)

  ghost function RefillAll(l: Limiter, refills: seq<TimedRefill>): Limiter
    decreases refills
  {
    if refills == [] then l
    else RefillAll(l.Refilled(refills[0].at, refills[0].extra), refills[1..])
  }

  ghost predicate InOrder(start: nat, refills: seq<TimedRefill>)
    decreases refills
  {
    refills != [] ==> start <= refills[0].at && InOrder(refills[0].at, refills[1..])
  }

  ghost function TotalExtra(refills: seq<TimedRefill>): nat {
    if refills == [] then 0 else refills[0].extra + TotalExtra(refills[1..])
  }

  ghost function EndTime(start: nat, refills: seq<TimedRefill>): nat
    decreases refills
  {
    if refills == [] then start else EndTime(refills[0].at, refills[1..])
  }

  /** However many refills an interval is split into, whenever they come, the bucket holds what a single
      refill at the end with all the extra tokens would give it. */
  lemma {:induction false} RefillsCompose(l: Limiter, refills: seq<TimedRefill>)
    requires l.Valid() && InOrder(l.lastRefillTime, refills)
    ensures l.lastRefillTime <= EndTime(l.lastRefillTime, refills) <= U64_MAX
    ensures RefillAll(l, refills) == l.Refilled(EndTime(l.lastRefillTime, refills), TotalExtra(refills))
    decreases refills
  {
    if refills == [] {
    } else {
      var mid := l.Refilled(refills[0].at, refills[0].extra);
      RefillsCompose(mid, refills[1..]);
      var s, m, e := l.lastRefillTime, refills[0].at, EndTime(l.lastRefillTime, refills);
      assert (e - s) * l.refillPerSecond == (e - m) * l.refillPerSecond + (m - s) * l.refillPerSecond;
    }
  }

  /** A rate change bills the time before it at the old rate and the time after it at the new one. */
  lemma RateChangeBillsOldRate(l: Limiter, at: u64, rate: u64, now: u64)
    requires l.Valid() && l.lastRefillTime <= at <= now
    ensures l.WithRate(at, rate).Available(now)
            == Min(l.capacity, l.tokens + (at - l.lastRefillTime) * l.refillPerSecond + (now - at) * rate)
  {
    MulNonNegative(at - l.lastRefillTime, l.refillPerSecond);
    MulNonNegative(now - at, rate);
  }

  // ---- Exact admission time ----

  /** Seconds until `missing` tokens have been earned. */
  ghost function WaitFor(missing: int, rate: nat): nat
    requires rate > 0
  {
    if missing <= 0 then 0
    else
      QuotientAtLeast(missing + rate - 1, rate, 0);
      (missing + rate - 1) / rate
  }

  lemma WaitIsExact(missing: int, rate: nat, seconds: nat)
    requires rate > 0
    ensures missing <= seconds * rate <==> WaitFor(missing, rate) <= seconds
  {
    MulNonNegative(seconds, rate);
    if missing > 0 {
      QuotientAtLeast(missing + rate - 1, rate, seconds + 1);
      assert (seconds + 1) * rate == seconds * rate + rate;
    }
  }

  /** With no other traffic, an amount is accepted exactly when it fits the capacity and the wait for the
      missing tokens is over; with a zero rate, exactly when the tokens are already there. */
  lemma AdmissionTime(l: Limiter, now: u64, amount: u64)
    requires l.Valid() && l.lastRefillTime <= now
    ensures l.refillPerSecond > 0 ==>
              (l.Consumed(now, amount).Ok? <==>
                 amount <= l.capacity
                 && now >= l.lastRefillTime + WaitFor(amount - l.tokens, l.refillPerSecond))
    ensures l.refillPerSecond == 0 ==> (l.Consumed(now, amount).Ok? <==> amount <= l.tokens)
  {
    if l.refillPerSecond > 0 {
      WaitIsExact(amount - l.tokens, l.refillPerSecond, now - l.lastRefillTime);
    }
  }

  /** On a clock that has not moved on, or has gone back, only the extra tokens are added, and the time of the
      last refill is the clock's all the same. */
  lemma StalledClock(l: Limiter, now: u64, extra: u64)
    requires now <= l.lastRefillTime
    ensures l.Refilled(now, extra) == Limiter(l.capacity, Min(l.capacity, l.tokens + extra), l.refillPerSecond, now)
  {
  }

  // ---- What one operation does to the available tokens ----

  /** Consuming takes exactly the amount. */
  lemma ConsumedAvailable(l: Limiter, now: u64, amount: u64)
    requires l.Valid() && l.lastRefillTime <= now && l.Consumed(now, amount).Ok?
    ensures var l' := l.Consumed(now, amount).value;
            && l'.Valid() && l'.lastRefillTime == now
            && l'.capacity == l.capacity && l'.refillPerSecond == l.refillPerSecond
            && l'.Available(now) == l.Available(now) - amount
  {
  }

  /** Refilling gives exactly the extra tokens, as far as they fit. */
  lemma RefilledAvailable(l: Limiter, now: u64, extra: u64)
    requires l.Valid() && l.lastRefillTime <= now
    ensures var l' := l.Refilled(now, extra);
            && l'.Valid() && l'.lastRefillTime == now
            && l'.capacity == l.capacity && l'.refillPerSecond == l.refillPerSecond
            && l'.Available(now) == Min(l.capacity, l.Available(now) + extra)
  {
  }

  /** Time passing earns at most the rate. */
  lemma AvailableOverTime(l: Limiter, now: u64, later: u64)
    requires l.lastRefillTime <= now <= later
    ensures l.Available(now) <= l.Available(later) <= l.Available(now) + (later - now) * l.refillPerSecond
  {
    var s, rate := l.lastRefillTime, l.refillPerSecond;
    assert (later - s) * rate == (later - now) * rate + (now - s) * rate;
    MulNonNegative(later - now, rate);
  }
}
