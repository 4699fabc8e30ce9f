/**
 * `hooks/useRateLimit.ts`: the kiosk notification form's client-side limiter. It counts
 * attempts inside a fixed window that starts at the first attempt after
 * the previous window ran out, and reports the form as limited once the
 * count reaches the maximum. `Date.now()` is the `now` argument of each
 * operation, in milliseconds.
 */
module RateLimit {
  import opened Common
  import opened Text

  class RateLimiter {
    const maxAttempts: int
    const windowMs: int
    var attempts: int
    var windowStart: int
    var isLimited: bool

    /** The limiter never reports a limit it has not counted up to. */
    ghost predicate Valid()
      reads this
    {
      attempts >= 0 && (isLimited ==> attempts >= maxAttempts)
    }

    /** `useState({ attempts: 0, windowStart: Date.now(), isLimited: false })`. */
    constructor (maxAttempts: int, windowMs: int, now: int)
      ensures Valid()
      ensures this.maxAttempts == maxAttempts && this.windowMs == windowMs
      ensures attempts == 0 && windowStart == now && !isLimited
    {
      this.maxAttempts := maxAttempts;
      this.windowMs := windowMs;
      attempts := 0;
      windowStart := now;
      isLimited := false;
    }

    /** The window that began at `windowStart` is over. */
    predicate WindowElapsed(now: int)
      reads this
    {
      now - windowStart >= windowMs
    }

    /**
     * `checkRateLimit`: past the window, start a fresh one and allow; inside
     * it, refuse and mark the form limited once the maximum is reached,
     * otherwise allow and change nothing.
     */
    method CheckRateLimit(now: int) returns (limited: bool)
      requires Valid()
      modifies this
      ensures Valid()
      ensures old(WindowElapsed(now)) ==>
        !limited && attempts == 0 && windowStart == now && !isLimited
      ensures !old(WindowElapsed(now)) && old(attempts) >= maxAttempts ==>
        limited && isLimited && attempts == old(attempts) && windowStart == old(windowStart)
      ensures !old(WindowElapsed(now)) && old(attempts) < maxAttempts ==>
        !limited && attempts == old(attempts) && windowStart == old(windowStart) && isLimited == old(isLimited)
      ensures limited <==> !old(WindowElapsed(now)) && old(attempts) >= maxAttempts
    {
      if now - windowStart >= windowMs {
        attempts, windowStart, isLimited := 0, now, false;
        return false;
      }
      if attempts >= maxAttempts {
        isLimited := true;
        return true;
      }
      return false;
    }

    /**
     * `increment`: past the window, this attempt opens a new window as its
     * first attempt; inside it, one more attempt, limited iff the count has
     * reached the maximum.
     */
    method Increment(now: int)
      requires Valid()
      modifies this
      ensures Valid()
      ensures old(WindowElapsed(now)) ==> attempts == 1 && windowStart == now && !isLimited
      ensures !old(WindowElapsed(now)) ==>
        attempts == old(attempts) + 1 && windowStart == old(windowStart) && (isLimited <==> attempts >= maxAttempts)
    {
      if now - windowStart >= windowMs {
        attempts, windowStart, isLimited := 1, now, false;
      } else {
        var newAttempts := attempts + 1;
        attempts := newAttempts;
        isLimited := newAttempts >= maxAttempts;
      }
    }

    /** `reset`: no attempts, a new window from `now`. */
    method Reset(now: int)
      modifies this
      ensures Valid()
      ensures attempts == 0 && windowStart == now && !isLimited
    {
      attempts, windowStart, isLimited := 0, now, false;
    }

    /** `timeUntilReset`: the milliseconds left in the window while limited, else 0. */
    function TimeUntilReset(now: int): (t: int)
      reads this
      ensures !isLimited ==> t == 0
      ensures isLimited ==> t == Max(0, windowMs - (now - windowStart))
      ensures t >= 0
      ensures windowMs >= 0 && now >= windowStart ==> t <= windowMs
      ensures isLimited && !WindowElapsed(now) ==> t > 0
      ensures Valid() && t > 0 ==> attempts >= maxAttempts
    {
      if isLimited then Max(0, windowMs - (now - windowStart)) else 0
    }

    /** The message shown: the configured one, else the wait rounded up to whole seconds. */
    function Message(configured: Option<string>, now: int): (m: string)
      reads this
      ensures Truthy(configured) ==> m == configured.value
      ensures !Truthy(configured) ==>
        m == "Too many attempts. Please wait " + NatToString(CeilDiv(TimeUntilReset(now), 1000)) + " seconds."
    {
      if Truthy(configured) then configured.value
      else "Too many attempts. Please wait " + NatToString(CeilDiv(TimeUntilReset(now), 1000)) + " seconds."
    }
  }

  function Max(a: int, b: int): int {
    if a >= b then a else b
  }

  /** `Math.ceil(n / d)` for a non-negative `n`. */
  function CeilDiv(n: nat, d: nat): (q: nat)
    requires d >= 1
    ensures q * d >= n && (q == 0 || (q - 1) * d < n)
  {
    (n + d - 1) / d
  }
}
