/**
 The client-side token bucket. Times are whole milliseconds of a clock that
 never goes back; tokens are reals, so floating-point rounding is not part of
 this model.
 */
module RateLimit {
  const BUCKET_CAPACITY := 90.0
  const REFILL_PER_SECOND := 9.0
  const DEFAULT_MAX_WAIT_MS := 10_000
  const MS_PER_SECOND := 1000.0

  datatype Config = Config(capacity: real, refillPerSecond: real, maxWaitMs: int) {
    /** A bucket that can ever hold a whole token. */
    predicate Valid() { capacity >= 1.0 && refillPerSecond > 0.0 }
  }

  const DEFAULT_CONFIG := Config(BUCKET_CAPACITY, REFILL_PER_SECOND, DEFAULT_MAX_WAIT_MS)

  datatype Bucket = Bucket(tokens: real, lastRefillMs: int)

  datatype Grant = Granted | MustSleep(waitMs: int) | Refused(waitMs: int)

  function FullBucket(c: Config, now: int): Bucket { Bucket(c.capacity, now) }

  function Lesser(a: real, b: real): real { if a < b then a else b }

  function Ceiling(x: real): int { -((-x).Floor) }

  /** The tokens the bucket has at `now`, counting the refill that is due. */
  function Level(c: Config, b: Bucket, now: int): real {
    Lesser(c.capacity, b.tokens + Earned(c, b.lastRefillMs, now))
  }

  /** The tokens a span of time is worth. */
  function Earned(c: Config, from: int, to: int): real { (to - from) as real / MS_PER_SECOND * c.refillPerSecond }

  function Refill(c: Config, b: Bucket, now: int): Bucket { Bucket(Level(c, b, now), now) }

  function MsUntilNextToken(c: Config, tokens: real): int
    requires c.refillPerSecond != 0.0
  {
    Ceiling((1.0 - tokens) / c.refillPerSecond * MS_PER_SECOND)
  }

  /** `acquire` up to its only await. */
  function Begin(c: Config, b: Bucket, now: int): (Bucket, Grant)
    requires c.refillPerSecond != 0.0
  {
    var filled := Refill(c, b, now);
    if filled.tokens >= 1.0 then (filled.(tokens := filled.tokens - 1.0), Granted)
    else
      var waitMs := MsUntilNextToken(c, filled.tokens);
      if waitMs > c.maxWaitMs then (filled, Refused(waitMs)) else (filled, MustSleep(waitMs))
  }

  /** `acquire` after its sleep: takes a token, or forgives the missing part. */
  function Finish(c: Config, b: Bucket, now: int): Bucket {
    var filled := Refill(c, b, now);
    filled.(tokens := if filled.tokens - 1.0 > 0.0 then filled.tokens - 1.0 else 0.0)
  }

  /** The clamp to zero hides a missing part of a token. */
  predicate Clamps(c: Config, b: Bucket, now: int) { Level(c, b, now) < 1.0 }

  ghost predicate Bounded(c: Config, b: Bucket) { 0.0 <= b.tokens <= c.capacity }

  lemma {:induction false} LevelGrowsWithTime(c: Config, b: Bucket, t0: int, t1: int)
    requires c.Valid() && t0 <= t1
    ensures Level(c, b, t0) <= Level(c, b, t1) <= Level(c, b, t0) + Earned(c, t0, t1)
  {
    var r := c.refillPerSecond;
    var a0, a1 := (t0 - b.lastRefillMs) as real / MS_PER_SECOND, (t1 - b.lastRefillMs) as real / MS_PER_SECOND;
    var d := (t1 - t0) as real / MS_PER_SECOND;
    assert a1 == a0 + d && d >= 0.0;
    assert a1 * r == a0 * r + d * r;
    assert d * r >= 0.0;
  }

  lemma {:induction false} LevelIsBounded(c: Config, b: Bucket, now: int)
    requires c.Valid() && Bounded(c, b) && b.lastRefillMs <= now
    ensures 0.0 <= Level(c, b, now) <= c.capacity
  {
    LevelGrowsWithTime(c, b, b.lastRefillMs, now);
  }

  /** Conservation at one instant: a grant costs one token unless the clamp forgives it. */
  lemma {:induction false} GrantsAreCharged(c: Config, b: Bucket, now: int)
    requires c.Valid() && Bounded(c, b) && b.lastRefillMs <= now
    ensures var (after, grant) := Begin(c, b, now);
            && Bounded(c, after) && after.lastRefillMs == now
            && Level(c, after, now) == Level(c, b, now) - (if grant.Granted? then 1.0 else 0.0)
    ensures var after := Finish(c, b, now);
            && Bounded(c, after) && after.lastRefillMs == now
            && Level(c, after, now) == (if Clamps(c, b, now) then 0.0 else Level(c, b, now) - 1.0)
  {
    LevelIsBounded(c, b, now);
  }

  /** The computed wait is the least number of whole milliseconds that fills the bucket to one token. */
  lemma {:induction false} WaitIsLeast(c: Config, b: Bucket, ms: int)
    requires c.Valid() && b.tokens < 1.0
    ensures ms >= MsUntilNextToken(c, b.tokens) <==> !Clamps(c, b, b.lastRefillMs + ms)
    ensures MsUntilNextToken(c, b.tokens) >= 1
  {
    var r := c.refillPerSecond;
    var missing := 1.0 - b.tokens;
    var exact := missing / r * MS_PER_SECOND;
    var earned := ms as real / MS_PER_SECOND * r;
    assert exact > 0.0;
    assert (b.lastRefillMs + ms - b.lastRefillMs) as real == ms as real;
    assert Earned(c, b.lastRefillMs, b.lastRefillMs + ms) == earned;
    EarnsEnoughIff(missing, r, ms as real);
    assert ms >= Ceiling(exact) <==> ms as real >= exact;
  }

  lemma {:induction false} EarnsEnoughIff(missing: real, r: real, ms: real)
    requires r > 0.0
    ensures ms >= missing / r * MS_PER_SECOND <==> ms / MS_PER_SECOND * r >= missing
  {
    var seconds := ms / MS_PER_SECOND;
    assert ms >= missing / r * MS_PER_SECOND <==> seconds >= missing / r;
    assert missing / r * r == missing;
    if seconds >= missing / r {
      assert seconds * r >= missing / r * r;
    } else {
      assert seconds * r < missing / r * r;
    }
  }

  /**
   What `acquire` decides: it grants exactly when a whole token is there, and
   refuses exactly when none will be there after the longest allowed wait. The
   wait it reports, sleeping or refusing, is the least that would do.
   */
  lemma {:induction false} GrantIff(c: Config, b: Bucket, now: int, ms: int)
    requires c.Valid()
    ensures var (after, grant) := Begin(c, b, now);
            && (grant.Granted? <==> Level(c, b, now) >= 1.0)
            && (grant.Refused? <==> Level(c, b, now) < 1.0 && Clamps(c, Bucket(Level(c, b, now), now), now + c.maxWaitMs))
            && (!grant.Granted? ==> (ms >= grant.waitMs <==> !Clamps(c, Bucket(Level(c, b, now), now), now + ms)))
  {
    var filled := Refill(c, b, now);
    if filled.tokens < 1.0 {
      WaitIsLeast(c, filled, ms);
      WaitIsLeast(c, filled, c.maxWaitMs);
    }
  }

  /** With the defaults a call is never refused, and never told to sleep longer than 112 ms. */
  lemma {:induction false} DefaultsNeverRefuse(b: Bucket, now: int)
    requires Bounded(DEFAULT_CONFIG, b) && b.lastRefillMs <= now
    ensures var grant := Begin(DEFAULT_CONFIG, b, now).1;
            !grant.Refused? && (grant.MustSleep? ==> 1 <= grant.waitMs <= 112)
  {
    LevelIsBounded(DEFAULT_CONFIG, b, now);
    var filled := Refill(DEFAULT_CONFIG, b, now);
    if filled.tokens < 1.0 {
      assert Earned(DEFAULT_CONFIG, now, now + 112) == 1.008;
      WaitIsLeast(DEFAULT_CONFIG, filled, 112);
    }
  }

  /**
   The computed wait is long enough, and no longer than needed: when nobody
   touches the bucket during the sleep, a whole token is there on waking exactly
   when the sleeper wakes no earlier than told, so the clamp does nothing.
   */
  lemma {:induction false} WaitYieldsAFullToken(c: Config, b: Bucket, now: int, waking: int)
    requires c.Valid() && Begin(c, b, now).1.MustSleep?
    ensures var (after, grant) := Begin(c, b, now);
            waking >= now + grant.waitMs <==> !Clamps(c, after, waking)
  {
    WaitIsLeast(c, Begin(c, b, now).0, waking - now);
  }

  /** The mutable bucket; each method is one stretch of `acquire` between awaits. */
  class TokenBucket {
    const config: Config
    var tokens: real
    var lastRefillMs: int

    ghost function State(): Bucket
      reads this
    {
      Bucket(tokens, lastRefillMs)
    }

    ghost predicate Valid()
      reads this
    {
      config.Valid() && Bounded(config, State())
    }

    constructor (config: Config, now: int)
      requires config.Valid()
      ensures Valid() && this.config == config && State() == FullBucket(config, now)
    {
      this.config, tokens, lastRefillMs := config, config.capacity, now;
    }

    method DoRefill(now: int)
      requires Valid() && lastRefillMs <= now
      modifies this
      ensures Valid() && State() == Refill(config, old(State()), now)
    {
      LevelIsBounded(config, State(), now);
      var elapsedSeconds := (now - lastRefillMs) as real / MS_PER_SECOND;
      tokens := Lesser(config.capacity, tokens + elapsedSeconds * config.refillPerSecond);
      lastRefillMs := now;
    }

    method BeginAcquire(now: int) returns (grant: Grant)
      requires Valid() && lastRefillMs <= now
      modifies this
      ensures Valid() && (State(), grant) == Begin(config, old(State()), now)
    {
      GrantsAreCharged(config, State(), now);
      DoRefill(now);
      if tokens >= 1.0 {
        tokens := tokens - 1.0;
        return Granted;
      }
      var waitMs := MsUntilNextToken(config, tokens);
      if waitMs > config.maxWaitMs {
        return Refused(waitMs);
      }
      grant := MustSleep(waitMs);
    }

    method FinishAcquire(now: int)
      requires Valid() && lastRefillMs <= now
      modifies this
      ensures Valid() && State() == Finish(config, old(State()), now)
    {
      GrantsAreCharged(config, State(), now);
      DoRefill(now);
      tokens := if tokens - 1.0 > 0.0 then tokens - 1.0 else 0.0;
    }
  }
}
