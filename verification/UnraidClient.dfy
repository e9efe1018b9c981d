/**
 The GraphQL client: every attempt of every call first takes a token, and a
 failed attempt may be retried. Calls run concurrently over one bucket.
 */
module UnraidClient {
  import opened RateLimit

  const HTTP_TOO_MANY_REQUESTS := 429
  const HTTP_SERVER_ERROR_FLOOR := 500
  const RETRY_DELAY_MS := 1000.0
  const MAX_QUERY_RETRIES := 2
  const MAX_MUTATION_RETRIES := 1
  const RETRY_BASE_DELAY_MS := 250.0

  /** How one request ended. `NotAnError` is a thrown value that is not an `Error`. */
  datatype Outcome = Success | HttpStatus(status: int) | ApiError | TransportError | NotAnError

  datatype RetryPolicy = RetryPolicy(maxRetries: nat, retryServerErrors: bool)

  function RetryPolicyFor(isQuery: bool): RetryPolicy {
    if isQuery then RetryPolicy(MAX_QUERY_RETRIES, true) else RetryPolicy(MAX_MUTATION_RETRIES, false)
  }

  predicate IsTooManyRequests(error: Outcome) { error == HttpStatus(HTTP_TOO_MANY_REQUESTS) }

  predicate IsRetryable(error: Outcome, policy: RetryPolicy) {
    if IsTooManyRequests(error) then true
    else if !policy.retryServerErrors || error.ApiError? then false
    else match error
      case HttpStatus(status) => status >= HTTP_SERVER_ERROR_FLOOR
      case TransportError => true
      case _ => false
  }

  predicate RetriesAfter(error: Outcome, attempt: nat, policy: RetryPolicy) {
    !error.Success? && attempt < policy.maxRetries && IsRetryable(error, policy)
  }

  function Pow2(n: nat): real { if n == 0 then 1.0 else 2.0 * Pow2(n - 1) }

  /** `jitter` is the factor drawn from [0.5, 1.5). */
  function DelayMs(error: Outcome, attempt: nat, jitter: real): real {
    if IsTooManyRequests(error) then RETRY_DELAY_MS else RETRY_BASE_DELAY_MS * Pow2(attempt) * jitter
  }

  // ---------------------------------------------------------------- which outcomes are sent again

  /**
   What the documentation promises, by outcome alone: a query is sent again after
   its first and second request when that ended in 429, in a 5xx status or in the
   transport; a mutation after its first request when that ended in 429.
   */
  predicate SentAgain(isQuery: bool, outcome: Outcome, request: nat) {
    if isQuery then
      && request < 2
      && (outcome.TransportError? || (outcome.HttpStatus? && (outcome.status == 429 || outcome.status >= 500)))
    else request == 0 && outcome == HttpStatus(429)
  }

  /** The wait before the next attempt: a second after a 429, else 250 ms and then 500 ms, times the jitter. */
  function WaitBefore(outcome: Outcome, request: nat, jitter: real): real {
    if outcome == HttpStatus(429) then 1000.0 else (if request == 0 then 250.0 else 500.0) * jitter
  }

  lemma {:induction false} RetriesAfterIff(isQuery: bool, outcome: Outcome, request: nat)
    ensures RetriesAfter(outcome, request, RetryPolicyFor(isQuery)) <==> SentAgain(isQuery, outcome, request)
  {
  }

  lemma {:induction false} WaitsByValue(isQuery: bool, outcome: Outcome, request: nat, jitter: real)
    requires SentAgain(isQuery, outcome, request)
    ensures DelayMs(outcome, request, jitter) == WaitBefore(outcome, request, jitter)
  {
    assert Pow2(0) == 1.0 && Pow2(1) == 2.0;
  }

  // ---------------------------------------------------------------- one call

  datatype Result = Responded(last: Outcome) | RateLimited

  /**
   The attempt loop. `respond(i)` is how request `i` ends, `admit(i)` whether
   the limiter lets attempt `i` through, `jitter(i)` its jitter factor.
   */
  method Execute(isQuery: bool, respond: nat -> Outcome, admit: nat -> bool, jitter: nat -> real)
    returns (result: Result, sent: nat, delays: seq<real>)
    ensures forall i | 0 <= i < sent :: admit(i)
    ensures forall i: nat | i < (if result.RateLimited? then sent else sent - 1) :: SentAgain(isQuery, respond(i), i)
    ensures result.RateLimited? ==> !admit(sent)
    ensures result.Responded? ==>
              sent > 0 && result.last == respond(sent - 1) && !SentAgain(isQuery, result.last, sent - 1)
    ensures |delays| == if result.RateLimited? then sent else sent - 1
    ensures forall i: nat | i < |delays| :: delays[i] == WaitBefore(respond(i), i, jitter(i))
  {
    var policy := RetryPolicyFor(isQuery);
    var attempt := 0;
    delays := [];
    while true
      invariant 0 <= attempt <= policy.maxRetries
      invariant forall i | 0 <= i < attempt :: admit(i)
      invariant forall i: nat | i < attempt :: SentAgain(isQuery, respond(i), i)
      invariant |delays| == attempt
      invariant forall i: nat | i < |delays| :: delays[i] == WaitBefore(respond(i), i, jitter(i))
      decreases policy.maxRetries - attempt
    {
      if !admit(attempt) {
        return RateLimited, attempt, delays;
      }
      var outcome := respond(attempt);
      RetriesAfterIff(isQuery, outcome, attempt);
      if outcome.Success? || attempt >= policy.maxRetries || !IsRetryable(outcome, policy) {
        return Responded(outcome), attempt + 1, delays;
      }
      WaitsByValue(isQuery, outcome, attempt, jitter(attempt));
      delays := delays + [DelayMs(outcome, attempt, jitter(attempt))];
      attempt := attempt + 1;
    }
  }

  // ---------------------------------------------------------------- many calls

  type CallId = nat

  datatype Status =
    | Wanting                    // about to call acquire
    | Asleep(wakeAt: int)        // inside acquire
    | Sending                    // request in flight
    | BackingOff(until: real)    // before the next attempt
    | Finished

  /** `outcomes` are the settled attempts, oldest first. */
  datatype Call = Call(isQuery: bool, attempt: nat, status: Status, sent: nat, outcomes: seq<Outcome>)

  /** `requests` counts requests sent, `forgiven` the wakes at which the clamp hid a missing part of a token. */
  datatype System = System(bucket: Bucket, now: int, calls: map<CallId, Call>, requests: nat, forgiven: nat)

  datatype Step =
    | Start(id: CallId, at: int, isQuery: bool)
    | Acquire(id: CallId, at: int)
    | Wake(id: CallId, at: int)
    | Settle(id: CallId, at: int, outcome: Outcome, jitter: real)
    | Retry(id: CallId, at: int)

  function Initial(c: Config, now: int): System { System(FullBucket(c, now), now, map[], 0, 0) }

  ghost predicate Enabled(s: System, step: Step) {
    && step.at >= s.now
    && (step.Start? <==> step.id !in s.calls)
    && (step.id in s.calls ==>
          var status := s.calls[step.id].status;
          match step
          case Start(_, _, _) => false
          case Acquire(_, _) => status.Wanting?
          case Wake(_, at) => status.Asleep? && at >= status.wakeAt
          case Settle(_, _, _, jitter) => status.Sending? && 0.5 <= jitter < 1.5
          case Retry(_, at) => status.BackingOff? && at as real >= status.until)
  }

  function Send(call: Call): Call { call.(status := Sending, sent := call.sent + 1) }

  function AcquireStep(c: Config, s: System, id: CallId, at: int): System
    requires c.Valid() && id in s.calls
  {
    var (bucket, grant) := Begin(c, s.bucket, at);
    var call := s.calls[id];
    match grant
    case Granted => s.(bucket := bucket, now := at, calls := s.calls[id := Send(call)], requests := s.requests + 1)
    case MustSleep(w) => s.(bucket := bucket, now := at, calls := s.calls[id := call.(status := Asleep(at + w))])
    case Refused(_) => s.(bucket := bucket, now := at, calls := s.calls[id := call.(status := Finished)])
  }

  function Apply(c: Config, s: System, step: Step): System
    requires c.Valid() && (step.Start? || step.id in s.calls)
  {
    match step
    case Start(id, at, isQuery) => s.(now := at, calls := s.calls[id := Call(isQuery, 0, Wanting, 0, [])])
    case Acquire(id, at) => AcquireStep(c, s, id, at)
    case Wake(id, at) =>
      s.(bucket := Finish(c, s.bucket, at), now := at, calls := s.calls[id := Send(s.calls[id])],
         requests := s.requests + 1,
         forgiven := if Clamps(c, s.bucket, at) then s.forgiven + 1 else s.forgiven)
    case Settle(id, at, outcome, jitter) =>
      var call := s.calls[id];
      var settled := call.(outcomes := call.outcomes + [outcome]);
      s.(now := at, calls := s.calls[id :=
        if RetriesAfter(outcome, call.attempt, RetryPolicyFor(call.isQuery))
        then settled.(status := BackingOff(at as real + DelayMs(outcome, call.attempt, jitter)))
        else settled.(status := Finished)])
    case Retry(id, at) =>
      var call := s.calls[id];
      s.(now := at, calls := s.calls[id := call.(attempt := call.attempt + 1, status := Wanting)])
  }

  ghost predicate IsRun(c: Config, s: System, run: seq<Step>)
    requires c.Valid()
    decreases |run|
  {
    run != [] ==> Enabled(s, run[0]) && IsRun(c, Apply(c, s, run[0]), run[1..])
  }

  ghost function After(c: Config, s: System, run: seq<Step>): System
    requires c.Valid() && IsRun(c, s, run)
    decreases |run|
  {
    if run == [] then s else After(c, Apply(c, s, run[0]), run[1..])
  }

  ghost predicate Inv(c: Config, s: System) {
    c.Valid() && Bounded(c, s.bucket) && s.bucket.lastRefillMs <= s.now
  }

  lemma {:induction false} StepCharges(c: Config, s: System, step: Step)
    requires Inv(c, s) && Enabled(s, step)
    ensures var after := Apply(c, s, step);
            && Inv(c, after) && after.now == step.at
            && Level(c, after.bucket, step.at) + (after.requests - s.requests) as real
               <= Level(c, s.bucket, step.at) + (after.forgiven - s.forgiven) as real
            && 0 <= after.forgiven - s.forgiven <= (if step.Wake? then 1 else 0)
  {
    GrantsAreCharged(c, s.bucket, step.at);
    LevelIsBounded(c, s.bucket, step.at);
  }

  function Wakes(run: seq<Step>): nat {
    if run == [] then 0 else (if run[0].Wake? then 1 else 0) + Wakes(run[1..])
  }

  lemma {:induction false} RunCharges(c: Config, s: System, run: seq<Step>, from: int)
    requires Inv(c, s) && IsRun(c, s, run) && s.now <= from && (run != [] ==> from <= run[0].at)
    ensures var after := After(c, s, run);
            var end := if run == [] then from else after.now;
            && Inv(c, after) && from <= end && after.now <= end
            && Level(c, after.bucket, end) + (after.requests - s.requests) as real
               <= Level(c, s.bucket, from) + Earned(c, from, end) + (after.forgiven - s.forgiven) as real
            && 0 <= after.forgiven - s.forgiven <= Wakes(run)
    decreases |run|
  {
    if run == [] {
      assert Earned(c, from, from) == 0.0;
    } else {
      var next := Apply(c, s, run[0]);
      var at := run[0].at;
      StepCharges(c, s, run[0]);
      RunCharges(c, next, run[1..], at);
      LevelGrowsWithTime(c, s.bucket, from, at);
      EarnedAdds(c, from, at, After(c, s, run).now);
    }
  }

  lemma {:induction false} EarnedAdds(c: Config, a: int, b: int, d: int)
    ensures Earned(c, a, b) + Earned(c, b, d) == Earned(c, a, d)
  {
    var x, y := (b - a) as real / MS_PER_SECOND, (d - b) as real / MS_PER_SECOND;
    assert (d - a) as real / MS_PER_SECOND == x + y;
  }

  /**
   The rate law, for every run of any number of concurrent calls: from any
   reachable moment, the requests sent between `from` and the end of the run,
   retries included, number at most capacity + rate * time plus the forgiven
   wakes, of which there is at most one per sleeping wake. The token count
   never leaves [0, capacity].
   */
  lemma {:induction false} RequestsInAnyInterval(c: Config, start: int, before: seq<Step>, run: seq<Step>, from: int)
    requires c.Valid() && IsRun(c, Initial(c, start), before)
    requires var s := After(c, Initial(c, start), before);
             IsRun(c, s, run) && s.now <= from && (run != [] ==> from <= run[0].at)
    ensures var s := After(c, Initial(c, start), before);
            var after := After(c, s, run);
            && (run != [] ==>
                 (after.requests - s.requests) as real
                 <= c.capacity + Earned(c, from, after.now) + (after.forgiven - s.forgiven) as real)
            && after.forgiven - s.forgiven <= Wakes(run)
            && Bounded(c, after.bucket)
  {
    RunCharges(c, Initial(c, start), before, start);
    var s := After(c, Initial(c, start), before);
    RunCharges(c, s, run, from);
    LevelIsBounded(c, s.bucket, from);
    if run != [] { LevelIsBounded(c, After(c, s, run).bucket, After(c, s, run).now); }
  }

  // ---------------------------------------------------------------- acquirers that do not overlap

  predicate SomeoneAsleep(s: System) {
    exists id | id in s.calls :: s.calls[id].status.Asleep?
  }

  /** No call enters `acquire` while another is asleep in it. */
  ghost predicate NonOverlapping(c: Config, s: System, run: seq<Step>)
    requires c.Valid() && IsRun(c, s, run)
    decreases |run|
  {
    run != [] ==> (run[0].Acquire? ==> !SomeoneAsleep(s)) && NonOverlapping(c, Apply(c, s, run[0]), run[1..])
  }

  /** The one sleeper will find a whole token. */
  ghost predicate SleeperIsSafe(c: Config, s: System) {
    && (forall a, b | a in s.calls && b in s.calls && s.calls[a].status.Asleep? && s.calls[b].status.Asleep? :: a == b)
    && (forall a | a in s.calls && s.calls[a].status.Asleep? ::
          s.bucket.lastRefillMs <= s.calls[a].status.wakeAt && !Clamps(c, s.bucket, s.calls[a].status.wakeAt))
  }

  lemma {:induction false} WaitIsNotNegative(c: Config, b: Bucket, now: int)
    requires c.Valid() && Begin(c, b, now).1.MustSleep?
    ensures Begin(c, b, now).1.waitMs >= 0
  {
    var missing := 1.0 - Level(c, b, now);
    assert missing / c.refillPerSecond * MS_PER_SECOND >= 0.0;
  }

  lemma {:induction false} StepKeepsSleeperSafe(c: Config, s: System, step: Step)
    requires Inv(c, s) && SleeperIsSafe(c, s) && Enabled(s, step) && (step.Acquire? ==> !SomeoneAsleep(s))
    ensures SleeperIsSafe(c, Apply(c, s, step)) && Apply(c, s, step).forgiven == s.forgiven
  {
    match step
    case Acquire(id, at) =>
      var (bucket, grant) := Begin(c, s.bucket, at);
      if grant.MustSleep? {
        WaitIsNotNegative(c, s.bucket, at);
        WaitYieldsAFullToken(c, s.bucket, at, at + grant.waitMs);
      }
    case Wake(id, at) =>
      LevelGrowsWithTime(c, s.bucket, s.calls[id].status.wakeAt, at);
    case _ =>
  }

  /** Acquirers that do not overlap never reach the clamp: no token is ever forgiven. */
  lemma {:induction false} NonOverlappingNeverClamps(c: Config, s: System, run: seq<Step>)
    requires Inv(c, s) && SleeperIsSafe(c, s) && IsRun(c, s, run) && NonOverlapping(c, s, run)
    ensures After(c, s, run).forgiven == s.forgiven
    ensures Inv(c, After(c, s, run)) && SleeperIsSafe(c, After(c, s, run))
    decreases |run|
  {
    if run != [] {
      StepCharges(c, s, run[0]);
      StepKeepsSleeperSafe(c, s, run[0]);
      NonOverlappingNeverClamps(c, Apply(c, s, run[0]), run[1..]);
    }
  }

  /** So from any moment of such a process, requests number at most capacity + rate * time, nothing forgiven. */
  lemma {:induction false} NonOverlappingRate(c: Config, start: int, before: seq<Step>, run: seq<Step>, from: int)
    requires c.Valid() && IsRun(c, Initial(c, start), before) && NonOverlapping(c, Initial(c, start), before)
    requires var s := After(c, Initial(c, start), before);
             IsRun(c, s, run) && NonOverlapping(c, s, run) && s.now <= from && (run != [] ==> from <= run[0].at)
    ensures var s := After(c, Initial(c, start), before);
            var after := After(c, s, run);
            run != [] ==> (after.requests - s.requests) as real <= c.capacity + Earned(c, from, after.now)
  {
    NonOverlappingNeverClamps(c, Initial(c, start), before);
    NonOverlappingNeverClamps(c, After(c, Initial(c, start), before), run);
    RequestsInAnyInterval(c, start, before, run, from);
  }

  /** With the defaults, any ten seconds of non-overlapping acquirers, at any moment of the process, send at most 180 requests. */
  lemma {:induction false} DefaultsSendAtMost180(start: int, before: seq<Step>, run: seq<Step>, from: int)
    requires var s0 := Initial(DEFAULT_CONFIG, start);
             IsRun(DEFAULT_CONFIG, s0, before) && NonOverlapping(DEFAULT_CONFIG, s0, before)
    requires var s := After(DEFAULT_CONFIG, Initial(DEFAULT_CONFIG, start), before);
             && IsRun(DEFAULT_CONFIG, s, run) && NonOverlapping(DEFAULT_CONFIG, s, run)
             && s.now <= from && (run != [] ==> from <= run[0].at)
             && After(DEFAULT_CONFIG, s, run).now <= from + 10_000
    ensures var s := After(DEFAULT_CONFIG, Initial(DEFAULT_CONFIG, start), before);
            After(DEFAULT_CONFIG, s, run).requests - s.requests <= 180
  {
    NonOverlappingRate(DEFAULT_CONFIG, start, before, run, from);
    var s := After(DEFAULT_CONFIG, Initial(DEFAULT_CONFIG, start), before);
    if run != [] { EarnedInTenSeconds(from, After(DEFAULT_CONFIG, s, run).now); }
  }

  lemma {:induction false} EarnedInTenSeconds(from: int, to: int)
    requires to <= from + 10_000
    ensures Earned(DEFAULT_CONFIG, from, to) <= 90.0
  {
  }

  // ---------------------------------------------------------------- the default limit is 180 per ten seconds

  /** `n` fresh queries that start and acquire at the same moment. */
  function Burst(first: CallId, n: nat, at: int): seq<Step>
    decreases n
  {
    if n == 0 then [] else [Start(first, at, true), Acquire(first, at)] + Burst(first + 1, n - 1, at)
  }

  lemma {:induction false} RunsCompose(c: Config, s: System, a: seq<Step>, b: seq<Step>)
    requires c.Valid() && IsRun(c, s, a) && IsRun(c, After(c, s, a), b)
    ensures IsRun(c, s, a + b) && After(c, s, a + b) == After(c, After(c, s, a), b)
    ensures NonOverlapping(c, s, a) && NonOverlapping(c, After(c, s, a), b) ==> NonOverlapping(c, s, a + b)
    decreases |a|
  {
    if a == [] {
      assert a + b == b;
    } else {
      assert (a + b)[1..] == a[1..] + b;
      RunsCompose(c, Apply(c, s, a[0]), a[1..], b);
    }
  }

  ghost predicate AwakeAndBelow(s: System, first: CallId) {
    !SomeoneAsleep(s) && forall id | id in s.calls :: id < first
  }

  lemma {:induction false} OneImmediateRequest(c: Config, s: System, id: CallId, at: int)
    requires Inv(c, s) && s.now <= at && AwakeAndBelow(s, id) && Level(c, s.bucket, at) >= 1.0
    ensures var pair := [Start(id, at, true), Acquire(id, at)];
            && IsRun(c, s, pair) && NonOverlapping(c, s, pair)
            && var after := After(c, s, pair);
               && Inv(c, after) && after.now == at && AwakeAndBelow(after, id + 1)
               && after.requests == s.requests + 1 && after.bucket.lastRefillMs == at
               && Level(c, after.bucket, at) == Level(c, s.bucket, at) - 1.0
  {
    var start, acquire := Start(id, at, true), Acquire(id, at);
    var started := Apply(c, s, start);
    GrantsAreCharged(c, s.bucket, at);
    StepCharges(c, s, start);
    StepCharges(c, started, acquire);
    assert !SomeoneAsleep(started) && started.calls[id].status.Wanting?;
    TwoSteps(c, s, start, acquire);
    var sent := Apply(c, started, acquire);
    assert sent.calls == s.calls[id := Send(started.calls[id])];
  }

  lemma {:induction false} TwoSteps(c: Config, s: System, a: Step, b: Step)
    requires c.Valid() && Enabled(s, a) && Enabled(Apply(c, s, a), b)
    ensures IsRun(c, s, [a, b]) && After(c, s, [a, b]) == Apply(c, Apply(c, s, a), b)
    ensures (a.Acquire? ==> !SomeoneAsleep(s)) && (b.Acquire? ==> !SomeoneAsleep(Apply(c, s, a))) ==>
              NonOverlapping(c, s, [a, b])
  {
    var mid := Apply(c, s, a);
    assert [a, b][1..] == [b] && [b][1..] == [];
    var end := Apply(c, mid, b);
    assert IsRun(c, end, []) && After(c, end, []) == end;
    assert IsRun(c, mid, [b]) && After(c, mid, [b]) == end;
  }

  lemma {:induction false} BurstSends(c: Config, s: System, first: CallId, n: nat, at: int)
    requires Inv(c, s) && s.now <= at && AwakeAndBelow(s, first) && Level(c, s.bucket, at) >= n as real
    ensures IsRun(c, s, Burst(first, n, at)) && NonOverlapping(c, s, Burst(first, n, at))
    ensures var after := After(c, s, Burst(first, n, at));
            && Inv(c, after) && after.now <= at && AwakeAndBelow(after, first + n)
            && after.requests == s.requests + n
            && Level(c, after.bucket, at) == Level(c, s.bucket, at) - n as real
            && (n > 0 ==> after.bucket.lastRefillMs == at && after.now == at)
    decreases n
  {
    if n > 0 {
      OneImmediateRequest(c, s, first, at);
      var pair := [Start(first, at, true), Acquire(first, at)];
      var next := After(c, s, pair);
      BurstSends(c, next, first + 1, n - 1, at);
      RunsCompose(c, s, pair, Burst(first + 1, n - 1, at));
    }
  }

  /** The bound is met: 90 requests at 0 ms and 90 more at 10 000 ms, well over the 100 the server is said to allow. */
  lemma {:induction false} DefaultsPermit180()
    ensures var c := DEFAULT_CONFIG;
            var run := Burst(0, 90, 0) + Burst(90, 90, 10_000);
            && IsRun(c, Initial(c, 0), run) && NonOverlapping(c, Initial(c, 0), run)
            && After(c, Initial(c, 0), run).now == 10_000
            && After(c, Initial(c, 0), run).requests == 180
  {
    var c := DEFAULT_CONFIG;
    var s := Initial(c, 0);
    BurstSends(c, s, 0, 90, 0);
    var empty := After(c, s, Burst(0, 90, 0));
    assert Level(c, empty.bucket, 0) == 0.0 && empty.bucket.lastRefillMs == 0;
    assert Level(c, empty.bucket, 10_000) == 90.0;
    BurstSends(c, empty, 90, 90, 10_000);
    RunsCompose(c, s, Burst(0, 90, 0), Burst(90, 90, 10_000));
  }

  /** A run of non-overlapping acquirers whose steps fall between two moments. */
  ghost predicate Within(c: Config, s: System, from: int, to: int, run: seq<Step>)
    requires c.Valid()
  {
    && IsRun(c, s, run) && NonOverlapping(c, s, run)
    && (run != [] ==> from <= run[0].at) && After(c, s, run).now <= to
  }

  /** With the defaults, `n` requests can be sent in the ten seconds that start at `from`. */
  ghost predicate CanSend(s: System, from: int, n: int) {
    var c := DEFAULT_CONFIG;
    exists run :: Within(c, s, from, from + 10_000, run) && After(c, s, run).requests - s.requests >= n
  }

  lemma {:induction false} RefilledByThen(c: Config, b: Bucket, from: int, later: int, m: nat)
    requires c.Valid() && Bounded(c, b) && b.lastRefillMs <= from <= later
    requires m as real <= c.capacity && m as real <= Earned(c, from, later)
    ensures Level(c, b, later) >= m as real
  {
    EarnedAdds(c, b.lastRefillMs, from, later);
    LevelGrowsWithTime(c, FullBucket(c, b.lastRefillMs), b.lastRefillMs, from);
    assert (from - b.lastRefillMs) as real / MS_PER_SECOND >= 0.0;
    assert Earned(c, b.lastRefillMs, from) >= 0.0;
  }

  lemma {:induction false} UnusedId(ids: set<CallId>) returns (first: CallId)
    ensures forall id | id in ids :: id < first
  {
    first := 0;
    if ids != {} {
      var some :| some in ids;
      var other := UnusedId(ids - {some});
      first := if some < other then other else some + 1;
      forall id | id in ids ensures id < first { assert id == some || id in ids - {some}; }
    }
  }

  /** `n` requests at one moment and `m` at a later one. */
  function TwoBursts(first: CallId, n: nat, from: int, m: nat, later: int): seq<Step> {
    Burst(first, n, from) + Burst(first + n, m, later)
  }

  lemma {:induction false} TwoBurstsSend(c: Config, s: System, first: CallId, n: nat, from: int, m: nat, later: int)
    requires Inv(c, s) && s.now <= from <= later && AwakeAndBelow(s, first)
    requires Level(c, s.bucket, from) >= n as real
    requires 0 < m && m as real <= c.capacity && m as real <= Earned(c, from, later)
    ensures var run := TwoBursts(first, n, from, m, later);
            && IsRun(c, s, run) && NonOverlapping(c, s, run)
            && After(c, s, run).now == later
            && After(c, s, run).requests == s.requests + n + m
  {
    BurstSends(c, s, first, n, from);
    var between := After(c, s, Burst(first, n, from));
    RefilledByThen(c, between.bucket, from, later, m);
    BurstSends(c, between, first + n, m, later);
    RunsCompose(c, s, Burst(first, n, from), Burst(first + n, m, later));
  }

  lemma {:induction false} TwoBurstsStart(first: CallId, n: nat, from: int, m: nat, later: int)
    requires m > 0 && from <= later
    ensures var run := TwoBursts(first, n, from, m, later); run != [] && from <= run[0].at
  {
    var one, two := Burst(first, n, from), Burst(first + n, m, later);
    assert two[0].at == later;
    assert n > 0 ==> one[0].at == from;
    assert n == 0 ==> one + two == two;
  }

  lemma {:induction false} MostIsSent(c: Config, s: System, from: int, m: nat, later: int) returns (run: seq<Step>)
    requires Inv(c, s) && !SomeoneAsleep(s) && s.now <= from <= later
    requires 0 < m && m as real <= c.capacity && m as real <= Earned(c, from, later)
    ensures Within(c, s, from, later, run)
    ensures After(c, s, run).requests - s.requests == Level(c, s.bucket, from).Floor + m
  {
    var first := UnusedId(s.calls.Keys);
    LevelIsBounded(c, s.bucket, from);
    var n: nat := Level(c, s.bucket, from).Floor;
    TwoBurstsSend(c, s, first, n, from, m, later);
    TwoBurstsStart(first, n, from, m, later);
    run := TwoBursts(first, n, from, m, later);
  }

  lemma {:induction false} NoMoreIsSent(s: System, from: int, run: seq<Step>)
    requires Inv(DEFAULT_CONFIG, s) && !SomeoneAsleep(s) && s.now <= from
    requires Within(DEFAULT_CONFIG, s, from, from + 10_000, run)
    ensures After(DEFAULT_CONFIG, s, run).requests - s.requests <= Level(DEFAULT_CONFIG, s.bucket, from).Floor + 90
  {
    var c := DEFAULT_CONFIG;
    LevelIsBounded(c, s.bucket, from);
    NonOverlappingNeverClamps(c, s, run);
    RunCharges(c, s, run, from);
    if run != [] {
      var after := After(c, s, run);
      LevelIsBounded(c, after.bucket, after.now);
      EarnedInTenSeconds(from, after.now);
    }
  }

  /**
   What ten seconds can send, from any moment at which nobody is asleep: exactly
   the whole tokens held then and 90 more.
   */
  lemma {:induction false} CanSendIff(s: System, from: int, n: int)
    requires Inv(DEFAULT_CONFIG, s) && !SomeoneAsleep(s) && s.now <= from
    ensures CanSend(s, from, n) <==> n <= Level(DEFAULT_CONFIG, s.bucket, from).Floor + 90
  {
    assert Earned(DEFAULT_CONFIG, from, from + 10_000) == 90.0;
    var most := MostIsSent(DEFAULT_CONFIG, s, from, 90, from + 10_000);
    if CanSend(s, from, n) {
      var run :| Within(DEFAULT_CONFIG, s, from, from + 10_000, run) && After(DEFAULT_CONFIG, s, run).requests - s.requests >= n;
      NoMoreIsSent(s, from, run);
    }
  }

  /** The 100 the bucket is meant to stay under can be passed exactly when it holds at least 11 tokens, at any moment of any run. */
  lemma {:induction false} HundredIsPassedIff(start: int, before: seq<Step>, from: int)
    requires IsRun(DEFAULT_CONFIG, Initial(DEFAULT_CONFIG, start), before)
    requires var s := After(DEFAULT_CONFIG, Initial(DEFAULT_CONFIG, start), before); !SomeoneAsleep(s) && s.now <= from
    ensures var s := After(DEFAULT_CONFIG, Initial(DEFAULT_CONFIG, start), before);
            CanSend(s, from, 101) <==> Level(DEFAULT_CONFIG, s.bucket, from) >= 11.0
  {
    RunCharges(DEFAULT_CONFIG, Initial(DEFAULT_CONFIG, start), before, if before == [] then start else before[0].at);
    CanSendIff(After(DEFAULT_CONFIG, Initial(DEFAULT_CONFIG, start), before), from, 101);
  }

  /** One token, refilled once a second. */
  const TIGHT_CONFIG := Config(1.0, 1.0, DEFAULT_MAX_WAIT_MS)

  /** Three calls at once on a full bucket: two of them sleep until the same moment. */
  lemma {:induction false} TwoCallsSleep()
    ensures var c := TIGHT_CONFIG;
            var run := ([Start(0, 0, true), Acquire(0, 0)] + [Start(1, 0, true), Acquire(1, 0)]) + [Start(2, 0, true), Acquire(2, 0)];
            && IsRun(c, Initial(c, 0), run)
            && var s := After(c, Initial(c, 0), run);
               && s.bucket == Bucket(0.0, 0) && s.now == 0 && s.requests == 1 && s.forgiven == 0
               && 1 in s.calls && s.calls[1].status == Asleep(1000) && 2 in s.calls && s.calls[2].status == Asleep(1000)
  {
    var c := TIGHT_CONFIG;
    var s0 := Initial(c, 0);
    assert Earned(c, 0, 0) == 0.0 && MsUntilNextToken(c, 0.0) == 1000;
    var s1 := Apply(c, Apply(c, s0, Start(0, 0, true)), Acquire(0, 0));
    assert s1.bucket == Bucket(0.0, 0) && s1.requests == 1 && s1.calls.Keys == {0};
    TwoSteps(c, s0, Start(0, 0, true), Acquire(0, 0));
    var s2 := Apply(c, Apply(c, s1, Start(1, 0, true)), Acquire(1, 0));
    assert s2.bucket == Bucket(0.0, 0) && s2.calls.Keys == {0, 1} && s2.calls[1].status == Asleep(1000);
    TwoSteps(c, s1, Start(1, 0, true), Acquire(1, 0));
    RunsCompose(c, s0, [Start(0, 0, true), Acquire(0, 0)], [Start(1, 0, true), Acquire(1, 0)]);
    TwoSteps(c, s2, Start(2, 0, true), Acquire(2, 0));
    RunsCompose(c, s0, [Start(0, 0, true), Acquire(0, 0)] + [Start(1, 0, true), Acquire(1, 0)],
                [Start(2, 0, true), Acquire(2, 0)]);
  }

  /** Why the sleepers are counted: in one second three requests go out, though capacity and refill together make two. */
  lemma {:induction false} OverlappingSleepersGetAFreeToken() returns (whole: seq<Step>)
    ensures var c := TIGHT_CONFIG;
            && IsRun(c, Initial(c, 0), whole)
            && var after := After(c, Initial(c, 0), whole);
               && after.now == 1000 && after.forgiven == 1
               && after.requests as real > c.capacity + Earned(c, 0, 1000)
  {
    var c := TIGHT_CONFIG;
    var run := ([Start(0, 0, true), Acquire(0, 0)] + [Start(1, 0, true), Acquire(1, 0)]) + [Start(2, 0, true), Acquire(2, 0)];
    TwoCallsSleep();
    var s := After(c, Initial(c, 0), run);
    assert Earned(c, 0, 1000) == 1.0 && Earned(c, 1000, 1000) == 0.0;
    var woken := Apply(c, s, Wake(1, 1000));
    assert woken.bucket == Bucket(0.0, 1000) && woken.forgiven == 0;
    TwoSteps(c, s, Wake(1, 1000), Wake(2, 1000));
    RunsCompose(c, Initial(c, 0), run, [Wake(1, 1000), Wake(2, 1000)]);
    whole := run + [Wake(1, 1000), Wake(2, 1000)];
  }

  // ---------------------------------------------------------------- retries

  ghost predicate CallIsSound(call: Call) {
    var policy := RetryPolicyFor(call.isQuery);
    && call.attempt <= policy.maxRetries
    && call.sent <= call.attempt + (if call.status.Wanting? || call.status.Asleep? then 0 else 1)
    && (forall i | 0 <= i < |call.outcomes| - 1 :: RetriesAfter(call.outcomes[i], i, policy))
    && match call.status
       case Wanting => |call.outcomes| == call.attempt == call.sent && AllRetried(call, policy)
       case Asleep(_) => |call.outcomes| == call.attempt == call.sent && AllRetried(call, policy)
       case Sending => |call.outcomes| == call.attempt && call.sent == call.attempt + 1 && AllRetried(call, policy)
       case BackingOff(_) =>
         |call.outcomes| == call.attempt + 1 == call.sent && call.attempt < policy.maxRetries && AllRetried(call, policy)
       case Finished => |call.outcomes| == call.sent
  }

  ghost predicate AllRetried(call: Call, policy: RetryPolicy) {
    forall i | 0 <= i < |call.outcomes| :: RetriesAfter(call.outcomes[i], i, policy)
  }

  lemma {:induction false} StepKeepsCallsSound(c: Config, s: System, step: Step)
    requires c.Valid() && Enabled(s, step) && forall id | id in s.calls :: CallIsSound(s.calls[id])
    ensures forall id | id in Apply(c, s, step).calls :: CallIsSound(Apply(c, s, step).calls[id])
  {
    var after := Apply(c, s, step);
    assert after.calls == s.calls[step.id := after.calls[step.id]];
    assert CallIsSound(after.calls[step.id]);
  }

  lemma {:induction false} RunKeepsCallsSound(c: Config, s: System, run: seq<Step>)
    requires c.Valid() && IsRun(c, s, run) && forall id | id in s.calls :: CallIsSound(s.calls[id])
    ensures forall id | id in After(c, s, run).calls :: CallIsSound(After(c, s, run).calls[id])
    decreases |run|
  {
    if run != [] {
      StepKeepsCallsSound(c, s, run[0]);
      RunKeepsCallsSound(c, Apply(c, s, run[0]), run[1..]);
    }
  }

  /**
   A call that asks for a token is sent at once when one is there, ends when
   none will be there within the longest allowed wait, and otherwise sleeps until
   the first millisecond at which one is.
   */
  lemma {:induction false} AcquireDecides(c: Config, s: System, id: CallId, at: int)
    requires c.Valid() && Enabled(s, Acquire(id, at)) && id in s.calls
    ensures var level, after := Level(c, s.bucket, at), Apply(c, s, Acquire(id, at));
            var status := after.calls[id].status;
            && (status.Sending? <==> level >= 1.0)
            && (status.Finished? <==> level < 1.0 && Clamps(c, Bucket(level, at), at + c.maxWaitMs))
            && (!status.Sending? && !status.Finished? ==>
                  status.Asleep? && !Clamps(c, after.bucket, status.wakeAt) && Clamps(c, after.bucket, status.wakeAt - 1))
            && after.requests == s.requests + (if status.Sending? then 1 else 0)
            && after.calls == s.calls[id := s.calls[id].(status := status, sent := after.calls[id].sent)]
            && after.calls[id].sent == s.calls[id].sent + (if status.Sending? then 1 else 0)
  {
    GrantIff(c, s.bucket, at, 0);
    var (after, grant) := Begin(c, s.bucket, at);
    if grant.MustSleep? {
      WaitYieldsAFullToken(c, s.bucket, at, at + grant.waitMs);
      WaitYieldsAFullToken(c, s.bucket, at, at + grant.waitMs - 1);
    }
  }

  /** A settled request is followed by another attempt after the stated wait, within its jitter, or ends the call. */
  lemma {:induction false} SettleDecides(c: Config, s: System, id: CallId, at: int, outcome: Outcome, jitter: real)
    requires c.Valid() && Enabled(s, Settle(id, at, outcome, jitter)) && id in s.calls
    ensures var before, after := s.calls[id], Apply(c, s, Settle(id, at, outcome, jitter)).calls[id];
            && after.outcomes == before.outcomes + [outcome]
            && after.status == if SentAgain(before.isQuery, outcome, before.attempt)
                               then BackingOff(at as real + WaitBefore(outcome, before.attempt, jitter)) else Finished
    ensures var wait := WaitBefore(outcome, s.calls[id].attempt, jitter);
            outcome != HttpStatus(429) ==> if s.calls[id].attempt == 0 then 125.0 <= wait < 375.0 else 250.0 <= wait < 750.0
  {
    var before := s.calls[id];
    RetriesAfterIff(before.isQuery, outcome, before.attempt);
    if SentAgain(before.isQuery, outcome, before.attempt) { WaitsByValue(before.isQuery, outcome, before.attempt, jitter); }
  }

  /**
   In every run a query is sent at most three times and a mutation at most
   twice, and every request but the last ended in an outcome that is sent again:
   for a mutation only a 429, that is, a request never admitted.
   */
  lemma {:induction false} ResendsAreBounded(c: Config, start: int, run: seq<Step>, id: CallId)
    requires c.Valid() && IsRun(c, Initial(c, start), run) && id in After(c, Initial(c, start), run).calls
    ensures var call := After(c, Initial(c, start), run).calls[id];
            && call.sent <= (if call.isQuery then 3 else 2)
            && (forall i: nat | i < call.sent - 1 :: i < |call.outcomes| && SentAgain(call.isQuery, call.outcomes[i], i))
  {
    RunKeepsCallsSound(c, Initial(c, start), run);
    var call := After(c, Initial(c, start), run).calls[id];
    forall i: nat, outcome { RetriesAfterIff(call.isQuery, outcome, i); }
    assert CallIsSound(call);
  }
}
