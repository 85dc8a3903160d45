/** Retry and circuit breaker (backend/infra/retry.py).

    The breaker's two fields are proved to be a summary of its whole history of
    outcomes. Every method runs under the breaker's lock, so any interleaving of
    callers is some sequence of these calls, and the history is arbitrary. */
module CircuitBreaker {
  import opened RealMath

  // One recorded outcome of a protected call.
  datatype Outcome = Succeeded | Failed(at: real)

  // ---- what the history says ----

  // Failures since the last success.
  function Streak(history: seq<Outcome>): nat {
    if history == [] || history[|history| - 1].Succeeded? then
      0
    else
      Streak(history[..|history| - 1]) + 1
  }

  // Open since the last failure, once the streak has reached the threshold.
  function OpenedAt(history: seq<Outcome>, threshold: int): Option<real> {
    if Streak(history) > 0 && Streak(history) >= threshold then
      Some(history[|history| - 1].at)
    else
      None
  }

  // A call is let through unless the breaker is open and still cooling down.
  predicate Admits(history: seq<Outcome>, threshold: int, cooldown: real, now: real) {
    match OpenedAt(history, threshold)
    case None => true
    case Some(at) => now - at >= cooldown
  }

  lemma StreakSnoc(history: seq<Outcome>, o: Outcome)
    ensures Streak(history + [o]) == if o.Succeeded? then 0 else Streak(history) + 1
  {
  }

  // The streak counts back to the last success and no further.
  lemma {:induction false} StreakMeaning(history: seq<Outcome>)
    ensures Streak(history) <= |history|
    ensures forall i :: |history| - Streak(history) <= i < |history| ==> history[i].Failed?
    ensures Streak(history) < |history| ==> history[|history| - Streak(history) - 1].Succeeded?
  {
    if history != [] && history[|history| - 1].Failed? {
      var front := history[..|history| - 1];
      StreakMeaning(front);
      forall i | |history| - Streak(history) <= i < |history|
        ensures history[i].Failed?
      {
        assert i < |front| ==> front[i] == history[i];
      }
    }
  }

  // What must have happened for a call to be refused: `threshold` failures in a row, the last of them
  // less than one cooldown ago.
  lemma RefusedIff(history: seq<Outcome>, threshold: int, cooldown: real, now: real)
    requires threshold > 0
    ensures !Admits(history, threshold, cooldown, now) <==>
      && |history| >= threshold
      && (forall i :: |history| - threshold <= i < |history| ==> history[i].Failed?)
      && now - history[|history| - 1].at < cooldown
  {
    StreakMeaning(history);
  }

  // ---- the breaker ----

  class Breaker {
    const threshold: int
    const cooldown: real
    var failures: nat
    var openedAt: Option<real>
    ghost var history: seq<Outcome>

    ghost predicate Valid()
      reads this
    {
      failures == Streak(history) && openedAt == OpenedAt(history, threshold)
    }

    constructor (threshold: int, cooldown: real)
      ensures Valid() && history == []
      ensures this.threshold == threshold && this.cooldown == cooldown
    {
      this.threshold, this.cooldown := threshold, cooldown;
      failures, openedAt, history := 0, None, [];
    }

    // The result stands for not raising `CircuitOpenError`.
    method BeforeCall(now: real) returns (admitted: bool)
      requires Valid()
      ensures admitted == Admits(history, threshold, cooldown, now)
    {
      if openedAt.None? {
        return true;
      }
      if now - openedAt.value < cooldown {
        return false;
      }
      return true;
    }

    method RecordSuccess()
      requires Valid()
      modifies this
      ensures Valid() && history == old(history) + [Succeeded]
    {
      history := history + [Succeeded];
      failures := 0;
      openedAt := None;
    }

    method RecordFailure(now: real)
      requires Valid()
      modifies this
      ensures Valid() && history == old(history) + [Failed(now)]
    {
      StreakSnoc(history, Failed(now));
      history := history + [Failed(now)];
      failures := failures + 1;
      if failures >= threshold {
        openedAt := Some(now);
      }
    }

    // What other callers of the same service record while this one is away.
    method Interfere(others: seq<Outcome>)
      requires Valid()
      modifies this
      ensures Valid() && history == old(history) + others
    {
      for i := 0 to |others|
        invariant Valid() && history == old(history) + others[..i]
      {
        match others[i] {
          case Succeeded => RecordSuccess();
          case Failed(at) => RecordFailure(at);
        }
      }
    }
  }

  // ---- the retry wrapper ----

  datatype RetryConfig = RetryConfig(maxAttempts: int, baseDelay: real, maxDelay: real, jitter: real)

  // What one invocation of the wrapped function does.
  datatype Invocation<V, E> = Returns(value: V) | Raises(error: E, retryable: bool)

  datatype CallResult<V, E> =
    | Returned(value: V)
    | CircuitOpen
    | RetryExhausted(attempts: int, lastError: E)
    | Propagated(error: E)
    | NoAttemptMade

  // Exponential backoff after attempt n (counted from 1), capped, plus the draw of jitter.
  function BackoffSeconds(n: nat, config: RetryConfig, draw: real): real
    requires n > 0
  {
    Min(config.baseDelay * Pow(2.0, n - 1), config.maxDelay) + draw
  }

  // Sleeping after each of the first n attempts.
  function TotalBackoff(config: RetryConfig, draws: seq<real>, n: nat): real
    requires n <= |draws|
  {
    if n == 0 then 0.0 else TotalBackoff(config, draws, n - 1) + BackoffSeconds(n, config, draws[n - 1])
  }

  function LongestSleep(config: RetryConfig): real {
    config.maxDelay + config.jitter
  }

  // c added up n times.
  function Repeated(n: nat, c: real): real {
    if n == 0 then 0.0 else Repeated(n - 1, c) + c
  }

  lemma {:induction false} RepeatedIsProduct(n: nat, c: real)
    ensures Repeated(n, c) == n as real * c
  {
    if n != 0 {
      RepeatedIsProduct(n - 1, c);
      assert n as real * c == (n - 1) as real * c + c;
    }
  }

  lemma {:induction false} TotalBackoffCapped(config: RetryConfig, draws: seq<real>, n: nat)
    requires n <= |draws| && forall i :: 0 <= i < n ==> draws[i] <= config.jitter
    ensures TotalBackoff(config, draws, n) <= Repeated(n, LongestSleep(config))
  {
    if n != 0 {
      TotalBackoffCapped(config, draws, n - 1);
    }
  }

  // n sleeps take at most n times the longest delay and jitter.
  lemma {:induction false} TotalBackoffBound(config: RetryConfig, draws: seq<real>, n: nat)
    requires n <= |draws| && forall i :: 0 <= i < n ==> draws[i] <= config.jitter
    ensures TotalBackoff(config, draws, n) <= n as real * LongestSleep(config)
  {
    TotalBackoffCapped(config, draws, n);
    RepeatedIsProduct(n, LongestSleep(config));
  }

  // Up to one sleep fewer than attempts.
  function SleepBudget(config: RetryConfig): real {
    if config.maxAttempts <= 1 then 0.0 else (config.maxAttempts - 1) as real * LongestSleep(config)
  }

  lemma {:induction false} RepeatedGrows(m: nat, n: nat, c: real)
    requires m <= n && c >= 0.0
    ensures Repeated(m, c) <= Repeated(n, c)
  {
    if m < n {
      RepeatedGrows(m, n - 1, c);
    }
  }

  lemma SleepsWithinBudget(config: RetryConfig, draws: seq<real>, n: nat)
    requires n <= |draws| && forall i :: 0 <= i < n ==> draws[i] <= config.jitter
    requires LongestSleep(config) >= 0.0 && n < config.maxAttempts
    ensures TotalBackoff(config, draws, n) <= SleepBudget(config)
  {
    TotalBackoffCapped(config, draws, n);
    RepeatedGrows(n, config.maxAttempts - 1, LongestSleep(config));
    RepeatedIsProduct(config.maxAttempts - 1, LongestSleep(config));
  }

  lemma NothingSleptWithinBudget(config: RetryConfig)
    ensures LongestSleep(config) >= 0.0 ==> 0.0 <= SleepBudget(config)
  {
    if LongestSleep(config) >= 0.0 && config.maxAttempts > 1 {
      MulNonNegative((config.maxAttempts - 1) as real, LongestSleep(config));
    }
  }

  // Everything the world contributes to a call: attempt i invokes the function with result `results[i]`,
  // fails at `clock[i]`, draws `draws[i]` of jitter, and `others[i]` is what other callers of the service
  // record on the breaker before attempt i's own outcome.
  datatype World<V, E> = World(
    results: seq<Invocation<V, E>>, clock: seq<real>, draws: seq<real>, others: seq<seq<Outcome>>)
  {
    predicate Covers(config: RetryConfig) {
      && |results| == |clock| == |draws| == |others|
      && |results| as int >= config.maxAttempts
      && forall i :: 0 <= i < |draws| ==> 0.0 <= draws[i] <= config.jitter
    }

    // What the breaker records of attempt i itself: nothing when the error is not one to retry on.
    function OwnOutcome(i: nat): seq<Outcome>
      requires i < |results| == |clock|
    {
      match results[i]
      case Returns(_) => [Succeeded]
      case Raises(_, retryable) => if retryable then [Failed(clock[i])] else []
    }

    // What the first n attempts, all failing, leave in the history.
    function Trace(n: nat): seq<Outcome>
      requires n <= |clock| == |others|
    {
      if n == 0 then [] else Trace(n - 1) + others[n - 1] + [Failed(clock[n - 1])]
    }

    predicate AllRetryable(n: nat)
      requires n <= |results|
    {
      forall i :: 0 <= i < n ==> results[i].Raises? && results[i].retryable
    }
  }

  // One pass of the loop: others record first, then this attempt's own outcome, if it is one the
  // breaker counts.
  method Attempt<V, E>(breaker: Breaker, world: World<V, E>, i: nat)
    requires breaker.Valid() && i < |world.results| == |world.clock| == |world.others|
    modifies breaker
    ensures breaker.Valid()
    ensures breaker.history == old(breaker.history) + world.others[i] + world.OwnOutcome(i)
  {
    breaker.Interfere(world.others[i]);
    match world.results[i] {
      case Returns(_) => breaker.RecordSuccess();
      case Raises(_, retryable) =>
        if retryable {
          breaker.RecordFailure(world.clock[i]);
        }
    }
  }

  // Which attempt decided, and what every attempt left behind.
  ghost predicate Decided<V, E>(r: CallResult<V, E>, invoked: nat, before: seq<Outcome>, after: seq<Outcome>,
                                config: RetryConfig, world: World<V, E>)
    requires world.Covers(config) && 0 < invoked <= config.maxAttempts
  {
    match r
    case Returned(value) =>
      && world.AllRetryable(invoked - 1) && world.results[invoked - 1] == Returns(value)
      && after == before + world.Trace(invoked - 1) + world.others[invoked - 1] + [Succeeded]
    case Propagated(error) =>
      && world.AllRetryable(invoked - 1) && world.results[invoked - 1] == Raises(error, false)
      && after == before + world.Trace(invoked - 1) + world.others[invoked - 1]
    case RetryExhausted(attempts, lastError) =>
      && invoked == attempts == config.maxAttempts
      && world.AllRetryable(invoked) && world.results[invoked - 1] == Raises(lastError, true)
      && after == before + world.Trace(invoked)
    case _ => false
  }

  // The loop over the attempts.
  method RunAttempts<V, E>(breaker: Breaker, config: RetryConfig, world: World<V, E>)
    returns (r: CallResult<V, E>, invoked: nat, slept: real)
    requires breaker.Valid() && world.Covers(config) && config.maxAttempts > 0
    modifies breaker
    ensures breaker.Valid()
    ensures 0 < invoked <= config.maxAttempts && slept == TotalBackoff(config, world.draws, invoked - 1)
    ensures Decided(r, invoked, old(breaker.history), breaker.history, config, world)
  {
    invoked, slept := 0, 0.0;
    var i := 0;
    while true
      invariant i == invoked < config.maxAttempts && breaker.Valid()
      invariant world.AllRetryable(i)
      invariant breaker.history == old(breaker.history) + world.Trace(i)
      invariant slept == TotalBackoff(config, world.draws, i)
      decreases config.maxAttempts - i
    {
      invoked := invoked + 1;
      Attempt(breaker, world, i);
      match world.results[i] {
        case Returns(v) =>
          return Returned(v), invoked, slept;
        case Raises(e, retryable) =>
          if !retryable {
            return Propagated(e), invoked, slept;
          }
          assert breaker.history == old(breaker.history) + world.Trace(i + 1);
          if invoked == config.maxAttempts {
            return RetryExhausted(config.maxAttempts, e), invoked, slept;
          }
          slept := slept + BackoffSeconds(invoked, config, world.draws[i]);
          i := i + 1;
      }
    }
  }

  method Call<V, E>(breaker: Breaker, config: RetryConfig, entry: real, world: World<V, E>)
    returns (r: CallResult<V, E>, invoked: nat, slept: real)
    requires breaker.Valid() && world.Covers(config)
    modifies breaker
    ensures breaker.Valid()
    // the breaker is consulted once, at entry
    ensures r.CircuitOpen? <==> !Admits(old(breaker.history), breaker.threshold, breaker.cooldown, entry)
    ensures r.NoAttemptMade? <==> !r.CircuitOpen? && config.maxAttempts <= 0
    // bounds
    ensures invoked == 0 <==> r.CircuitOpen? || r.NoAttemptMade?
    ensures invoked == 0 ==> slept == 0.0 && breaker.history == old(breaker.history)
    ensures invoked > 0 ==> invoked <= config.maxAttempts && slept == TotalBackoff(config, world.draws, invoked - 1)
    ensures LongestSleep(config) >= 0.0 ==> slept <= SleepBudget(config)
    // the outcome
    ensures invoked > 0 ==> Decided(r, invoked, old(breaker.history), breaker.history, config, world)
    ensures r.Returned? ==> breaker.openedAt == None
    // exhausting at least `threshold` attempts trips the breaker, unless another caller got through
    ensures r.RetryExhausted? && config.maxAttempts >= breaker.threshold
            && (forall i :: 0 <= i < invoked ==> Succeeded !in world.others[i]) ==>
      breaker.openedAt == Some(world.clock[invoked - 1])
  {
    NothingSleptWithinBudget(config);
    var admitted := breaker.BeforeCall(entry);
    if !admitted {
      return CircuitOpen, 0, 0.0;
    }
    if config.maxAttempts <= 0 {
      return NoAttemptMade, 0, 0.0;
    }
    r, invoked, slept := RunAttempts(breaker, config, world);
    ghost var before := old(breaker.history);
    if LongestSleep(config) >= 0.0 {
      SleepsWithinBudget(config, world.draws, invoked - 1);
    }
    if r.Returned? {
      StreakSnoc(before + world.Trace(invoked - 1) + world.others[invoked - 1], Succeeded);
    }
    FailedTraceTrips(before, world, invoked, breaker.threshold);
  }

  // Leaving aside the jitter, which is added on top, each delay is twice the one before until the cap bites,
  // and stays at the cap from then on.
  lemma BackoffDoublesUpToCap(n: nat, config: RetryConfig, draw: real)
    requires n > 0 && config.baseDelay >= 0.0 && config.maxDelay >= 0.0
    ensures BackoffSeconds(1, config, 0.0) == Min(config.baseDelay, config.maxDelay)
    ensures BackoffSeconds(n + 1, config, 0.0) == Min(2.0 * BackoffSeconds(n, config, 0.0), config.maxDelay)
    ensures BackoffSeconds(n, config, draw) - BackoffSeconds(n, config, 0.0) == draw
  {
  }

  predicate AllFailed(outcomes: seq<Outcome>) {
    forall i :: 0 <= i < |outcomes| ==> outcomes[i].Failed?
  }

  lemma {:induction false} StreakExtends(history: seq<Outcome>, failures: seq<Outcome>)
    requires AllFailed(failures)
    ensures Streak(history + failures) == Streak(history) + |failures|
  {
    if failures == [] {
      assert history + failures == history;
    } else {
      var front, last := failures[..|failures| - 1], failures[|failures| - 1];
      assert history + failures == (history + front) + [last];
      StreakSnoc(history + front, last);
      StreakExtends(history, front);
    }
  }

  lemma {:induction false} TraceIsFailures<V, E>(world: World<V, E>, n: nat)
    requires n <= |world.clock| == |world.others|
    requires forall i :: 0 <= i < n ==> Succeeded !in world.others[i]
    ensures |world.Trace(n)| >= n
    ensures AllFailed(world.Trace(n))
    ensures n > 0 ==> world.Trace(n)[|world.Trace(n)| - 1] == Failed(world.clock[n - 1])
  {
    if n != 0 {
      TraceIsFailures(world, n - 1);
    }
  }

  lemma FailedTraceTrips<V, E>(history: seq<Outcome>, world: World<V, E>, n: nat, threshold: int)
    requires 0 < n <= |world.clock| == |world.others|
    ensures n >= threshold && (forall i :: 0 <= i < n ==> Succeeded !in world.others[i]) ==>
      OpenedAt(history + world.Trace(n), threshold) == Some(world.clock[n - 1])
  {
    if forall i :: 0 <= i < n ==> Succeeded !in world.others[i] {
      TraceIsFailures(world, n);
      StreakExtends(history, world.Trace(n));
    }
  }
}
