/** Retries: which errors are retried, how a call with retries ends, and how long it waits. The
    operation, the context and the random draw are parameters. */
module RetryPolicy {

  import opened Common

  /** An error and the errors it wraps, outermost first. */
  datatype Error = Error(text: string, chain: seq<Link>)

  /** What the policy looks at in one error of the chain: whether it is a network error, and whether
      it is the context's own error for a passed deadline or a cancellation. */
  datatype Link = Link(network: Option<NetworkError>, deadline: bool, canceled: bool)

  datatype NetworkError = NetworkError(temporary: bool, timeout: bool)

  /** Delays are whole nanoseconds. */
  datatype Config = Config(
    maxRetries: int, initialDelay: int, maxDelay: int, multiplier: real, jitterFactor: real,
    retryable: seq<string>, nonRetryable: seq<string>)

  datatype Outcome = Success | Failure(err: Error)

  /** How a call ends: without error, with the operation's error, or with the context's. */
  datatype Ending = Nil | Gave(err: Error) | ContextDone

  // ---------- Which errors are retried ----------

  predicate Contains(s: string, part: string) {
    exists i :: 0 <= i <= |s| - |part| && OccursAt(s, part, i)
  }

  predicate OccursAt(s: string, part: string, i: nat)
    requires i <= |s| - |part|
  {
    s[i..i + |part|] == part
  }

  predicate Matches(text: string, patterns: seq<string>) {
    exists k :: 0 <= k < |patterns| && Contains(Lower(text), Lower(patterns[k]))
  }

  /** errors.As for a network error: the first one in the chain. */
  function FirstNetwork(chain: seq<Link>): Option<NetworkError> {
    if chain == [] then None
    else if chain[0].network.Some? then chain[0].network
    else FirstNetwork(chain[1..])
  }

  lemma ContainsIs(s: string, part: string)
    ensures Contains(s, part) <==> exists a, b :: s == a + part + b
  {
    if Contains(s, part) {
      var i :| 0 <= i <= |s| - |part| && OccursAt(s, part, i);
      assert s == s[..i] + part + s[i + |part|..];
    }
    if a, b :| s == a + part + b {
      assert OccursAt(s, part, |a|);
    }
  }

  /** It is the network error of a position before which there is none. */
  lemma {:induction false} FirstNetworkIs(chain: seq<Link>)
    ensures FirstNetwork(chain).None? <==> forall i :: 0 <= i < |chain| ==> chain[i].network.None?
    ensures forall i :: 0 <= i < |chain| && chain[i].network.Some? && (forall j :: 0 <= j < i ==> chain[j].network.None?) ==>
      FirstNetwork(chain) == chain[i].network
  {
    if chain != [] {
      FirstNetworkIs(chain[1..]);
      assert forall i :: 0 < i < |chain| ==> chain[1..][i - 1] == chain[i];
    }
  }

  /** errors.Is for context.DeadlineExceeded. */
  predicate HasDeadline(chain: seq<Link>) {
    exists i :: 0 <= i < |chain| && chain[i].deadline
  }

  predicate HasCancellation(chain: seq<Link>) {
    exists i :: 0 <= i < |chain| && chain[i].canceled
  }

  predicate Transient(network: Option<NetworkError>) {
    network.Some? && (network.value.temporary || network.value.timeout)
  }

  method IsRetryable(config: Config, maybe: Option<Error>) returns (retry: bool)
    ensures retry <==> maybe.Some? && Retried(config, maybe.value)
    ensures retry <==>
      && maybe.Some?
      && (forall k :: 0 <= k < |config.nonRetryable| ==>
            !Contains(Lower(maybe.value.text), Lower(config.nonRetryable[k])))
      && ((exists k :: 0 <= k < |config.retryable| && Contains(Lower(maybe.value.text), Lower(config.retryable[k])))
          || FirstNetwork(maybe.value.chain) in {Some(NetworkError(true, true)), Some(NetworkError(true, false)),
                                                 Some(NetworkError(false, true))})
  {
    if maybe == None {
      return false;
    }
    var err := maybe.value;
    var text := Lower(err.text);
    for k := 0 to |config.nonRetryable|
      invariant forall j :: 0 <= j < k ==> !Contains(text, Lower(config.nonRetryable[j]))
    {
      if Contains(text, Lower(config.nonRetryable[k])) {
        return false;
      }
    }
    for k := 0 to |config.retryable|
      invariant forall j :: 0 <= j < k ==> !Contains(text, Lower(config.retryable[j]))
    {
      if Contains(text, Lower(config.retryable[k])) {
        return true;
      }
    }
    var network := FirstNetwork(err.chain);
    if network.Some? {
      return network.value.temporary || network.value.timeout;
    }
    if HasDeadline(err.chain) {
      return false;
    }
    if HasCancellation(err.chain) {
      return false;
    }
    return false;
  }

  /** No forbidding pattern, and either an allowing one or a transient network error. */
  predicate Retried(config: Config, err: Error) {
    && !Matches(err.text, config.nonRetryable)
    && (Matches(err.text, config.retryable) || Transient(FirstNetwork(err.chain)))
  }

  /** Go's context.DeadlineExceeded is itself a network error that calls itself a timeout. */
  predicate FromGo(chain: seq<Link>) {
    forall i :: 0 <= i < |chain| && chain[i].deadline ==> chain[i].network == Some(NetworkError(true, true))
  }

  lemma {:induction false} DeadlineIsNetworkError(chain: seq<Link>)
    requires FromGo(chain) && HasDeadline(chain)
    ensures FirstNetwork(chain).Some?
    ensures (forall i :: 0 <= i < |chain| && chain[i].network.Some? ==> Transient(chain[i].network)) ==>
      Transient(FirstNetwork(chain))
  {
    if chain[0].network.None? {
      var i :| 0 <= i < |chain| && chain[i].deadline;
      assert chain[1..][i - 1] == chain[i];
      DeadlineIsNetworkError(chain[1..]);
    }
  }

  /** The code says that a passed deadline is not retried. For any error that carries one, however
      wrapped, that check is not reached: the error is retried if and only if no pattern forbids it
      and a pattern allows it or the outermost network error in it is transient, which the
      deadline's own error is. */
  lemma PassedDeadlineIsRetriedIff(config: Config, err: Error)
    requires FromGo(err.chain) && HasDeadline(err.chain)
    ensures FirstNetwork(err.chain).Some?
    ensures (forall i :: 0 <= i < |err.chain| && err.chain[i].network.Some? ==> Transient(err.chain[i].network)) ==>
      (Retried(config, err) <==> !Matches(err.text, config.nonRetryable))
    ensures Retried(config, err) <==>
      && !Matches(err.text, config.nonRetryable)
      && (Matches(err.text, config.retryable) || FirstNetwork(err.chain).value.temporary
          || FirstNetwork(err.chain).value.timeout)
  {
    DeadlineIsNetworkError(err.chain);
  }

  // ---------- A call ----------

  function RetriesAllowed(calls: int, maxRetries: int): int {
    if maxRetries < 0 then 0 else calls * maxRetries
  }

  lemma OneMoreCall(calls: int, maxRetries: int)
    ensures RetriesAllowed(calls + 1, maxRetries) ==
            RetriesAllowed(calls, maxRetries) + if maxRetries < 0 then 0 else maxRetries
  {
  }

  class RetryPolicy {
    const config: Config
    var totalAttempts: int
    var totalRetries: int
    var totalSuccesses: int
    var totalFailures: int
    var totalNonRetryable: int

    /** What keeps the reported averages and rates in range. Calls that succeed at once and calls
        ended by the context are in none of the three result counters. */
    ghost predicate Valid()
      reads this
    {
      && 0 <= totalSuccesses <= totalRetries
      && 0 <= totalFailures && 0 <= totalNonRetryable
      && totalSuccesses + totalFailures + totalNonRetryable <= totalAttempts
      && totalRetries <= RetriesAllowed(totalAttempts, config.maxRetries)
    }

    constructor (config: Config)
      ensures Valid() && this.config == config && totalAttempts == 0
    {
      this.config := config;
      totalAttempts, totalRetries, totalSuccesses, totalFailures, totalNonRetryable := 0, 0, 0, 0, 0;
    }

    /** `outcome(i)` is what the operation's call i gives; the others say whether the context is
        found done before call i and while waiting after it. */
    method ExecuteWithResult(outcome: nat -> Outcome, doneBefore: nat -> bool, doneWaiting: nat -> bool)
      returns (ending: Ending, calls: nat)
      requires Valid()
      modifies this
      ensures Valid()
      ensures Ends(config, outcome, doneBefore, doneWaiting, ending, calls)
      ensures totalAttempts == old(totalAttempts) + 1
      ensures totalRetries == old(totalRetries) + (if ending == ContextDone || calls == 0 then calls else calls - 1)
      ensures totalSuccesses == old(totalSuccesses) + (if ending == Nil && calls > 1 then 1 else 0)
      ensures totalNonRetryable == old(totalNonRetryable) +
        (if ending.Gave? && !Retried(config, ending.err) then 1 else 0)
      ensures totalFailures == old(totalFailures) +
        (if config.maxRetries < 0 || (ending.Gave? && Retried(config, ending.err)) then 1 else 0)
    {
      var lastErr := Nil;
      var attempt := 0;
      calls := 0;
      totalAttempts := totalAttempts + 1;
      OneMoreCall(old(totalAttempts), config.maxRetries);
      hide RetriesAllowed, Retried;
      while attempt <= config.maxRetries
        invariant 0 <= attempt == calls
        invariant if config.maxRetries < 0 then attempt == 0 && lastErr == Nil else attempt <= config.maxRetries
        invariant forall i: nat :: i < attempt ==> TriedAgain(config, outcome, doneBefore, doneWaiting, i)
        invariant totalRetries == old(totalRetries) + attempt
        invariant totalAttempts == old(totalAttempts) + 1
        invariant totalSuccesses == old(totalSuccesses)
        invariant totalFailures == old(totalFailures)
        invariant totalNonRetryable == old(totalNonRetryable)
      {
        if doneBefore(attempt) {
          return ContextDone, calls;
        }
        var result := outcome(attempt);
        calls := calls + 1;
        if result == Success {
          if attempt > 0 {
            totalSuccesses := totalSuccesses + 1;
          }
          return Nil, calls;
        }
        lastErr := Gave(result.err);
        var retry := IsRetryable(config, Some(result.err));
        if !retry {
          totalNonRetryable := totalNonRetryable + 1;
          return lastErr, calls;
        }
        if attempt >= config.maxRetries {
          break;
        }
        totalRetries := totalRetries + 1;
        if doneWaiting(attempt) {
          return ContextDone, calls;
        }
        attempt := attempt + 1;
      }
      totalFailures := totalFailures + 1;
      ending := lastErr;
    }
  }

  predicate TriedAgain(config: Config, outcome: nat -> Outcome, doneBefore: nat -> bool,
                       doneWaiting: nat -> bool, i: nat)
  {
    && !doneBefore(i) && outcome(i).Failure? && Retried(config, outcome(i).err) && i < config.maxRetries
    && !doneWaiting(i)
  }

  /** Every call but the last failed and was retried, and the ending is the last one's. */
  ghost predicate Ends(config: Config, outcome: nat -> Outcome, doneBefore: nat -> bool,
                       doneWaiting: nat -> bool, ending: Ending, calls: nat)
  {
    if config.maxRetries < 0 then ending == Nil && calls == 0
    else
      && (forall i: nat :: i < calls - 1 ==> TriedAgain(config, outcome, doneBefore, doneWaiting, i))
      && match ending
         case Nil => calls > 0 && !doneBefore(calls - 1) && outcome(calls - 1) == Success
         case Gave(err) =>
           && calls > 0 && !doneBefore(calls - 1) && outcome(calls - 1) == Failure(err)
           && (Retried(config, err) ==> calls == config.maxRetries + 1)
         case ContextDone =>
           || (doneBefore(calls) && (calls > 0 ==> TriedAgain(config, outcome, doneBefore, doneWaiting, calls - 1)))
           || (calls > 0 && !doneBefore(calls - 1) && outcome(calls - 1).Failure?
               && Retried(config, outcome(calls - 1).err) && calls - 1 < config.maxRetries && doneWaiting(calls - 1))
  }

  /** The operation is called at most once more than the retries allowed. With a negative limit it
      is never called and the call reports success, and that is the only way to report success
      when the operation did not succeed. */
  lemma NilWithoutSuccessIff(config: Config, outcome: nat -> Outcome, doneBefore: nat -> bool,
                             doneWaiting: nat -> bool, ending: Ending, calls: nat)
    requires Ends(config, outcome, doneBefore, doneWaiting, ending, calls)
    ensures calls <= if config.maxRetries < 0 then 0 else config.maxRetries + 1
    ensures ending == Nil && (calls == 0 || outcome(calls - 1) != Success) <==> config.maxRetries < 0
  {
    if calls > 1 {
      assert TriedAgain(config, outcome, doneBefore, doneWaiting, calls - 2);
    }
  }

  /** So the ending and the number of calls are determined. */
  lemma EndingIsUnique(config: Config, outcome: nat -> Outcome, doneBefore: nat -> bool,
                       doneWaiting: nat -> bool, ending: Ending, calls: nat, ending': Ending, calls': nat)
    requires Ends(config, outcome, doneBefore, doneWaiting, ending, calls)
    requires Ends(config, outcome, doneBefore, doneWaiting, ending', calls')
    ensures ending == ending' && calls == calls'
  {
    NoLonger(config, outcome, doneBefore, doneWaiting, ending, calls, ending', calls');
    NoLonger(config, outcome, doneBefore, doneWaiting, ending', calls', ending, calls);
  }

  lemma NoLonger(config: Config, outcome: nat -> Outcome, doneBefore: nat -> bool,
                 doneWaiting: nat -> bool, ending: Ending, calls: nat, ending': Ending, calls': nat)
    requires Ends(config, outcome, doneBefore, doneWaiting, ending, calls)
    requires Ends(config, outcome, doneBefore, doneWaiting, ending', calls')
    ensures calls' <= calls
  {
    if config.maxRetries >= 0 {
      StopsHere(config, outcome, doneBefore, doneWaiting, ending, calls);
    }
    WentOn(config, outcome, doneBefore, doneWaiting, ending', calls');
  }

  lemma StopsHere(config: Config, outcome: nat -> Outcome, doneBefore: nat -> bool,
                  doneWaiting: nat -> bool, ending: Ending, calls: nat)
    requires Ends(config, outcome, doneBefore, doneWaiting, ending, calls) && config.maxRetries >= 0
    ensures doneBefore(calls) || (calls > 0 && !TriedAgain(config, outcome, doneBefore, doneWaiting, calls - 1))
  {
  }

  lemma WentOn(config: Config, outcome: nat -> Outcome, doneBefore: nat -> bool,
               doneWaiting: nat -> bool, ending: Ending, calls: nat)
    requires Ends(config, outcome, doneBefore, doneWaiting, ending, calls)
    ensures forall i: nat :: i < calls - 1 ==> TriedAgain(config, outcome, doneBefore, doneWaiting, i)
    ensures forall i: nat :: i < calls ==> !doneBefore(i)
  {
    forall i: nat | i < calls
      ensures !doneBefore(i)
    {
      assert i < calls - 1 ==> TriedAgain(config, outcome, doneBefore, doneWaiting, i);
    }
  }

  /** While every call fails with an error to retry and the context is never done, all calls that the
      limit allows are made, and the last one's error is given. */
  lemma AllRetriesAreUsed(config: Config, outcome: nat -> Outcome, doneBefore: nat -> bool,
                          doneWaiting: nat -> bool, ending: Ending, calls: nat)
    requires Ends(config, outcome, doneBefore, doneWaiting, ending, calls) && config.maxRetries >= 0
    requires forall i: nat :: i <= config.maxRetries ==>
      outcome(i).Failure? && Retried(config, outcome(i).err) && !doneBefore(i) && !doneWaiting(i)
    ensures calls == config.maxRetries + 1 && ending == Gave(outcome(config.maxRetries).err)
  {
    hide Retried;
    assert Ends(config, outcome, doneBefore, doneWaiting, Gave(outcome(config.maxRetries).err), config.maxRetries + 1);
    hide Ends;
    EndingIsUnique(config, outcome, doneBefore, doneWaiting, ending, calls,
                   Gave(outcome(config.maxRetries).err), config.maxRetries + 1);
  }

  /** And if one of them succeeds, the first success ends the call. */
  lemma FirstSuccessEnds(config: Config, outcome: nat -> Outcome, doneBefore: nat -> bool,
                         doneWaiting: nat -> bool, ending: Ending, calls: nat, k: nat)
    requires Ends(config, outcome, doneBefore, doneWaiting, ending, calls) && k <= config.maxRetries
    requires forall i: nat :: i < k ==>
      outcome(i).Failure? && Retried(config, outcome(i).err) && !doneBefore(i) && !doneWaiting(i)
    requires outcome(k) == Success && !doneBefore(k)
    ensures calls == k + 1 && ending == Nil
  {
    hide Retried;
    assert Ends(config, outcome, doneBefore, doneWaiting, Nil, k + 1);
    hide Ends;
    EndingIsUnique(config, outcome, doneBefore, doneWaiting, ending, calls, Nil, k + 1);
  }

  // ---------- Waiting ----------

  function Pow(x: real, n: nat): real {
    if n == 0 then 1.0 else Pow(x, n - 1) * x
  }

  /** The delay before jitter. */
  function Base(config: Config, attempt: nat): real {
    var delay := config.initialDelay as real * Pow(config.multiplier, attempt);
    if delay > config.maxDelay as real then config.maxDelay as real else delay
  }

  /** The first delay is the initial one, and each further one is the one before times the multiplier,
      all up to the maximum. (A multiplier below one leads away from the maximum instead.) */
  lemma BaseMultiplies(config: Config, attempt: nat)
    ensures Base(config, 0) == if config.initialDelay > config.maxDelay then config.maxDelay as real else config.initialDelay as real
    ensures config.maxDelay >= 0 && (config.multiplier >= 1.0 || Base(config, attempt) < config.maxDelay as real) ==>
      var next := Base(config, attempt) * config.multiplier;
      Base(config, attempt + 1) == if next > config.maxDelay as real then config.maxDelay as real else next
  {
    var first, x, max := config.initialDelay as real, config.multiplier, config.maxDelay as real;
    assert Pow(x, 0) == 1.0 && first * 1.0 == first;
    var delay := first * Pow(x, attempt);
    assert Pow(x, attempt + 1) == Pow(x, attempt) * x;
    TimesAssociates(first, Pow(x, attempt), x);
    if delay > max && x >= 1.0 && max >= 0.0 {
      AtLeast(delay, x, max);
      AtLeast(max, x, max);
    }
  }

  lemma TimesAssociates(x: real, y: real, z: real)
    ensures x * (y * z) == (x * y) * z
  {
  }

  lemma AtLeast(d: real, x: real, max: real)
    requires d >= max >= 0.0 && x >= 1.0
    ensures d * x >= d
  {
    assert d * x - d == d * (x - 1.0);
  }

  /** How much the jitter moves the delay at most. */
  function Spread(config: Config, attempt: nat): real {
    config.jitterFactor * Base(config, attempt)
  }

  /** The share of the spread that a random number, at least 0 and below 1, stands for. */
  function Swung(draw: real, spread: real): real {
    (draw * 2.0 - 1.0) * spread
  }

  /** The settings that make sense: with others the delay can come out negative, and then falls
      back to the first one. */
  predicate Sensible(config: Config) {
    && config.initialDelay >= 0 && config.maxDelay >= 0 && config.multiplier >= 0.0
    && 0.0 <= config.jitterFactor <= 1.0
  }

  /** time.Duration of a floating-point number drops the fraction. */
  function Truncated(x: real): (t: int)
    ensures x >= 0.0 ==> 0.0 <= t as real <= x < t as real + 1.0
    ensures x <= 0.0 ==> t as real - 1.0 < x <= t as real <= 0.0
  {
    if x >= 0.0 then x.Floor else -(-x).Floor
  }

  function Jitter(draw: real, jitterFactor: real, delay: real): real {
    (draw * 2.0 - 1.0) * jitterFactor * delay
  }

  /** The delay with the jitter, if there is any. */
  function Moved(config: Config, attempt: nat, draw: real): real {
    Base(config, attempt) + if config.jitterFactor > 0.0 then Swung(draw, Spread(config, attempt)) else 0.0
  }

  /** The capped exponential delay, moved by the jitter, in whole nanoseconds, or the first delay if
      that is negative; which it never is with sensible settings, nor more than twice the maximum. */
  method CalculateDelay(config: Config, attempt: nat, draw: real) returns (delay: int)
    requires 0.0 <= draw < 1.0
    ensures var moved := Moved(config, attempt, draw);
      delay == Truncated(if moved < 0.0 then config.initialDelay as real else moved)
    ensures Sensible(config) ==>
      && delay == (Base(config, attempt) + Swung(draw, Spread(config, attempt))).Floor
      && 0 <= delay <= 2 * config.maxDelay
    ensures Sensible(config) ==>
      var base := Base(config, attempt);
      var moved := base + (draw * 2.0 - 1.0) * config.jitterFactor * base;
      delay as real <= moved < delay as real + 1.0
  {
    hide Jitter, Swung, Spread;
    var d := config.initialDelay as real * Pow(config.multiplier, attempt);
    if d > config.maxDelay as real {
      d := config.maxDelay as real;
    }
    ghost var base := d;
    assert base == Base(config, attempt);
    hide Base, Pow;
    if config.jitterFactor > 0.0 {
      JitterIsSwung(config, attempt, draw);
      d := d + Jitter(draw, config.jitterFactor, d);
    }
    assert d == Moved(config, attempt, draw);
    if Sensible(config) {
      MovedInRange(config, attempt, draw);
      JitterIsSwung(config, attempt, draw);
      JitterIs(draw, config.jitterFactor, base);
    }
    hide Moved, Sensible;
    if d < 0.0 {
      d := config.initialDelay as real;
    }
    delay := Truncated(d);
  }

  lemma {:induction false} PowIsNotNegative(x: real, n: nat)
    requires x >= 0.0
    ensures Pow(x, n) >= 0.0
  {
    if n > 0 {
      PowIsNotNegative(x, n - 1);
    }
  }

  lemma BaseInRange(config: Config, attempt: nat)
    requires Sensible(config)
    ensures 0.0 <= Base(config, attempt) <= config.maxDelay as real
  {
    PowIsNotNegative(config.multiplier, attempt);
    ProductIsNotNegative(config.initialDelay as real, Pow(config.multiplier, attempt));
  }

  lemma ProductIsNotNegative(x: real, y: real)
    requires x >= 0.0 && y >= 0.0
    ensures x * y >= 0.0
  {
  }

  lemma Swing(draw: real, spread: real)
    requires 0.0 <= draw < 1.0 && spread >= 0.0
    ensures -spread <= Swung(draw, spread) <= spread
    ensures spread > 0.0 ==> Swung(draw, spread) < spread
  {
    ProductIsNotNegative(draw, spread);
    ProductIsNotNegative(1.0 - draw, spread);
    assert (1.0 - draw) * spread == spread - draw * spread;
    if spread > 0.0 {
      assert (1.0 - draw) * spread > 0.0;
    }
  }

  lemma JitterIsSwung(config: Config, attempt: nat, draw: real)
    ensures Jitter(draw, config.jitterFactor, Base(config, attempt)) == Swung(draw, Spread(config, attempt))
  {
    hide Base;
  }

  lemma JitterIs(draw: real, jitterFactor: real, delay: real)
    ensures Jitter(draw, jitterFactor, delay) == (draw * 2.0 - 1.0) * jitterFactor * delay
  {
  }

  lemma NoSpreadNoSwing(draw: real)
    ensures Swung(draw, 0.0) == 0.0
  {
  }

  lemma MovedInRange(config: Config, attempt: nat, draw: real)
    requires Sensible(config) && 0.0 <= draw < 1.0
    ensures var moved := Moved(config, attempt, draw);
      && moved == Base(config, attempt) + Swung(draw, Spread(config, attempt))
      && 0.0 <= moved <= 2.0 * config.maxDelay as real
  {
    DelayByDraw(config, attempt, draw);
    NoSpreadNoSwing(draw);
    hide Base, Spread, Swung;
  }

  lemma SpreadInRange(config: Config, attempt: nat)
    requires Sensible(config)
    ensures 0.0 <= Spread(config, attempt) <= Base(config, attempt)
    ensures config.jitterFactor == 0.0 ==> Spread(config, attempt) == 0.0
  {
    BaseInRange(config, attempt);
    var j, base := config.jitterFactor, Base(config, attempt);
    hide Base;
    ProductIsNotNegative(j, base);
    ProductIsNotNegative(1.0 - j, base);
    assert (1.0 - j) * base == base - j * base;
  }

  /** The delay lies within the spread around the capped exponential delay. */
  lemma DelayByDraw(config: Config, attempt: nat, draw: real)
    requires Sensible(config) && 0.0 <= draw < 1.0
    ensures var base, spread := Base(config, attempt), Spread(config, attempt);
      && 0.0 <= spread <= base <= config.maxDelay as real
      && (config.jitterFactor == 0.0 ==> spread == 0.0)
      && 0.0 <= base - spread <= base + Swung(draw, spread) <= base + spread
  {
    BaseInRange(config, attempt);
    SpreadInRange(config, attempt);
    hide Base, Spread, Swung;
    Swing(draw, Spread(config, attempt));
  }

  /** The maximum delay is applied before the jitter, so a draw can take the wait past it: exactly
      when the delay before jitter plus its spread is more than a nanosecond past it. */
  lemma CanExceedMaxIff(config: Config, attempt: nat)
    requires Sensible(config)
    ensures (exists draw: real :: 0.0 <= draw < 1.0
              && (Base(config, attempt) + Swung(draw, Spread(config, attempt))).Floor > config.maxDelay) <==>
            Base(config, attempt) + Spread(config, attempt) > config.maxDelay as real + 1.0
  {
    var base, spread, past := Base(config, attempt), Spread(config, attempt), config.maxDelay as real + 1.0;
    DelayByDraw(config, attempt, 0.0);
    hide Base, Spread;
    if base + spread > past {
      var draw := DrawPast(past - base, spread);
      hide Swung;
      assert (base + Swung(draw, spread)).Floor > config.maxDelay;
    } else {
      forall draw: real | 0.0 <= draw < 1.0
        ensures (base + Swung(draw, spread)).Floor <= config.maxDelay
      {
        Swing(draw, spread);
        NoSpreadNoSwing(draw);
        hide Swung;
        assert base + Swung(draw, spread) < past;
      }
    }
  }

  lemma DrawPast(gap: real, spread: real) returns (draw: real)
    requires 0.0 <= gap < spread
    ensures 0.0 <= draw < 1.0 && Swung(draw, spread) > gap
  {
    var u := (gap / spread + 1.0) / 2.0;
    assert gap / spread * spread == gap;
    BelowOne(gap, spread);
    draw := (u + 1.0) / 2.0;
    assert draw * 2.0 - 1.0 == u;
    assert u * spread == (gap + spread) / 2.0;
  }

  lemma BelowOne(gap: real, spread: real)
    requires 0.0 <= gap < spread
    ensures 0.0 <= gap / spread < 1.0
  {
  }
}
