/** The token bucket: lazy refill with a cap. Instants and rates are reals. */
module TokenBucket {

  /** The fields of a bucket. */
  datatype Bucket = Bucket(tokens: real, maxTokens: real, refillRate: real, lastRefill: real, allowed: int, throttled: int)

  /** The tokens that a rate brings in over a time. */
  function Gain(elapsed: real, rate: real): real {
    elapsed * rate
  }

  function Least(x: real, y: real): (least: real)
    ensures least <= x && least <= y && (least == x || least == y)
  {
    if x <= y then x else y
  }

  function Refilled(b: Bucket, now: real): Bucket {
    var t := b.tokens + Gain(now - b.lastRefill, b.refillRate);
    b.(tokens := if t > b.maxTokens then b.maxTokens else t, lastRefill := now)
  }

  predicate Grants(b: Bucket, n: int) {
    b.tokens >= n as real
  }

  function Charged(b: Bucket, n: int): Bucket {
    if Grants(b, n) then b.(tokens := b.tokens - n as real, allowed := b.allowed + n)
    else b.(throttled := b.throttled + n)
  }

  class TokenBucket {
    var tokens: real
    var maxTokens: real
    var refillRate: real
    var lastRefill: real
    var totalAllowed: int
    var totalThrottled: int

    function View(): Bucket
      reads this
    {
      Bucket(tokens, maxTokens, refillRate, lastRefill, totalAllowed, totalThrottled)
    }

    constructor (tokensPerSecond: real, burstSize: int, now: real)
      ensures View() == Bucket(burstSize as real, burstSize as real, tokensPerSecond, now, 0, 0)
    {
      tokens, maxTokens, refillRate, lastRefill := burstSize as real, burstSize as real, tokensPerSecond, now;
      totalAllowed, totalThrottled := 0, 0;
    }

    method Refill(now: real)
      modifies this`tokens, this`lastRefill
      ensures View() == Refilled(old(View()), now) && lastRefill == now
      ensures tokens == Least(old(maxTokens), old(tokens) + (now - old(lastRefill)) * old(refillRate))
    {
      var elapsed := now - lastRefill;
      GainIs(elapsed, refillRate);
      lastRefill := now;
      tokens := tokens + elapsed * refillRate;
      if tokens > maxTokens {
        tokens := maxTokens;
      }
    }

    method Allow(now: real) returns (ok: bool)
      modifies this
      ensures ok == Grants(Refilled(old(View()), now), 1)
      ensures View() == Charged(Refilled(old(View()), now), 1)
      ensures var found := Least(old(maxTokens), old(tokens) + (now - old(lastRefill)) * old(refillRate));
        && (ok <==> found >= 1.0)
        && tokens == (if ok then found - 1.0 else found)
        && totalAllowed == old(totalAllowed) + (if ok then 1 else 0)
        && totalThrottled == old(totalThrottled) + (if ok then 0 else 1)
    {
      Refill(now);
      if tokens >= 1.0 {
        tokens := tokens - 1.0;
        totalAllowed := totalAllowed + 1;
        return true;
      }
      totalThrottled := totalThrottled + 1;
      return false;
    }

    method AllowN(n: int, now: real) returns (ok: bool)
      modifies this
      ensures ok == Grants(Refilled(old(View()), now), n)
      ensures View() == Charged(Refilled(old(View()), now), n)
      ensures var found := Least(old(maxTokens), old(tokens) + (now - old(lastRefill)) * old(refillRate));
        && (ok <==> found >= n as real)
        && tokens == (if ok then found - n as real else found)
        && totalAllowed == old(totalAllowed) + (if ok then n else 0)
        && totalThrottled == old(totalThrottled) + (if ok then 0 else n)
    {
      Refill(now);
      var needed := n as real;
      if tokens >= needed {
        tokens := tokens - needed;
        totalAllowed := totalAllowed + n;
        return true;
      }
      totalThrottled := totalThrottled + n;
      return false;
    }

    method SetRate(tokensPerSecond: real)
      modifies this`refillRate
      ensures View() == old(View()).(refillRate := tokensPerSecond)
    {
      refillRate := tokensPerSecond;
    }

    method GetStats(now: real) returns (currentTokens: real, rate: real, allowed: int, throttled: int)
      modifies this`tokens, this`lastRefill
      ensures View() == Refilled(old(View()), now)
      ensures currentTokens == Least(old(maxTokens), old(tokens) + (now - old(lastRefill)) * old(refillRate))
      ensures rate == old(refillRate) && allowed == old(totalAllowed) && throttled == old(totalThrottled)
      ensures Bucket(currentTokens, old(maxTokens), rate, now, allowed, throttled) == View()
    {
      Refill(now);
      return tokens, refillRate, totalAllowed, totalThrottled;
    }
  }

  /** AllowModel: the global bucket first, then the model's own, if it has one. A refusal by the
      model's bucket does not give the global token back. */
  method AllowModel(globalBucket: TokenBucket, bucket: TokenBucket?, now: real, later: real) returns (ok: bool)
    requires bucket != globalBucket
    modifies globalBucket, bucket
    ensures globalBucket.View() == Charged(Refilled(old(globalBucket.View()), now), 1)
    ensures bucket != null && Grants(Refilled(old(globalBucket.View()), now), 1) ==>
      bucket.View() == Charged(Refilled(old(bucket.View()), later), 1)
    ensures bucket != null && !Grants(Refilled(old(globalBucket.View()), now), 1) ==> bucket.View() == old(bucket.View())
    ensures ok == (Grants(Refilled(old(globalBucket.View()), now), 1) &&
                   (bucket == null || Grants(Refilled(old(bucket.View()), later), 1)))
  {
    ok := globalBucket.Allow(now);
    if !ok || bucket == null {
      return;
    }
    ok := bucket.Allow(later);
  }

  // ---------- Runs ----------

  /** One call on a bucket. Allow is AllowN of one token. */
  datatype Call = AllowN(n: int, at: real) | GetStats(at: real) | SetRate(rate: real)

  function Apply(b: Bucket, c: Call): Bucket {
    match c
    case AllowN(n, at) => Charged(Refilled(b, at), n)
    case GetStats(at) => Refilled(b, at)
    case SetRate(rate) => b.(refillRate := rate)
  }

  function Run(b: Bucket, calls: seq<Call>): Bucket
    decreases |calls|
  {
    if calls == [] then b else Run(Apply(b, calls[0]), calls[1..])
  }

  /** The tokens handed out by the granted calls of a run. */
  function Granted(b: Bucket, calls: seq<Call>): int
    decreases |calls|
  {
    if calls == [] then 0
    else
      var c := calls[0];
      (if c.AllowN? && Grants(Refilled(b, c.at), c.n) then c.n else 0) + Granted(Apply(b, c), calls[1..])
  }

  /** The answers of the AllowN calls of a run, in order. */
  function Decisions(b: Bucket, calls: seq<Call>): seq<bool>
    decreases |calls|
  {
    if calls == [] then []
    else
      var c := calls[0];
      (if c.AllowN? then [Grants(Refilled(b, c.at), c.n)] else []) + Decisions(Apply(b, c), calls[1..])
  }

  /** The instant of the last refill after a run. */
  function End(start: real, calls: seq<Call>): real
    decreases |calls|
  {
    if calls == [] then start else End(if calls[0].SetRate? then start else calls[0].at, calls[1..])
  }

  /** The clock does not go back, requests are for non-negative amounts, rates are not negative. */
  predicate Sane(start: real, calls: seq<Call>)
    decreases |calls|
  {
    calls != [] ==>
      && (calls[0].SetRate? ==> calls[0].rate >= 0.0 && Sane(start, calls[1..]))
      && (!calls[0].SetRate? ==> calls[0].at >= start && Sane(calls[0].at, calls[1..]))
      && (calls[0].AllowN? ==> calls[0].n >= 0)
  }

  /** No refill of the run uses a rate above r. A rate that is set and replaced before the
      next refill does not matter. */
  predicate RatesAtMost(rate: real, calls: seq<Call>, r: real)
    decreases |calls|
  {
    calls != [] ==>
      if calls[0].SetRate? then RatesAtMost(calls[0].rate, calls[1..], r)
      else rate <= r && RatesAtMost(rate, calls[1..], r)
  }

  /** A bucket in use: between empty and full. */
  predicate Valid(b: Bucket) {
    0.0 <= b.tokens <= b.maxTokens && b.refillRate >= 0.0
  }

  lemma GainIs(elapsed: real, rate: real)
    ensures Gain(elapsed, rate) == rate * elapsed
  {
  }

  lemma GainIsMonotone(elapsed: real, low: real, high: real)
    requires elapsed >= 0.0 && 0.0 <= low <= high
    ensures 0.0 <= Gain(elapsed, low) <= Gain(elapsed, high)
  {
  }

  lemma GainAdds(x: real, y: real, rate: real)
    ensures Gain(x + y, rate) == Gain(x, rate) + Gain(y, rate)
  {
  }

  lemma NoTimeNoGain(rate: real)
    ensures Gain(0.0, rate) == 0.0
  {
  }

  lemma RefillKeepsValid(b: Bucket, now: real)
    requires Valid(b) && now >= b.lastRefill
    ensures Valid(Refilled(b, now)) && Refilled(b, now).tokens >= b.tokens
    ensures Refilled(b, now).tokens <= b.tokens + Gain(now - b.lastRefill, b.refillRate)
  {
    hide Gain;
    GainIsMonotone(now - b.lastRefill, b.refillRate, b.refillRate);
  }

  /** Tokens stay between zero and the burst size over every run. */
  lemma {:induction false} RunKeepsValid(b: Bucket, calls: seq<Call>)
    requires Valid(b) && Sane(b.lastRefill, calls)
    ensures Valid(Run(b, calls)) && Run(b, calls).maxTokens == b.maxTokens
    ensures Run(b, calls).lastRefill == End(b.lastRefill, calls) >= b.lastRefill
    decreases |calls|
  {
    hide Gain;
    if calls != [] {
      if !calls[0].SetRate? {
        RefillKeepsValid(b, calls[0].at);
      }
      RunKeepsValid(Apply(b, calls[0]), calls[1..]);
    }
  }

  lemma {:induction false} GrantedIsCoveredByGain(b: Bucket, calls: seq<Call>, r: real)
    requires Valid(b) && Sane(b.lastRefill, calls) && RatesAtMost(b.refillRate, calls, r) && r >= 0.0
    ensures Granted(b, calls) as real + Run(b, calls).tokens
      <= b.tokens + Gain(End(b.lastRefill, calls) - b.lastRefill, r)
    decreases |calls|
  {
    hide Gain;
    if calls == [] {
      NoTimeNoGain(r);
    } else {
      var c := calls[0];
      var b' := Apply(b, c);
      if !c.SetRate? {
        RefillKeepsValid(b, c.at);
        GainIsMonotone(c.at - b.lastRefill, b.refillRate, r);
        GainAdds(c.at - b.lastRefill, End(c.at, calls[1..]) - c.at, r);
      }
      GrantedIsCoveredByGain(b', calls[1..], r);
    }
  }

  /** Conservation: what a run hands out and what it leaves is covered by what was there and what
      the largest rate used could bring in. */
  lemma GrantedIsCovered(b: Bucket, calls: seq<Call>, r: real)
    requires Valid(b) && Sane(b.lastRefill, calls) && RatesAtMost(b.refillRate, calls, r) && r >= 0.0
    ensures Granted(b, calls) as real + Run(b, calls).tokens <= b.tokens + r * (End(b.lastRefill, calls) - b.lastRefill)
  {
    hide Gain;
    GrantedIsCoveredByGain(b, calls, r);
    GainIs(End(b.lastRefill, calls) - b.lastRefill, r);
  }

  lemma WindowBoundByGain(b: Bucket, first: Call, rest: seq<Call>, r: real)
    requires Valid(b) && !first.SetRate? && first.at >= b.lastRefill && (first.AllowN? ==> first.n >= 0)
    requires Sane(first.at, rest) && RatesAtMost(b.refillRate, rest, r) && r >= 0.0
    ensures Granted(b, [first] + rest) as real <= b.maxTokens + Gain(End(first.at, rest) - first.at, r)
  {
    hide Gain;
    assert ([first] + rest)[1..] == rest;
    RefillKeepsValid(b, first.at);
    GrantedIsCoveredByGain(Apply(b, first), rest, r);
    RunKeepsValid(Apply(b, first), rest);
  }

  /** In any window of a run, from a call at instant t1 on, at most the burst size plus r times the
      length of the window is handed out, where r bounds the rates of the refills after the first. */
  lemma WindowBound(b: Bucket, first: Call, rest: seq<Call>, r: real)
    requires Valid(b) && !first.SetRate? && first.at >= b.lastRefill && (first.AllowN? ==> first.n >= 0)
    requires Sane(first.at, rest) && RatesAtMost(b.refillRate, rest, r) && r >= 0.0
    ensures Granted(b, [first] + rest) as real <= b.maxTokens + r * (End(first.at, rest) - first.at)
  {
    hide Gain, Granted;
    WindowBoundByGain(b, first, rest, r);
    GainIs(End(first.at, rest) - first.at, r);
  }

  /** So it is for every window of every run. */
  lemma EveryWindowIsBounded(b: Bucket, before: seq<Call>, first: Call, rest: seq<Call>, r: real)
    requires Valid(b) && Sane(b.lastRefill, before)
    requires !first.SetRate? && first.at >= End(b.lastRefill, before) && (first.AllowN? ==> first.n >= 0)
    requires Sane(first.at, rest) && RatesAtMost(Run(b, before).refillRate, rest, r) && r >= 0.0
    ensures Granted(Run(b, before), [first] + rest) as real <= b.maxTokens + r * (End(first.at, rest) - first.at)
  {
    hide Gain, Granted;
    RunKeepsValid(b, before);
    WindowBound(Run(b, before), first, rest, r);
  }

  /** And no less: an amount is granted exactly if it fits into the bucket and is covered by what was
      left and what the rate has brought in since. */
  lemma GrantsIff(b: Bucket, n: int, now: real)
    ensures Grants(Refilled(b, now), n) <==>
      n as real <= b.maxTokens && n as real <= b.tokens + b.refillRate * (now - b.lastRefill)
  {
    hide Gain;
    GainIs(now - b.lastRefill, b.refillRate);
  }

  /** An emptied bucket grants n tokens from n divided by the rate seconds on, and not before. */
  lemma EmptiedGrantsFrom(b: Bucket, n: int, now: real)
    requires b.tokens == 0.0 && b.refillRate > 0.0 && n as real <= b.maxTokens
    ensures Grants(Refilled(b, now), n) <==> now >= b.lastRefill + n as real / b.refillRate
  {
    GrantsIff(b, n, now);
    hide Refilled;
    var wait, elapsed := n as real / b.refillRate, now - b.lastRefill;
    assert wait * b.refillRate == n as real;
    ScaledOrder(wait, elapsed, b.refillRate);
  }

  lemma ScaledOrder(x: real, y: real, rate: real)
    requires rate > 0.0
    ensures x <= y <==> x * rate <= rate * y
  {
    assert rate * y - x * rate == rate * (y - x);
  }

  // ---------- Lazy refill ----------

  /** Refilling on the way does not change what a later refill finds. */
  lemma RefillTwice(b: Bucket, t1: real, t2: real)
    requires b.refillRate >= 0.0 && b.lastRefill <= t1 <= t2
    ensures Refilled(Refilled(b, t1), t2) == Refilled(b, t2)
  {
    hide Gain;
    GainIsMonotone(t2 - t1, b.refillRate, b.refillRate);
    GainAdds(t1 - b.lastRefill, t2 - t1, b.refillRate);
  }

  predicate NoSetRate(calls: seq<Call>) {
    forall i :: 0 <= i < |calls| ==> !calls[i].SetRate?
  }

  function WithoutStats(calls: seq<Call>): seq<Call> {
    if calls == [] then []
    else (if calls[0].GetStats? then [] else [calls[0]]) + WithoutStats(calls[1..])
  }

  /** b was refilled more often than a, and nothing else tells them apart. */
  predicate SameUpToRefill(a: Bucket, b: Bucket) {
    a.lastRefill <= b.lastRefill && b == Refilled(a, b.lastRefill)
  }

  lemma {:induction false} StatsAreNeutralFrom(a: Bucket, b: Bucket, calls: seq<Call>)
    requires SameUpToRefill(a, b) && a.refillRate >= 0.0 && NoSetRate(calls) && Sane(b.lastRefill, calls)
    ensures Decisions(a, WithoutStats(calls)) == Decisions(b, calls)
    decreases |calls|
  {
    hide Gain;
    if calls != [] {
      var c := calls[0];
      assert NoSetRate(calls[1..]);
      RefillTwice(a, b.lastRefill, c.at);
      if c.GetStats? {
        assert WithoutStats(calls) == WithoutStats(calls[1..]);
        StatsAreNeutralFrom(a, Apply(b, c), calls[1..]);
      } else {
        assert WithoutStats(calls)[1..] == WithoutStats(calls[1..]);
        assert Apply(a, c) == Apply(b, c);
        RefillNow(Apply(b, c));
        StatsAreNeutralFrom(Apply(a, c), Apply(b, c), calls[1..]);
      }
    }
  }

  lemma RefillNow(b: Bucket)
    ensures b.tokens <= b.maxTokens ==> Refilled(b, b.lastRefill) == b
  {
    hide Gain;
    NoTimeNoGain(b.refillRate);
  }

  /** At a constant rate, any number of GetStats calls changes no decision: the lazy bucket decides
      like one that is refilled at every instant. */
  lemma StatsAreNeutral(b: Bucket, calls: seq<Call>)
    requires Valid(b) && NoSetRate(calls) && Sane(b.lastRefill, calls)
    ensures Decisions(b, WithoutStats(calls)) == Decisions(b, calls)
  {
    hide Gain;
    RefillNow(b);
    StatsAreNeutralFrom(b, b, calls);
  }

  /** Enough time has passed at this rate to fill the bucket. */
  predicate FullBy(b: Bucket, rate: real, t: real) {
    b.tokens + Gain(t - b.lastRefill, rate) >= b.maxTokens
  }

  /** The old rate is not settled when SetRate replaces it. A GetStats just before makes no
      difference, to the bucket at that instant and so to anything later, exactly when the rate
      stays the same, no time has passed, or the bucket is full by then at either rate. */
  lemma StatsBeforeSetRateIff(b: Bucket, r: real, t: real)
    requires Valid(b) && r >= 0.0 && t >= b.lastRefill
    ensures Refilled(Apply(Apply(b, GetStats(t)), SetRate(r)), t) == Refilled(Apply(b, SetRate(r)), t) <==>
      r == b.refillRate || t == b.lastRefill || (FullBy(b, b.refillRate, t) && FullBy(b, r, t))
  {
    hide Gain;
    NoTimeNoGain(r);
    NoTimeNoGain(b.refillRate);
    var elapsed := t - b.lastRefill;
    if elapsed > 0.0 && r != b.refillRate {
      GainTellsRatesApart(elapsed, r, b.refillRate);
    }
  }

  lemma GainTellsRatesApart(elapsed: real, p: real, q: real)
    requires elapsed > 0.0 && p != q
    ensures Gain(elapsed, p) != Gain(elapsed, q)
  {
    assert Gain(elapsed, p) - Gain(elapsed, q) == elapsed * (p - q);
  }

  /** For instance: a request at the same instant is granted with GetStats before SetRate, not
      without. */
  lemma StatsMatterBeforeSetRate(b: Bucket)
    requires b == Bucket(0.0, 1.0, 1.0, 0.0, 0, 0)
    ensures Grants(Refilled(Apply(Apply(b, GetStats(1.0)), SetRate(0.0)), 1.0), 1)
    ensures !Grants(Refilled(Apply(b, SetRate(0.0)), 1.0), 1)
  {
    hide Gain;
    GainValues();
  }

  lemma GainValues()
    ensures Gain(1.0, 1.0) == 1.0 && Gain(1.0, 0.0) == 0.0 && Gain(0.0, 0.0) == 0.0
  {
  }

  // ---------- Negative amounts ----------

  /** A call of AllowN for n tokens leaves every bucket between empty and full. */
  ghost predicate AmountIsSafe(n: int, now: real) {
    forall b :: Valid(b) && now >= b.lastRefill ==> Valid(Charged(Refilled(b, now), n))
  }

  lemma FullBucketOverfills(n: int, now: real)
    requires n < 0
    ensures var b := Bucket(1.0, 1.0, 0.0, now, 0, 0);
      Valid(b) && now >= b.lastRefill && !Valid(Charged(Refilled(b, now), n))
  {
    hide Gain;
    NoTimeNoGain(0.0);
  }

  /** AllowN does not check its argument; the amounts that it can be called with on any bucket are
      exactly the non-negative ones. */
  lemma AmountIsSafeIff(n: int, now: real)
    ensures AmountIsSafe(n, now) <==> n >= 0
  {
    hide Gain;
    if n < 0 {
      FullBucketOverfills(n, now);
    } else {
      forall b | Valid(b) && now >= b.lastRefill
        ensures Valid(Charged(Refilled(b, now), n))
      {
        RefillKeepsValid(b, now);
      }
    }
  }

  // ---------- Adaptive rates ----------

  datatype Adaptive = Adaptive(thresholdHigh: real, thresholdLow: real, adjustment: real, minRate: real, maxRate: real)

  /** The rate that adjustRateBasedOnGPU sets at this utilisation. */
  function Adjusted(config: Adaptive, rate: real, utilisation: real): real {
    if utilisation > config.thresholdHigh then
      var newRate := Gain(rate, 1.0 - config.adjustment);
      if newRate < config.minRate then config.minRate else newRate
    else if utilisation < config.thresholdLow then
      var newRate := Gain(rate, 1.0 + config.adjustment);
      if newRate > config.maxRate then config.maxRate else newRate
    else rate
  }

  /** One adjustment of the global bucket at the average utilisation found. */
  method AdjustRate(config: Adaptive, bucket: TokenBucket, utilisation: real)
    modifies bucket`refillRate
    ensures bucket.View() == old(bucket.View()).(refillRate := Adjusted(config, old(bucket.refillRate), utilisation))
    ensures utilisation > config.thresholdHigh ==>
      var reduced := old(bucket.refillRate) * (1.0 - config.adjustment);
      bucket.refillRate == if reduced < config.minRate then config.minRate else reduced
    ensures config.thresholdLow > utilisation && utilisation <= config.thresholdHigh ==>
      bucket.refillRate == Least(config.maxRate, old(bucket.refillRate) * (1.0 + config.adjustment))
    ensures config.thresholdLow <= utilisation <= config.thresholdHigh ==>
      bucket.refillRate == old(bucket.refillRate)
  {
    var currentRate := bucket.refillRate;
    var newRate := currentRate;
    if utilisation > config.thresholdHigh {
      newRate := currentRate * (1.0 - config.adjustment);
      if newRate < config.minRate {
        newRate := config.minRate;
      }
    } else if utilisation < config.thresholdLow {
      newRate := currentRate * (1.0 + config.adjustment);
      if newRate > config.maxRate {
        newRate := config.maxRate;
      }
    }
    if newRate != currentRate {
      bucket.SetRate(newRate);
    }
  }

  /** A load-dependent adjustment moves the rate the wrong way exactly when the rate lies outside the
      limit that this direction is clamped to; a rate within the limits stays within them. */
  lemma AdjustsTheWrongWayIff(config: Adaptive, rate: real, utilisation: real)
    requires rate >= 0.0 && 0.0 <= config.adjustment <= 1.0
    ensures utilisation > config.thresholdHigh ==>
      (Adjusted(config, rate, utilisation) > rate <==> rate < config.minRate)
    ensures utilisation <= config.thresholdHigh && utilisation < config.thresholdLow ==>
      (Adjusted(config, rate, utilisation) < rate <==> rate > config.maxRate)
    ensures config.minRate <= rate <= config.maxRate ==>
      config.minRate <= Adjusted(config, rate, utilisation) <= config.maxRate
  {
    ScaledAround(rate, config.adjustment);
    hide Gain;
  }

  lemma ScaledAround(rate: real, a: real)
    requires rate >= 0.0 && 0.0 <= a <= 1.0
    ensures Gain(rate, 1.0 - a) <= rate <= Gain(rate, 1.0 + a)
  {
    assert rate * a >= 0.0;
  }

  /** The rates set along a run are adjustments, at some utilisation, of the rate before. */
  ghost predicate SetsAdjusted(config: Adaptive, rate: real, calls: seq<Call>)
    decreases |calls|
  {
    calls != [] ==>
      if calls[0].SetRate? then
        && (exists u: real :: calls[0].rate == Adjusted(config, rate, u))
        && SetsAdjusted(config, calls[0].rate, calls[1..])
      else SetsAdjusted(config, rate, calls[1..])
  }

  /** No refill of the run uses a rate below r. */
  predicate RatesAtLeast(rate: real, calls: seq<Call>, r: real)
    decreases |calls|
  {
    calls != [] ==>
      if calls[0].SetRate? then RatesAtLeast(calls[0].rate, calls[1..], r)
      else rate >= r && RatesAtLeast(rate, calls[1..], r)
  }

  lemma {:induction false} AdaptiveRatesAreBounded(config: Adaptive, rate: real, calls: seq<Call>)
    requires config.minRate <= rate <= config.maxRate && 0.0 <= config.minRate && 0.0 <= config.adjustment <= 1.0
    requires SetsAdjusted(config, rate, calls)
    ensures RatesAtMost(rate, calls, config.maxRate) && RatesAtLeast(rate, calls, config.minRate)
    decreases |calls|
  {
    hide Adjusted;
    if calls != [] {
      if calls[0].SetRate? {
        var u: real :| calls[0].rate == Adjusted(config, rate, u);
        AdjustsTheWrongWayIff(config, rate, u);
        AdaptiveRatesAreBounded(config, calls[0].rate, calls[1..]);
      } else {
        AdaptiveRatesAreBounded(config, rate, calls[1..]);
      }
    }
  }

  /** So under adaptive adjustment a window hands out at most the burst size plus the largest rate
      allowed times the length of the window. */
  lemma AdaptiveWindowBound(config: Adaptive, b: Bucket, first: Call, rest: seq<Call>)
    requires Valid(b) && !first.SetRate? && first.at >= b.lastRefill && (first.AllowN? ==> first.n >= 0)
    requires Sane(first.at, rest)
    requires config.minRate <= b.refillRate <= config.maxRate && 0.0 <= config.minRate
    requires 0.0 <= config.adjustment <= 1.0 && SetsAdjusted(config, b.refillRate, rest)
    ensures Granted(b, [first] + rest) as real <= b.maxTokens + config.maxRate * (End(first.at, rest) - first.at)
  {
    hide Gain, Granted;
    AdaptiveRatesAreBounded(config, b.refillRate, rest);
    WindowBound(b, first, rest, config.maxRate);
  }
}
