/** Request metrics: counters over all requests and by model, the window of recent latencies, and
    the statistics of that window. Floating-point numbers are reals. */
module InferenceMetrics {

  import opened Sorting

  // ---------- Percentiles ----------

  predicate Less(x: real, y: real) {
    x < y
  }

  /** The point between a and b at weight w. */
  function Between(a: real, b: real, w: real): real {
    a * (1.0 - w) + b * w
  }

  lemma BetweenIsMonotone(a: real, b: real, w: real, v: real)
    requires a <= b && w <= v
    ensures Between(a, b, w) <= Between(a, b, v)
  {
    assert Between(a, b, v) - Between(a, b, w) == (b - a) * (v - w);
  }

  lemma BetweenEnds(a: real, b: real)
    ensures Between(a, b, 0.0) == a && Between(a, b, 1.0) == b
  {
  }

  /** The rank, counted from zero, at which the p-th percentile of n values lies. */
  function Rank(n: nat, p: real): real {
    (p / 100.0) * (n as real - 1.0)
  }

  lemma RankIsMonotone(n: nat, p: real, q: real)
    requires n > 0 && p <= q
    ensures Rank(n, p) <= Rank(n, q)
    ensures 0.0 <= p ==> 0.0 <= Rank(n, p)
  {
    var m := n as real - 1.0;
    var u, v := p / 100.0, q / 100.0;
    assert v * m - u * m == (v - u) * m;
    assert 0.0 <= (v - u) * m;
  }

  /** The callers ask for 50, 95 and 99. For a negative p the code could read before the slice. */
  function Percentile(sorted: seq<real>, p: real): real
    requires 0.0 <= p
  {
    if |sorted| == 0 then 0.0
    else if |sorted| == 1 then sorted[0]
    else
      RankIsMonotone(|sorted|, p, p);
      var idx := Rank(|sorted|, p);
      var lower := idx.Floor;
      var upper := lower + 1;
      if upper >= |sorted| then sorted[|sorted| - 1]
      else Between(sorted[lower], sorted[upper], idx - lower as real)
  }

  /** The percentile lies between the two values around its rank. */
  lemma PercentileAround(sorted: seq<real>, p: real)
    requires Sorted(sorted, Less) && |sorted| > 1 && 0.0 <= p && Rank(|sorted|, p).Floor + 1 < |sorted|
    ensures var lower := Rank(|sorted|, p).Floor;
      0 <= lower && sorted[lower] <= Percentile(sorted, p) <= sorted[lower + 1]
  {
    RankIsMonotone(|sorted|, p, p);
    var idx := Rank(|sorted|, p);
    var lower := idx.Floor;
    var a, b := sorted[lower], sorted[lower + 1];
    assert !Less(b, a);
    BetweenEnds(a, b);
    BetweenIsMonotone(a, b, 0.0, idx - lower as real);
    BetweenIsMonotone(a, b, idx - lower as real, 1.0);
  }

  lemma PercentileInRange(sorted: seq<real>, p: real)
    requires Sorted(sorted, Less) && sorted != [] && 0.0 <= p
    ensures sorted[0] <= Percentile(sorted, p) <= sorted[|sorted| - 1]
  {
    var n := |sorted|;
    assert n > 1 ==> !Less(sorted[n - 1], sorted[0]);
    if n > 1 && Rank(n, p).Floor + 1 < n {
      PercentileAround(sorted, p);
      var lower := Rank(n, p).Floor;
      assert lower > 0 ==> !Less(sorted[lower], sorted[0]);
      assert lower + 1 < n - 1 ==> !Less(sorted[n - 1], sorted[lower + 1]);
    }
  }

  lemma PercentileIsMonotone(sorted: seq<real>, p: real, q: real)
    requires Sorted(sorted, Less) && 0.0 <= p <= q
    ensures Percentile(sorted, p) <= Percentile(sorted, q)
  {
    var n := |sorted|;
    if n > 1 {
      RankIsMonotone(n, p, q);
      RankIsMonotone(n, p, p);
      hide Rank;
      var lower, lower' := Rank(n, p).Floor, Rank(n, q).Floor;
      if lower' + 1 >= n {
        PercentileInRange(sorted, p);
      } else if lower == lower' {
        assert !Less(sorted[lower + 1], sorted[lower]);
        BetweenIsMonotone(sorted[lower], sorted[lower + 1], Rank(n, p) - lower as real, Rank(n, q) - lower as real);
      } else {
        PercentileAround(sorted, p);
        PercentileAround(sorted, q);
        assert lower + 1 < lower' ==> !Less(sorted[lower'], sorted[lower + 1]);
      }
    }
  }

  /** At a whole rank the percentile is the value of that rank; so 0 gives the least value and 100
      the greatest. */
  lemma PercentileAtRank(sorted: seq<real>, p: real, k: nat)
    requires |sorted| > 1 && k < |sorted| && 0.0 <= p && Rank(|sorted|, p) == k as real
    ensures Percentile(sorted, p) == sorted[k]
  {
    if k + 1 < |sorted| {
      BetweenEnds(sorted[k], sorted[k + 1]);
    }
  }

  /** Between two ranks it lies where p says: the fraction w of the way from the k-th value to the next,
      where p hundredths of the way from the first value to the last are k + w steps. */
  lemma PercentileIs(sorted: seq<real>, p: real, k: nat, w: real)
    requires 0.0 <= p && k + 1 < |sorted| && 0.0 <= w < 1.0
    requires p * (|sorted| - 1) as real == 100.0 * (k as real + w)
    ensures Percentile(sorted, p) == sorted[k] + w * (sorted[k + 1] - sorted[k])
  {
    RankIs(|sorted|, p, k as real + w);
    BetweenIs(sorted[k], sorted[k + 1], w);
    hide Rank, Between;
    assert Rank(|sorted|, p).Floor == k;
  }

  lemma RankIs(n: nat, p: real, rank: real)
    requires n > 0 && p * (n - 1) as real == 100.0 * rank
    ensures Rank(n, p) == rank
  {
    var m := (n - 1) as real;
    assert (p / 100.0) * m * 100.0 == p * m;
  }

  lemma BetweenIs(a: real, b: real, w: real)
    ensures Between(a, b, w) == a + w * (b - a)
  {
  }

  /** 0 gives the first value and 100 the last. */
  lemma PercentileEnds(sorted: seq<real>)
    requires sorted != []
    ensures Percentile(sorted, 0.0) == sorted[0]
    ensures Percentile(sorted, 100.0) == sorted[|sorted| - 1]
  {
    if |sorted| > 1 {
      PercentileIs(sorted, 0.0, 0, 0.0);
      RankIs(|sorted|, 100.0, (|sorted| - 1) as real);
    }
  }

  // ---------- The statistics of a window ----------

  function Sum(s: seq<real>): real {
    if s == [] then 0.0 else Sum(s[..|s| - 1]) + s[|s| - 1]
  }

  function Mean(sum: real, count: int): real
    requires count != 0
  {
    sum / count as real
  }

  lemma MeanIs(sum: real, count: int)
    requires count != 0
    ensures Mean(sum, count) * count as real == sum
  {
  }

  lemma {:induction false} SumAdds(s: seq<real>, t: seq<real>)
    ensures Sum([]) == 0.0 && forall x :: Sum([x]) == x
    ensures Sum(s + t) == Sum(s) + Sum(t)
    decreases |t|
  {
    if t == [] {
      assert s + t == s;
    } else {
      var n := |t| - 1;
      assert (s + t)[..|s| + n] == s + t[..n];
      SumAdds(s, t[..n]);
    }
  }

  datatype Stats = Stats(avg: real, p50: real, p95: real, p99: real)

  const NO_STATS := Stats(0.0, 0.0, 0.0, 0.0)

  function StatsOf(window: seq<real>): Stats {
    if window == [] then NO_STATS
    else
      var sorted := Arranged(window, Less);
      Stats(Mean(Sum(window), |window|), Percentile(sorted, 50.0), Percentile(sorted, 95.0),
            Percentile(sorted, 99.0))
  }

  /** Every statistic lies between the least and the greatest latency of the window, and the
      percentiles are in order. */
  lemma StatsAreOrdered(window: seq<real>, low: real, high: real)
    requires window != [] && forall i :: 0 <= i < |window| ==> low <= window[i] <= high
    ensures var s := StatsOf(window);
      low <= s.p50 <= s.p95 <= s.p99 <= high && low <= s.avg <= high
  {
    var sorted := Arranged(window, Less);
    ArrangedIsSorted(window, Less);
    assert sorted[0] in multiset(window) && sorted[|sorted| - 1] in multiset(window);
    PercentileInRange(sorted, 50.0);
    PercentileInRange(sorted, 99.0);
    PercentileIsMonotone(sorted, 50.0, 95.0);
    PercentileIsMonotone(sorted, 95.0, 99.0);
    MeanInRange(window, low, high);
  }

  lemma {:induction false} SumInRange(s: seq<real>, low: real, high: real)
    requires forall i :: 0 <= i < |s| ==> low <= s[i] <= high
    ensures low * |s| as real <= Sum(s) <= high * |s| as real
  {
    if s != [] {
      SumInRange(s[..|s| - 1], low, high);
      var n := (|s| - 1) as real;
      assert |s| as real == n + 1.0;
      assert low * (n + 1.0) == low * n + low && high * (n + 1.0) == high * n + high;
    }
  }

  lemma MeanInRange(s: seq<real>, low: real, high: real)
    requires s != [] && forall i :: 0 <= i < |s| ==> low <= s[i] <= high
    ensures low <= Mean(Sum(s), |s|) <= high
  {
    SumInRange(s, low, high);
    QuotientInRange(Sum(s), |s| as real, low, high);
  }

  lemma QuotientInRange(x: real, n: real, low: real, high: real)
    requires n > 0.0 && low * n <= x <= high * n
    ensures low <= x / n <= high
  {
    var q := x / n;
    assert (q - low) * n == x - low * n;
    FactorIsNotNegative(q - low, n);
    assert (high - q) * n == high * n - x;
    FactorIsNotNegative(high - q, n);
  }

  lemma FactorIsNotNegative(d: real, n: real)
    requires n > 0.0 && d * n >= 0.0
    ensures d >= 0.0
  {
  }

  // ---------- What was recorded ----------

  /** `elapsed` is the time in seconds since the metrics were made or reset. */
  datatype Event =
    | Started(model: string, streaming: bool)
    | Ended(model: string, latency: real, tokensIn: int, tokensOut: int, success: bool, elapsed: real)

  datatype Counts = Counts(total: int, active: int, succeeded: int, failed: int, tokensIn: int, tokensOut: int)

  const NO_COUNTS := Counts(0, 0, 0, 0, 0, 0)

  lemma EndIsCounted(c: Counts, event: Event)
    requires event.Ended?
    ensures var after := Counted(c, event);
      after.succeeded + after.failed == c.succeeded + c.failed + 1 && after.total == c.total
  {
  }

  /** An end, statement by statement. */
  method EndCounted(before: Counts, tokensIn: int, tokensOut: int, success: bool) returns (c: Counts)
    ensures forall model, latency, elapsed ::
      c == Counted(before, Ended(model, latency, tokensIn, tokensOut, success, elapsed))
  {
    c := before.(active := before.active - 1);
    if c.active < 0 {
      c := c.(active := 0);
    }
    if success {
      c := c.(succeeded := c.succeeded + 1);
    } else {
      c := c.(failed := c.failed + 1);
    }
    c := c.(tokensIn := c.tokensIn + tokensIn, tokensOut := c.tokensOut + tokensOut);
  }

  function Counted(c: Counts, event: Event): Counts {
    match event
    case Started(_, _) => c.(total := c.total + 1, active := c.active + 1)
    case Ended(_, _, tokensIn, tokensOut, success, _) =>
      c.(active := if c.active > 0 then c.active - 1 else 0,
         succeeded := c.succeeded + (if success then 1 else 0),
         failed := c.failed + (if success then 0 else 1),
         tokensIn := c.tokensIn + tokensIn, tokensOut := c.tokensOut + tokensOut)
  }

  function Tally(events: seq<Event>): Counts {
    if events == [] then NO_COUNTS else Counted(Tally(events[..|events| - 1]), events[|events| - 1])
  }

  /** The sum of a quantity over the events. */
  function Total(events: seq<Event>, of: Event -> int): int {
    if events == [] then 0 else Total(events[..|events| - 1], of) + of(events[|events| - 1])
  }

  function One(holds: Event -> bool): Event -> int { (e: Event) => if holds(e) then 1 else 0 }

  /** Starts, ends with and without success, and tokens are each counted by their own events. */
  lemma {:induction false} TallyCounts(events: seq<Event>)
    ensures var c := Tally(events);
      && c.total == Total(events, One((e: Event) => e.Started?))
      && c.succeeded == Total(events, One((e: Event) => e.Ended? && e.success))
      && c.failed == Total(events, One((e: Event) => e.Ended? && !e.success))
      && c.tokensIn == Total(events, (e: Event) => if e.Ended? then e.tokensIn else 0)
      && c.tokensOut == Total(events, (e: Event) => if e.Ended? then e.tokensOut else 0)
      && Streams(events) == Total(events, One((e: Event) => e.Started? && e.streaming))
  {
    if events != [] {
      TallyCounts(events[..|events| - 1]);
    }
  }

  /** Ends less starts. */
  function Excess(events: seq<Event>): int {
    if events == [] then 0
    else Excess(events[..|events| - 1]) + if events[|events| - 1].Ended? then 1 else -1
  }

  /** The most by which ends have ever been ahead of starts. */
  function MaxExcess(events: seq<Event>): nat {
    if events == [] then 0
    else
      var before := MaxExcess(events[..|events| - 1]);
      if Excess(events) > before then Excess(events) else before
  }

  /** Every request counted as started is counted as ended or still active, but each end that came
      without a start leaves one more counted as active for good. */
  lemma {:induction false} TallyIsConserved(events: seq<Event>)
    ensures var c := Tally(events);
      && c.total + MaxExcess(events) == c.succeeded + c.failed + c.active
      && c.succeeded + c.failed - c.total == Excess(events)
      && 0 <= c.active
  {
    if events != [] {
      TallyIsConserved(events[..|events| - 1]);
    }
  }

  /** It is reached at some point of the history and at none exceeded. */
  lemma {:induction false} MaxExcessIsLargest(events: seq<Event>)
    ensures forall n :: 0 <= n <= |events| ==> Excess(events[..n]) <= MaxExcess(events)
    ensures exists n :: 0 <= n <= |events| && Excess(events[..n]) == MaxExcess(events)
  {
    assert events[..0] == [] && events[..|events|] == events;
    if events != [] {
      var before := events[..|events| - 1];
      MaxExcessIsLargest(before);
      assert forall n :: 0 <= n < |events| ==> before[..n] == events[..n];
    }
  }

  lemma {:induction false} NeverAheadIff(events: seq<Event>)
    ensures MaxExcess(events) == 0 <==> forall n :: 0 <= n <= |events| ==> Excess(events[..n]) <= 0
  {
    if events != [] {
      var before := events[..|events| - 1];
      NeverAheadIff(before);
      assert forall n :: 0 <= n < |events| ==> before[..n] == events[..n];
      assert events[..|events|] == events;
    }
  }

  /** The counters add up exactly when at no point more requests had ended than started. */
  lemma CountersAddUpIff(events: seq<Event>)
    ensures var c := Tally(events);
      c.total == c.succeeded + c.failed + c.active <==>
      (forall n :: 0 <= n <= |events| ==> Excess(events[..n]) <= 0)
  {
    TallyIsConserved(events);
    NeverAheadIff(events);
  }

  function Latencies(events: seq<Event>): seq<real> {
    if events == [] then []
    else
      var before, last := Latencies(events[..|events| - 1]), events[|events| - 1];
      if last.Ended? then before + [last.latency] else before
  }

  function Streams(events: seq<Event>): nat {
    if events == [] then 0
    else
      var last := events[|events| - 1];
      Streams(events[..|events| - 1]) + if last.Started? && last.streaming then 1 else 0
  }

  datatype Rates = Rates(tokensPerSecond: real, requestsPerMinute: real)

  const NO_RATES := Rates(0.0, 0.0)

  function Quotient(x: real, y: real): real
    requires y != 0.0
  {
    x / y
  }

  function RatesAt(c: Counts, elapsed: real): Rates
    requires elapsed > 0.0
  {
    Rates(Quotient(c.tokensOut as real, elapsed), Quotient(c.total as real, elapsed / 60.0))
  }

  /** Tokens in a second, and requests in sixty. */
  lemma RatesAre(c: Counts, elapsed: real)
    requires elapsed > 0.0
    ensures RatesAt(c, elapsed).tokensPerSecond * elapsed == c.tokensOut as real
    ensures RatesAt(c, elapsed).requestsPerMinute * elapsed == 60.0 * c.total as real
  {
    QuotientIs(c.tokensOut as real, elapsed);
    QuotientIs(c.total as real, elapsed / 60.0);
    hide Quotient;
    var q := Quotient(c.total as real, elapsed / 60.0);
    assert q * elapsed == q * (elapsed / 60.0) * 60.0;
  }

  lemma QuotientIs(x: real, y: real)
    requires y != 0.0
    ensures Quotient(x, y) * y == x
  {
  }

  /** The rates as of the last end at which time had passed. */
  function RatesOf(events: seq<Event>): Rates {
    if events == [] then NO_RATES
    else
      var last := events[|events| - 1];
      if last.Ended? && last.elapsed > 0.0 then RatesAt(Tally(events), last.elapsed)
      else RatesOf(events[..|events| - 1])
  }

  /** The last `max` of the values. */
  function Recent(all: seq<real>, max: nat): seq<real> {
    if |all| <= max then all else all[|all| - max..]
  }

  lemma RecentMoves(all: seq<real>, x: real, max: nat)
    ensures Recent(all + [x], max) ==
      if |Recent(all, max) + [x]| > max then (Recent(all, max) + [x])[1..] else Recent(all, max) + [x]
  {
  }

  // ---------- By model ----------

  datatype ModelMetrics = ModelMetrics(counts: Counts, latencySum: real, avgLatency: real, tokensPerSecond: real)

  const NO_METRICS := ModelMetrics(NO_COUNTS, 0.0, 0.0, 0.0)

  function Noted(models: map<string, ModelMetrics>, event: Event): map<string, ModelMetrics> {
    match event
    case Started(model, _) =>
      var mm := if model in models then models[model] else NO_METRICS;
      models[model := mm.(counts := Counted(mm.counts, event))]
    case Ended(model, latency, _, _, _, elapsed) =>
      if model !in models then models
      else
        var counts := Counted(models[model].counts, event);
        var sum := models[model].latencySum + latency;
        var avg := if counts.total > 0 && counts.succeeded + counts.failed != 0
                   then Mean(sum, counts.succeeded + counts.failed) else models[model].avgLatency;
        var rate := if elapsed > 0.0 then RatesAt(counts, elapsed).tokensPerSecond else models[model].tokensPerSecond;
        models[model := ModelMetrics(counts, sum, avg, rate)]
  }

  function PerModel(events: seq<Event>): map<string, ModelMetrics> {
    if events == [] then map[] else Noted(PerModel(events[..|events| - 1]), events[|events| - 1])
  }

  /** The events of one model, from its first start. */
  function Own(events: seq<Event>, model: string): seq<Event> {
    if events == [] then []
    else
      var before, last := Own(events[..|events| - 1], model), events[|events| - 1];
      if last.model == model && (before != [] || last.Started?) then before + [last] else before
  }

  lemma OneMoreEvent(events: seq<Event>, event: Event)
    ensures Tally(events + [event]) == Counted(Tally(events), event)
    ensures PerModel(events + [event]) == Noted(PerModel(events), event)
    ensures event.Ended? ==> Latencies(events + [event]) == Latencies(events) + [event.latency]
    ensures event.Started? ==> Latencies(events + [event]) == Latencies(events)
    ensures Streams(events + [event]) == Streams(events) + if event.Started? && event.streaming then 1 else 0
    ensures RatesOf(events + [event]) ==
      if event.Ended? && event.elapsed > 0.0 then RatesAt(Tally(events + [event]), event.elapsed) else RatesOf(events)
  {
    assert (events + [event])[..|events|] == events;
  }

  /** The metrics are the tally, the mean latency and the token rate of the events. */
  predicate Describes(mm: ModelMetrics, own: seq<Event>) {
    && mm.counts == Tally(own)
    && mm.latencySum == Sum(Latencies(own))
    && |Latencies(own)| == mm.counts.succeeded + mm.counts.failed
    && mm.avgLatency == (if Latencies(own) == [] then 0.0 else Mean(Sum(Latencies(own)), |Latencies(own)|))
    && mm.tokensPerSecond == RatesOf(own).tokensPerSecond
    && (own != [] ==> mm.counts.total > 0)
  }

  lemma StartDescribed(mm: ModelMetrics, own: seq<Event>, event: Event)
    requires Describes(mm, own) && event.Started? && mm.counts.total >= 0
    ensures Describes(mm.(counts := Counted(mm.counts, event)), own + [event])
  {
    hide Mean, RatesAt;
    assert (own + [event])[..|own|] == own;
  }

  lemma EndDescribed(mm: ModelMetrics, own: seq<Event>, event: Event)
    requires Describes(mm, own) && own != [] && event.Ended?
    ensures Describes(Noted(map[event.model := mm], event)[event.model], own + [event])
  {
    hide Mean, RatesAt;
    assert (own + [event])[..|own|] == own;
    assert (Latencies(own) + [event.latency])[..|Latencies(own)|] == Latencies(own);
    EndIsCounted(mm.counts, event);
  }

  lemma {:induction false} PerModelIsOwnTally(events: seq<Event>, model: string)
    ensures model in PerModel(events) <==> Own(events, model) != []
    ensures model in PerModel(events) ==> Describes(PerModel(events)[model], Own(events, model))
  {
    if events != [] {
      var before, last := events[..|events| - 1], events[|events| - 1];
      PerModelIsOwnTally(before, model);
      var own := Own(before, model);
      if last.model == model && last.Started? {
        assert Describes(NO_METRICS, []);
        var mm := if model in PerModel(before) then PerModel(before)[model] else NO_METRICS;
        assert mm.counts.total >= 0;
        hide Describes;
        StartDescribed(mm, own, last);
      } else if last.model == model && own != [] {
        hide Describes;
        EndDescribed(PerModel(before)[model], own, last);
      }
    }
  }

  // ---------- The code ----------

  class InferenceMetrics {
    var counts: Counts
    var modelMetrics: map<string, ModelMetrics>
    var latencies: seq<real>
    var stats: Stats
    const maxLatencySample: nat
    var streamingReqs: int
    var rates: Rates
    var reconnectCount: int

    /** All that was recorded since the metrics were made or reset. */
    ghost var events: seq<Event>

    ghost predicate Valid()
      reads this
    {
      && counts == Tally(events)
      && modelMetrics == PerModel(events)
      && latencies == Recent(Latencies(events), maxLatencySample)
      && stats == StatsOf(latencies)
      && streamingReqs == Streams(events)
      && rates == RatesOf(events)
    }

    constructor (maxLatencySample: nat)
      ensures Valid() && events == [] && reconnectCount == 0 && this.maxLatencySample == maxLatencySample
    {
      this.maxLatencySample := maxLatencySample;
      counts, modelMetrics, latencies, stats := NO_COUNTS, map[], [], NO_STATS;
      streamingReqs, rates, reconnectCount := 0, NO_RATES, 0;
      events := [];
    }

    method RecordReconnect()
      requires Valid()
      modifies this`reconnectCount
      ensures Valid() && reconnectCount == old(reconnectCount) + 1
    {
      reconnectCount := reconnectCount + 1;
    }

    method RecordRequestStart(model: string, streaming: bool)
      requires Valid()
      modifies this
      ensures Valid() && events == old(events) + [Started(model, streaming)]
      ensures reconnectCount == old(reconnectCount)
    {
      hide Recent, StatsOf, Tally, PerModel, Latencies, Streams, RatesOf;
      OneMoreEvent(events, Started(model, streaming));
      counts := counts.(total := counts.total + 1, active := counts.active + 1);
      if streaming {
        streamingReqs := streamingReqs + 1;
      }
      if model !in modelMetrics {
        modelMetrics := modelMetrics[model := NO_METRICS];
      }
      var mm := modelMetrics[model];
      modelMetrics := modelMetrics[model := mm.(counts :=
        mm.counts.(total := mm.counts.total + 1, active := mm.counts.active + 1))];
      events := events + [Started(model, streaming)];
    }

    method RecordRequestEnd(model: string, latency: real, tokensIn: int, tokensOut: int, success: bool, elapsed: real)
      requires Valid()
      modifies this
      ensures Valid() && events == old(events) + [Ended(model, latency, tokensIn, tokensOut, success, elapsed)]
      ensures var grown := old(latencies) + [latency];
        latencies == if |grown| > maxLatencySample then grown[1..] else grown
      ensures elapsed > 0.0 ==> rates == RatesAt(counts, elapsed)
      ensures reconnectCount == old(reconnectCount)
    {
      hide Counted, Noted, Recent, StatsOf, Tally, PerModel, Latencies, Streams, RatesOf, RatesAt;
      var event := Ended(model, latency, tokensIn, tokensOut, success, elapsed);
      OneMoreEvent(events, event);
      counts := EndCounted(counts, tokensIn, tokensOut, success);
      RecordLatency(latency);
      if elapsed > 0.0 {
        rates := RatesAt(counts, elapsed);
      }
      RecordModelEnd(model, latency, tokensIn, tokensOut, success, elapsed);
      events := events + [event];
    }

    /** The window part of an end. */
    method RecordLatency(latency: real)
      requires latencies == Recent(Latencies(events), maxLatencySample) && stats == StatsOf(latencies)
      modifies this`latencies, this`stats
      ensures latencies == Recent(Latencies(events) + [latency], maxLatencySample) && stats == StatsOf(latencies)
      ensures var grown := old(latencies) + [latency];
        latencies == if |grown| > maxLatencySample then grown[1..] else grown
    {
      hide Recent, StatsOf, Latencies;
      RecentMoves(Latencies(events), latency, maxLatencySample);
      latencies := latencies + [latency];
      if |latencies| > maxLatencySample {
        latencies := latencies[1..];
      }
      UpdateLatencyStats();
    }

    method RecordModelEnd(model: string, latency: real, tokensIn: int, tokensOut: int, success: bool, elapsed: real)
      requires modelMetrics == PerModel(events)
      modifies this`modelMetrics
      ensures modelMetrics == Noted(old(modelMetrics), Ended(model, latency, tokensIn, tokensOut, success, elapsed))
    {
      hide Counted, Mean, Quotient;
      PerModelIsOwnTally(events, model);
      if model in modelMetrics {
        var mm := modelMetrics[model];
        EndIsCounted(mm.counts, Ended(model, latency, tokensIn, tokensOut, success, elapsed));
        var c := EndCounted(mm.counts, tokensIn, tokensOut, success);
        mm := mm.(counts := c, latencySum := mm.latencySum + latency);
        if mm.counts.total > 0 {
          mm := mm.(avgLatency := Mean(mm.latencySum, mm.counts.succeeded + mm.counts.failed));
        }
        if elapsed > 0.0 {
          mm := mm.(tokensPerSecond := Quotient(mm.counts.tokensOut as real, elapsed));
        }
        modelMetrics := modelMetrics[model := mm];
      }
    }

    method UpdateLatencyStats()
      modifies this`stats
      ensures stats == if latencies == [] then old(stats) else StatsOf(latencies)
      ensures latencies != [] ==>
        var sorted := Arranged(latencies, Less);
        && stats.avg == Mean(Sum(latencies), |latencies|)
        && stats.p50 == Percentile(sorted, 50.0) && stats.p95 == Percentile(sorted, 95.0)
        && stats.p99 == Percentile(sorted, 99.0)
    {
      hide Percentile, Mean, Arranged;
      if |latencies| == 0 {
        return;
      }
      var sum := 0.0;
      for i := 0 to |latencies|
        invariant sum == Sum(latencies[..i])
      {
        assert latencies[..i + 1][..i] == latencies[..i];
        sum := sum + latencies[i];
      }
      assert latencies[..|latencies|] == latencies;
      var window := latencies;
      var sorted := new real[|window|](i requires 0 <= i < |window| => window[i]);
      assert sorted[..] == latencies;
      InsertionSort(sorted, Less);
      ArrangedIsSorted(latencies, Less);
      ArrangementIsUnique(sorted[..], Arranged(latencies, Less), Less);
      stats := Stats(Mean(sum, |latencies|), Percentile(sorted[..], 50.0),
                     Percentile(sorted[..], 95.0), Percentile(sorted[..], 99.0));
    }

    method Reset()
      requires Valid()
      modifies this
      ensures Valid() && events == [] && reconnectCount == 0
    {
      counts, modelMetrics, latencies, stats := NO_COUNTS, map[], [], NO_STATS;
      streamingReqs, rates, reconnectCount := 0, NO_RATES, 0;
      events := [];
    }
  }
}
