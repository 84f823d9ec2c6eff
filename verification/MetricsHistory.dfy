/** The metrics history: recorded entries grouped into intervals of a given resolution. Times are
    nanoseconds since the zero time of Go's time package, the start of the year 1. */
module MetricsHistory {

  import opened Sorting
  import opened InferenceMetrics

  const SECOND: int := 1_000_000_000
  const RECORD_INTERVAL: int := 60 * SECOND

  /** Seconds from the zero time to the Unix epoch. */
  const UNIX_EPOCH: int := 62_135_596_800

  /** 1969 years of 365 days and their 477 leap days; the metrics are recorded once a minute. */
  lemma ClockConstants()
    ensures UNIX_EPOCH == (1969 * 365 + 477) * 24 * 60 * 60 && RECORD_INTERVAL == 60_000_000_000
  {
  }

  /** The averaged columns. */
  datatype Gauge = SuccessRate | AvgLatencyMs | P99LatencyMs | TokensPerSecond | RequestsPerMinute

  datatype Gauges = Gauges(
    successRate: real, avgLatencyMs: real, p99LatencyMs: real, tokensPerSecond: real, requestsPerMinute: real)
  {
    function Get(g: Gauge): real {
      match g
      case SuccessRate => successRate
      case AvgLatencyMs => avgLatencyMs
      case P99LatencyMs => p99LatencyMs
      case TokensPerSecond => tokensPerSecond
      case RequestsPerMinute => requestsPerMinute
    }
  }

  /** A database row, or a point of the answer: the answer has the same columns. */
  datatype Entry = Entry(timestamp: int, totalRequests: int, gauges: Gauges)

  // ---------- Bucket keys ----------

  /** Time.Truncate: down to a multiple of the resolution. */
  function Truncate(t: int, resolution: int): int
    requires resolution > 0
  {
    t - t % resolution
  }

  /** Time.Unix: whole seconds since the epoch, rounded down. */
  function Unix(t: int): int {
    t / SECOND - UNIX_EPOCH
  }

  function FromUnix(key: int): int {
    (key + UNIX_EPOCH) * SECOND
  }

  function BucketKey(t: int, resolution: int): int
    requires resolution > 0
  {
    Unix(Truncate(t, resolution))
  }

  lemma ProductIsMonotone(x: int, y: int, n: int)
    requires x <= y && n >= 0
    ensures x * n <= y * n
  {
    assert (y - x) * n >= 0;
  }

  lemma TruncateSteps(t: int, u: int, resolution: int)
    requires resolution > 0 && Truncate(t, resolution) < Truncate(u, resolution)
    ensures Truncate(t, resolution) + resolution <= Truncate(u, resolution)
  {
    TruncateIsMultiple(t, resolution);
    TruncateIsMultiple(u, resolution);
    hide Truncate;
    var a, b := t / resolution, u / resolution;
    if b <= a {
      ProductIsMonotone(b, a, resolution);
      assert false;
    }
    ProductIsMonotone(a + 1, b, resolution);
    assert (a + 1) * resolution == a * resolution + resolution;
  }

  lemma TruncateIsMultiple(t: int, resolution: int)
    requires resolution > 0
    ensures Truncate(t, resolution) == (t / resolution) * resolution
  {
  }

  /** Keys are in whole seconds, but two entries share a key exactly when they are in the same
      interval, because intervals are longer than a second. */
  lemma KeysTellIntervalsApart(t: int, u: int, resolution: int)
    requires resolution > RECORD_INTERVAL
    ensures BucketKey(t, resolution) == BucketKey(u, resolution) <==>
            Truncate(t, resolution) == Truncate(u, resolution)
    ensures Truncate(t, resolution) < Truncate(u, resolution) ==>
            BucketKey(t, resolution) + 59 < BucketKey(u, resolution)
  {
    var a, b := Truncate(t, resolution), Truncate(u, resolution);
    if a < b {
      TruncateSteps(t, u, resolution);
    } else if b < a {
      TruncateSteps(u, t, resolution);
    }
  }

  /** An entry lies in the interval its point's time starts; that time drops the fraction of a
      second by which a bucket may start late. */
  lemma EntryIsInItsInterval(t: int, resolution: int)
    requires resolution > RECORD_INTERVAL
    ensures Truncate(t, resolution) == (t / resolution) * resolution
    ensures var start := FromUnix(BucketKey(t, resolution));
      && start <= t < start + resolution + SECOND
      && (resolution % SECOND == 0 ==> start == Truncate(t, resolution) && t < start + resolution)
  {
    var a := Truncate(t, resolution);
    assert a == (t / resolution) * resolution;
    if resolution % SECOND == 0 {
      var k := resolution / SECOND;
      assert a == ((t / resolution) * k) * SECOND;
    }
  }

  // ---------- The direct group-by ----------

  /** The entries of a bucket, in the order given. */
  function Bucket(entries: seq<Entry>, resolution: int, key: int): seq<Entry>
    requires resolution > 0
  {
    if entries == [] then []
    else
      var before, last := Bucket(entries[..|entries| - 1], resolution, key), entries[|entries| - 1];
      if BucketKey(last.timestamp, resolution) == key then before + [last] else before
  }

  function Total(entries: seq<Entry>, g: Gauge): real {
    if entries == [] then 0.0
    else Total(entries[..|entries| - 1], g) + entries[|entries| - 1].gauges.Get(g)
  }

  function MaxTotal(entries: seq<Entry>): int {
    if entries == [] then 0
    else
      var before, last := MaxTotal(entries[..|entries| - 1]), entries[|entries| - 1].totalRequests;
      if last > before then last else before
  }

  /** The point is what the bucket with this key comes to. */
  predicate Summarises(point: Entry, bucket: seq<Entry>, key: int)
    requires bucket != []
  {
    && point.timestamp == FromUnix(key)
    && point.totalRequests == MaxTotal(bucket)
    && forall g: Gauge :: point.gauges.Get(g) == Mean(Total(bucket, g), |bucket|)
  }

  predicate Less(x: int, y: int) {
    x < y
  }

  /** The keys in use, ascending, each once. */
  ghost predicate KeysOf(keys: seq<int>, entries: seq<Entry>, resolution: int)
    requires resolution > 0
  {
    && (forall i, j :: 0 <= i < j < |keys| ==> keys[i] < keys[j])
    && (forall k :: k in keys <==> Bucket(entries, resolution, k) != [])
  }

  /** A point for every key in use, in order, summarising exactly the entries with that key. */
  ghost predicate GroupedBy(points: seq<Entry>, keys: seq<int>, entries: seq<Entry>, resolution: int)
    requires resolution > 0
  {
    && KeysOf(keys, entries, resolution)
    && |points| == |keys|
    && forall i :: 0 <= i < |keys| ==>
         keys[i] in keys && Summarises(points[i], Bucket(entries, resolution, keys[i]), keys[i])
  }

  // ---------- The code ----------

  method AggregateByResolution(entries: seq<Entry>, resolution: int)
    returns (points: seq<Entry>, ghost keys: seq<int>)
    ensures resolution <= RECORD_INTERVAL ==> points == entries
    ensures resolution > RECORD_INTERVAL ==> GroupedBy(points, keys, entries, resolution)
  {
    points, keys := [], [];
    if resolution <= RECORD_INTERVAL {
      for i := 0 to |entries|
        invariant points == entries[..i]
      {
        points := points + [Entry(entries[i].timestamp, entries[i].totalRequests, entries[i].gauges)];
      }
      return;
    }
    hide Summarises, Bucket;
    var buckets := FillBuckets(entries, resolution);
    var sortedKeys := SortedKeys(buckets);
    keys := sortedKeys[..];
    for n := 0 to sortedKeys.Length
      invariant |points| == n && keys == sortedKeys[..]
      invariant forall i :: 0 <= i < n ==>
        Summarises(points[i], Bucket(entries, resolution, keys[i]), keys[i])
    {
      var key := sortedKeys[n];
      assert key in sortedKeys[..] && key in buckets;
      var point := Summary(buckets[key], key);
      points := points + [point];
    }
  }

  method FillBuckets(entries: seq<Entry>, resolution: int) returns (buckets: map<int, seq<Entry>>)
    requires resolution > 0
    ensures forall k :: k in buckets <==> Bucket(entries, resolution, k) != []
    ensures forall k :: k in buckets ==> buckets[k] == Bucket(entries, resolution, k)
  {
    buckets := map[];
    for i := 0 to |entries|
      invariant forall k :: k in buckets <==> Bucket(entries[..i], resolution, k) != []
      invariant forall k :: k in buckets ==> buckets[k] == Bucket(entries[..i], resolution, k)
    {
      hide BucketKey;
      assert entries[..i + 1][..i] == entries[..i];
      var e := entries[i];
      var key := BucketKey(e.timestamp, resolution);
      buckets := buckets[key := (if key in buckets then buckets[key] else []) + [e]];
    }
    assert entries[..|entries|] == entries;
  }

  lemma HasElement(s: set<int>)
    requires s != {}
    ensures exists k :: k in s
  {
    if forall k :: k !in s {
      assert false;
    }
  }

  method KeysInAnyOrder(buckets: map<int, seq<Entry>>) returns (keys: seq<int>)
    ensures multiset(keys) == multiset(buckets.Keys)
  {
    keys := [];
    var todo := buckets.Keys;
    while todo != {}
      invariant todo <= buckets.Keys
      invariant multiset(keys) == multiset(buckets.Keys - todo)
      decreases todo
    {
      HasElement(todo);
      var k :| k in todo;
      assert buckets.Keys - (todo - {k}) == (buckets.Keys - todo) + {k};
      keys := keys + [k];
      todo := todo - {k};
    }
    assert buckets.Keys - {} == buckets.Keys;
  }

  method SortedKeys(buckets: map<int, seq<Entry>>) returns (a: array<int>)
    ensures fresh(a)
    ensures forall k :: k in a[..] <==> k in buckets
    ensures forall i, j :: 0 <= i < j < a.Length ==> a[i] < a[j]
  {
    var keys := KeysInAnyOrder(buckets);
    a := new int[|keys|](i requires 0 <= i < |keys| => keys[i]);
    assert a[..] == keys;
    InsertionSort(a, Less);
    ElementsOnce(a[..], buckets.Keys);
  }

  lemma ElementsOnce(s: seq<int>, elements: set<int>)
    requires Sorted(s, Less) && multiset(s) == multiset(elements)
    ensures forall k :: k in s <==> k in elements
    ensures forall i, j :: 0 <= i < j < |s| ==> s[i] < s[j]
  {
    forall k
      ensures k in s <==> k in elements
    {
      assert k in s <==> k in multiset(s);
    }
    forall i, j | 0 <= i < j < |s|
      ensures s[i] < s[j]
    {
      assert !Less(s[j], s[i]);
      assert s == s[..j] + s[j..];
      assert multiset(s[..j])[s[i]] >= 1 && multiset(s[j..])[s[j]] >= 1;
      assert multiset(s)[s[i]] == 1;
      assert multiset(s) == multiset(s[..j]) + multiset(s[j..]);
    }
  }

  /** The inner loop: five sums and the greatest total. */
  method Summary(bucket: seq<Entry>, key: int) returns (point: Entry)
    requires bucket != []
    ensures Summarises(point, bucket, key)
  {
    var sumSuccess, sumAvg, sumP99, sumTokens, sumRequests := 0.0, 0.0, 0.0, 0.0, 0.0;
    var maxTotal := 0;
    for i := 0 to |bucket|
      invariant sumSuccess == Total(bucket[..i], SuccessRate)
      invariant sumAvg == Total(bucket[..i], AvgLatencyMs)
      invariant sumP99 == Total(bucket[..i], P99LatencyMs)
      invariant sumTokens == Total(bucket[..i], TokensPerSecond)
      invariant sumRequests == Total(bucket[..i], RequestsPerMinute)
      invariant maxTotal == MaxTotal(bucket[..i])
    {
      assert bucket[..i + 1][..i] == bucket[..i];
      var e := bucket[i];
      sumSuccess := sumSuccess + e.gauges.successRate;
      sumAvg := sumAvg + e.gauges.avgLatencyMs;
      sumP99 := sumP99 + e.gauges.p99LatencyMs;
      sumTokens := sumTokens + e.gauges.tokensPerSecond;
      sumRequests := sumRequests + e.gauges.requestsPerMinute;
      if e.totalRequests > maxTotal {
        maxTotal := e.totalRequests;
      }
    }
    assert bucket[..|bucket|] == bucket;
    hide Mean;
    var n := |bucket|;
    point := Entry(FromUnix(key), maxTotal,
                   Gauges(Mean(sumSuccess, n), Mean(sumAvg, n), Mean(sumP99, n), Mean(sumTokens, n),
                          Mean(sumRequests, n)));
    forall g: Gauge
      ensures point.gauges.Get(g) == Mean(Total(bucket, g), n)
    {
      match g
      case SuccessRate =>
      case AvgLatencyMs =>
      case P99LatencyMs =>
      case TokensPerSecond =>
      case RequestsPerMinute =>
    }
  }

  // ---------- What the points say ----------

  lemma PointsAscend(points: seq<Entry>, keys: seq<int>, entries: seq<Entry>, resolution: int)
    requires resolution > 0 && GroupedBy(points, keys, entries, resolution)
    ensures forall i, j :: 0 <= i < j < |points| ==> points[i].timestamp < points[j].timestamp
  {
    forall i, j | 0 <= i < j < |points|
      ensures points[i].timestamp < points[j].timestamp
    {
      assert Summarises(points[i], Bucket(entries, resolution, keys[i]), keys[i]);
      assert Summarises(points[j], Bucket(entries, resolution, keys[j]), keys[j]);
    }
  }

  lemma {:induction false} BucketMembers(entries: seq<Entry>, resolution: int, key: int, e: Entry)
    requires resolution > 0
    ensures e in Bucket(entries, resolution, key) <==> e in entries && BucketKey(e.timestamp, resolution) == key
    ensures multiset(Bucket(entries, resolution, key))[e] <= multiset(entries)[e]
    ensures BucketKey(e.timestamp, resolution) == key ==>
      multiset(Bucket(entries, resolution, key))[e] == multiset(entries)[e]
  {
    if entries != [] {
      hide BucketKey;
      BucketMembers(entries[..|entries| - 1], resolution, key, e);
      WithoutLast(entries);
    }
  }

  /** How often an entry occurs in all the buckets together. */
  function Occurrences(entries: seq<Entry>, resolution: int, keys: seq<int>, e: Entry): nat
    requires resolution > 0
  {
    if keys == [] then 0
    else
      Occurrences(entries, resolution, keys[..|keys| - 1], e) +
      multiset(Bucket(entries, resolution, keys[|keys| - 1]))[e]
  }

  lemma {:induction false} OccursByKey(entries: seq<Entry>, resolution: int, keys: seq<int>, e: Entry)
    requires resolution > 0
    requires forall i, j :: 0 <= i < j < |keys| ==> keys[i] < keys[j]
    ensures Occurrences(entries, resolution, keys, e) ==
            if BucketKey(e.timestamp, resolution) in keys then multiset(entries)[e] else 0
  {
    if keys != [] {
      hide BucketKey;
      var before, last := keys[..|keys| - 1], keys[|keys| - 1];
      OccursByKey(entries, resolution, before, e);
      BucketMembers(entries, resolution, last, e);
      assert keys == before + [last];
      assert last !in before;
    }
  }

  /** Each entry is counted in one point and only once. */
  lemma EachEntryOnce(points: seq<Entry>, keys: seq<int>, entries: seq<Entry>, resolution: int, e: Entry)
    requires resolution > 0 && GroupedBy(points, keys, entries, resolution)
    ensures Occurrences(entries, resolution, keys, e) == multiset(entries)[e]
  {
    OccursByKey(entries, resolution, keys, e);
    BucketMembers(entries, resolution, BucketKey(e.timestamp, resolution), e);
  }

  /** The averages, each times the size of its bucket. */
  function Weighted(points: seq<Entry>, keys: seq<int>, entries: seq<Entry>, resolution: int, g: Gauge): real
    requires resolution > 0 && |points| == |keys|
  {
    if keys == [] then 0.0
    else
      var n := |keys| - 1;
      Weighted(points[..n], keys[..n], entries, resolution, g) +
      Times(|Bucket(entries, resolution, keys[n])|, points[n].gauges.Get(g))
  }

  function Times(count: nat, x: real): real {
    count as real * x
  }

  function BucketTotals(keys: seq<int>, entries: seq<Entry>, resolution: int, g: Gauge): real
    requires resolution > 0
  {
    if keys == [] then 0.0
    else
      BucketTotals(keys[..|keys| - 1], entries, resolution, g) +
      Total(Bucket(entries, resolution, keys[|keys| - 1]), g)
  }

  lemma TimesMean(sum: real, n: nat)
    requires n > 0
    ensures Times(n, Mean(sum, n)) == sum
  {
  }

  lemma {:induction false} WeightedIsTotal(points: seq<Entry>, keys: seq<int>, entries: seq<Entry>,
                                           resolution: int, g: Gauge)
    requires resolution > 0 && |points| == |keys|
    requires forall i :: 0 <= i < |keys| ==> Bucket(entries, resolution, keys[i]) != []
    requires forall i :: 0 <= i < |keys| ==>
      Summarises(points[i], Bucket(entries, resolution, keys[i]), keys[i])
    ensures Weighted(points, keys, entries, resolution, g) == BucketTotals(keys, entries, resolution, g)
  {
    if keys != [] {
      hide Times, Mean;
      var n := |keys| - 1;
      WeightedIsTotal(points[..n], keys[..n], entries, resolution, g);
      var bucket := Bucket(entries, resolution, keys[n]);
      TimesMean(Total(bucket, g), |bucket|);
    }
  }

  /** One more entry adds to one bucket. */
  lemma {:induction false} OneMoreEntry(keys: seq<int>, entries: seq<Entry>, resolution: int, g: Gauge)
    requires resolution > 0 && entries != []
    requires forall i, j :: 0 <= i < j < |keys| ==> keys[i] < keys[j]
    ensures var last := entries[|entries| - 1];
      BucketTotals(keys, entries, resolution, g) ==
      BucketTotals(keys, entries[..|entries| - 1], resolution, g) +
      if BucketKey(last.timestamp, resolution) in keys then last.gauges.Get(g) else 0.0
  {
    if keys != [] {
      hide BucketKey;
      var before, key := keys[..|keys| - 1], keys[|keys| - 1];
      OneMoreEntry(before, entries, resolution, g);
      assert keys == before + [key] && key !in before;
      var bucket := Bucket(entries[..|entries| - 1], resolution, key);
      assert (bucket + [entries[|entries| - 1]])[..|bucket|] == bucket;
    }
  }

  lemma {:induction false} TotalsAdd(keys: seq<int>, entries: seq<Entry>, resolution: int, g: Gauge)
    requires resolution > 0
    requires forall i, j :: 0 <= i < j < |keys| ==> keys[i] < keys[j]
    requires forall i :: 0 <= i < |entries| ==> BucketKey(entries[i].timestamp, resolution) in keys
    ensures BucketTotals(keys, entries, resolution, g) == Total(entries, g)
  {
    if entries == [] {
      NoTotals(keys, resolution, g);
    } else {
      TotalsAdd(keys, entries[..|entries| - 1], resolution, g);
      OneMoreEntry(keys, entries, resolution, g);
    }
  }

  lemma {:induction false} NoTotals(keys: seq<int>, resolution: int, g: Gauge)
    requires resolution > 0
    ensures BucketTotals(keys, [], resolution, g) == 0.0
  {
    if keys != [] {
      NoTotals(keys[..|keys| - 1], resolution, g);
    }
  }

  /** Weighted by the sizes of their buckets, the averages of each column add up to the column. */
  lemma AveragesAddUp(points: seq<Entry>, keys: seq<int>, entries: seq<Entry>, resolution: int, g: Gauge)
    requires resolution > 0 && GroupedBy(points, keys, entries, resolution)
    ensures Weighted(points, keys, entries, resolution, g) == Total(entries, g)
  {
    WeightedIsTotal(points, keys, entries, resolution, g);
    forall i | 0 <= i < |entries|
      ensures BucketKey(entries[i].timestamp, resolution) in keys
    {
      BucketMembers(entries, resolution, BucketKey(entries[i].timestamp, resolution), entries[i]);
    }
    TotalsAdd(keys, entries, resolution, g);
  }

  lemma {:induction false} TotalInRange(bucket: seq<Entry>, g: Gauge, low: real, high: real)
    requires forall i :: 0 <= i < |bucket| ==> low <= bucket[i].gauges.Get(g) <= high
    ensures Times(|bucket|, low) <= Total(bucket, g) <= Times(|bucket|, high)
  {
    if bucket != [] {
      TotalInRange(bucket[..|bucket| - 1], g, low, high);
      TimesOneMore(|bucket| - 1, low);
      TimesOneMore(|bucket| - 1, high);
      hide Times;
    }
  }

  lemma TimesOneMore(n: nat, x: real)
    ensures Times(n + 1, x) == Times(n, x) + x
  {
    assert (n + 1) as real == n as real + 1.0;
  }

  lemma {:induction false} MaxTotalIs(bucket: seq<Entry>)
    ensures MaxTotal(bucket) >= 0
    ensures forall i :: 0 <= i < |bucket| ==> bucket[i].totalRequests <= MaxTotal(bucket)
    ensures MaxTotal(bucket) == 0 || exists i :: 0 <= i < |bucket| && bucket[i].totalRequests == MaxTotal(bucket)
  {
    if bucket != [] {
      var t := bucket[..|bucket| - 1];
      MaxTotalIs(t);
      if MaxTotal(t) != 0 && MaxTotal(t) == MaxTotal(bucket) {
        var i :| 0 <= i < |t| && t[i].totalRequests == MaxTotal(t);
        assert bucket[i].totalRequests == MaxTotal(bucket);
      }
    }
  }

  /** Each average lies in every range that holds its bucket's values. The request count is at
      least every one in the bucket, and is one of them exactly when not all are negative. */
  lemma PointIsInRange(point: Entry, bucket: seq<Entry>, key: int, g: Gauge, low: real, high: real)
    requires bucket != [] && Summarises(point, bucket, key)
    requires forall i :: 0 <= i < |bucket| ==> low <= bucket[i].gauges.Get(g) <= high
    ensures low <= point.gauges.Get(g) <= high
    ensures forall i :: 0 <= i < |bucket| ==> bucket[i].totalRequests <= point.totalRequests
    ensures (exists i :: 0 <= i < |bucket| && bucket[i].totalRequests == point.totalRequests) <==>
            (exists i :: 0 <= i < |bucket| && bucket[i].totalRequests >= 0)
  {
    TotalInRange(bucket, g, low, high);
    QuotientInRange(Total(bucket, g), |bucket| as real, low, high);
    MaxTotalIs(bucket);
  }
}
