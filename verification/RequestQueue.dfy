/** The request queue: admission limits, per-model counts, counters and the three ways in which
    the queue itself answers a request (expiry sweep, cancellation, shutdown drain).
    Every method body is one critical section of the queue's mutex, except DrainQueue,
    which is the loop over them that runs after Stop. */
module RequestQueue {
  import opened RequestHeap

  datatype Config = Config(maxQueueSize: int, maxPerModelQueue: int, defaultTimeout: int)

  datatype EnqueueResult = Accepted | ErrQueueStopped | ErrQueueFull | ErrModelQueueFull

  /** Without a process function a request that was dequeued in time is dropped. */
  datatype Outcome = Idle | AnsweredCancelled | HandedOver | Dropped

  /** Duration.Milliseconds; durations and instants are in nanoseconds. Go's division truncates. */
  function Milliseconds(d: int): int {
    if d >= 0 then d / 1_000_000 else -(-d / 1_000_000)
  }

  /** Whole milliseconds, towards zero. */
  lemma MillisecondsAre(d: int)
    ensures d >= 0 ==> Milliseconds(d) * 1_000_000 <= d < (Milliseconds(d) + 1) * 1_000_000
    ensures Milliseconds(-d) == -Milliseconds(d)
  {
  }

  /** The requests of one model. */
  ghost function OfModel(s: set<QueuedRequest>, m: string): set<QueuedRequest> {
    set r | r in s && r.modelID == m
  }

  /** Go's map lookup: a missing key reads as zero. */
  function CountFor(counts: map<string, int>, m: string): int {
    if m in counts then counts[m] else 0
  }

  /** counts[m]-- followed by the removal of a zero entry. */
  function Decremented(counts: map<string, int>, m: string): map<string, int> {
    var c := CountFor(counts, m) - 1;
    if c == 0 then counts - {m} else counts[m := c]
  }

  /** The count of every model is the number of its queued requests, and no entry is zero. */
  ghost predicate CountsMatch(counts: map<string, int>, s: set<QueuedRequest>) {
    && (forall m: string :: CountFor(counts, m) == |OfModel(s, m)|)
    && (forall m :: m in counts ==> counts[m] > 0)
  }

  lemma CountsAfterAdding(counts: map<string, int>, s: set<QueuedRequest>, x: QueuedRequest)
    requires CountsMatch(counts, s) && x !in s
    ensures CountsMatch(counts[x.modelID := CountFor(counts, x.modelID) + 1], s + {x})
  {
    var counts' := counts[x.modelID := CountFor(counts, x.modelID) + 1];
    forall m: string ensures CountFor(counts', m) == |OfModel(s + {x}, m)| {
      OneMoreOfModel(s, x, m);
      assert CountFor(counts, m) == |OfModel(s, m)|;
      hide OfModel;
    }
    hide OfModel;
    assert CountFor(counts, x.modelID) == |OfModel(s, x.modelID)|;
  }

  lemma OneMoreOfModel(s: set<QueuedRequest>, x: QueuedRequest, m: string)
    requires x !in s
    ensures |OfModel(s + {x}, m)| == |OfModel(s, m)| + if x.modelID == m then 1 else 0
  {
    assert OfModel(s + {x}, m) == if x.modelID == m then OfModel(s, m) + {x} else OfModel(s, m);
  }

  lemma CountsAfterRemoving(counts: map<string, int>, s: set<QueuedRequest>, x: QueuedRequest)
    requires CountsMatch(counts, s) && x in s
    ensures CountsMatch(Decremented(counts, x.modelID), s - {x})
    ensures forall m: string :: CountFor(Decremented(counts, x.modelID), m) <= CountFor(counts, m)
  {
    var counts' := Decremented(counts, x.modelID);
    assert x in OfModel(s, x.modelID);
    assert CountFor(counts, x.modelID) == |OfModel(s, x.modelID)| > 0;
    forall m: string ensures CountFor(counts', m) == |OfModel(s - {x}, m)| {
      assert OfModel(s - {x}, m) == if x.modelID == m then OfModel(s, m) - {x} else OfModel(s, m);
      assert CountFor(counts, m) == |OfModel(s, m)|;
    }
  }

  lemma {:induction false} DistinctCardinality(q: seq<QueuedRequest>, s: set<QueuedRequest>)
    requires forall a, b :: 0 <= a < b < |q| ==> q[a] != q[b]
    requires forall r :: r in q <==> r in s
    ensures |q| == |s|
  {
    if q == [] {
      assert s == {};
    } else {
      var last := q[|q| - 1];
      DistinctCardinality(q[..|q| - 1], s - {last});
    }
  }

  class RequestQueue {
    const config: Config
    const heap: Heap
    var perModelCount: map<string, int>
    var running: bool
    var stopChOpen: bool           // the current stopCh is not closed
    var launches: nat              // how often the processor and the timeout checker were started
    var hasProcessFunc: bool
    var totalEnqueued: int
    var totalDequeued: int
    var totalRejected: int
    var totalTimedOut: int
    var totalCancelled: int
    var totalWaitTime: int
    var waitTimeCount: int
    var maxWaitTime: int
    /** How often each request was admitted: the number of answers it may get. */
    ghost var admissions: map<QueuedRequest, nat>

    constructor (config: Config)
      ensures Valid() && heap.contents == {} && !running && admissions == map[] && this.config == config
      ensures stopChOpen && launches == 0 && !hasProcessFunc
      ensures fresh(heap)
    {
      this.config := config;
      heap := new Heap();
      perModelCount, running, admissions := map[], false, map[];
      stopChOpen, launches, hasProcessFunc := true, 0, false;
      totalEnqueued, totalDequeued, totalRejected, totalTimedOut, totalCancelled := 0, 0, 0, 0, 0;
      totalWaitTime, waitTimeCount, maxWaitTime := 0, 0, 0;
      new;
      assert forall m: string :: OfModel({}, m) == {};
    }

    /** Both admission limits. A limit that is not positive admits nothing. */
    ghost predicate WithinLimits()
      reads this`perModelCount, heap`slots
    {
      && (|heap.slots| > 0 ==> |heap.slots| <= config.maxQueueSize)
      && (forall m :: m in perModelCount ==> perModelCount[m] <= config.maxPerModelQueue)
    }

    /** Every answer the queue gave is paid for by an admission, and a queued request
        still has an admission left. */
    ghost predicate AnswersPaidFor()
      reads this`admissions, heap`contents, admissions.Keys`results
    {
      && heap.contents <= admissions.Keys
      && forall r :: r in admissions ==>
           |r.results| + (if r in heap.contents then 1 else 0) <= admissions[r]
    }

    ghost predicate Valid()
      reads this`perModelCount, this`running, this`stopChOpen, this`totalEnqueued, this`totalDequeued, this`totalTimedOut, this`admissions,
        heap, heap.contents`index, heap.contents`enqueueTime, admissions.Keys`results
    {
      && heap.Valid()
      && CountsMatch(perModelCount, heap.contents)
      && WithinLimits()
      && totalEnqueued == totalDequeued + totalTimedOut + |heap.slots|
      && AnswersPaidFor()
      && (running ==> stopChOpen)
      && Stamped()
    }

    /** Queued requests have an enqueue time. */
    ghost predicate Stamped()
      reads heap`contents, heap.contents`enqueueTime
    {
      forall r :: r in heap.contents ==> r.enqueueTime != ZERO_TIME
    }

    /** Start: makes the channels and launches the two goroutines, unless the queue is running. */
    method Start()
      requires Valid()
      modifies this`running, this`stopChOpen, this`launches
      ensures Valid() && running && stopChOpen
      ensures launches == old(launches) + if old(running) then 0 else 1
    {
      if running {
        return;
      }
      running := true;
      stopChOpen := true;
      launches := launches + 1;
    }

    /** The critical section of Stop: closes stopCh, which is never closed already, unless the
        queue is not running. Draining follows. */
    method Stop()
      requires Valid()
      modifies this`running, this`stopChOpen
      ensures Valid() && !running
      ensures stopChOpen == (if old(running) then false else old(stopChOpen))
    {
      if !running {
        return;
      }
      running := false;
      assert stopChOpen;
      stopChOpen := false;
    }

    method SetProcessFunc(given: bool)
      requires Valid()
      modifies this`hasProcessFunc
      ensures Valid() && hasProcessFunc == given
    {
      hasProcessFunc := given;
    }

    /** The clock does not show the zero time. An accepted request keeps the queue consistent if and
        only if it is not queued already: the code does not check that. */
    method Enqueue(req: QueuedRequest, now: int, later: int) returns (result: EnqueueResult)
      requires Valid() && now != ZERO_TIME
      requires req !in admissions ==> req.results == []
      modifies this, heap, heap.contents`index, req`index, req`enqueueTime, req`deadline, req`cancelled
      ensures Valid() <==> !(result == Accepted && req in old(heap.contents))
      ensures result == ErrQueueStopped <==> !old(running)
      ensures result == ErrQueueFull <==> old(running && |heap.slots| >= config.maxQueueSize)
      ensures result == ErrModelQueueFull <==>
        old(running && |heap.slots| < config.maxQueueSize
            && |OfModel(heap.contents, req.modelID)| >= config.maxPerModelQueue)
      ensures result == Accepted ==>
        && heap.contents == old(heap.contents) + {req}
        && multiset(heap.slots) == multiset(old(heap.slots)) + multiset{req}
        && totalEnqueued == old(totalEnqueued) + 1 && totalRejected == old(totalRejected)
        && req.enqueueTime == (if old(req.enqueueTime) == ZERO_TIME then now else old(req.enqueueTime))
        && req.deadline == (if old(req.deadline) == ZERO_TIME then later + config.defaultTimeout else old(req.deadline))
        && !req.cancelled
        && admissions == old(admissions)[req := 1 + if req in old(admissions) then old(admissions)[req] else 0]
      ensures result != Accepted ==>
        && heap.contents == old(heap.contents) && heap.slots == old(heap.slots)
        && unchanged(req) && admissions == old(admissions) && totalEnqueued == old(totalEnqueued)
        && totalRejected == old(totalRejected) + if result == ErrQueueStopped then 0 else 1
      ensures running == old(running) && totalDequeued == old(totalDequeued)
      ensures totalTimedOut == old(totalTimedOut) && totalCancelled == old(totalCancelled)
    {
      hide Valid, OfModel, CountsMatch;
      KnowsItsCounts(req);
      if !running {
        return ErrQueueStopped;
      }
      if |heap.slots| >= config.maxQueueSize {
        totalRejected := totalRejected + 1;
        return ErrQueueFull;
      }
      if CountFor(perModelCount, req.modelID) >= config.maxPerModelQueue {
        totalRejected := totalRejected + 1;
        return ErrModelQueueFull;
      }
      if req.enqueueTime == ZERO_TIME {
        req.enqueueTime := now;
      }
      if req.deadline == ZERO_TIME {
        req.deadline := later + config.defaultTimeout;
      }
      req.cancelled := false;
      Admit(req);
      return Accepted;
    }

    lemma KnowsItsCounts(req: QueuedRequest)
      requires Valid()
      ensures CountFor(perModelCount, req.modelID) == |OfModel(heap.contents, req.modelID)|
      ensures req in heap.contents ==> req.enqueueTime != ZERO_TIME
    {
      hide OfModel;
    }

    /** The last part of Enqueue, once both limits allow the request. */
    method Admit(req: QueuedRequest)
      requires Valid() && req.enqueueTime != ZERO_TIME
      requires req !in admissions ==> req.results == []
      requires |heap.slots| < config.maxQueueSize && CountFor(perModelCount, req.modelID) < config.maxPerModelQueue
      modifies this`perModelCount, this`admissions, this`totalEnqueued, heap, heap.contents`index, req`index
      ensures Valid() <==> req !in old(heap.contents)
      ensures heap.contents == old(heap.contents) + {req}
      ensures multiset(heap.slots) == multiset(old(heap.slots)) + multiset{req}
      ensures totalEnqueued == old(totalEnqueued) + 1
      ensures admissions == old(admissions)[req := 1 + if req in old(admissions) then old(admissions)[req] else 0]
    {
      hide Heap.Valid, Heap.Filled, Heap.Linked, Ordered, CountsMatch, OfModel;
      if req !in heap.contents {
        CountsAfterAdding(perModelCount, heap.contents, req);
      }
      heap.Push(req);
      perModelCount := perModelCount[req.modelID := CountFor(perModelCount, req.modelID) + 1];
      admissions := admissions[req := 1 + if req in admissions then admissions[req] else 0];
      totalEnqueued := totalEnqueued + 1;
    }

    /** The request has left the queue and an answer to it is still owed. */
    ghost predicate MayAnswer(req: QueuedRequest)
      reads this`admissions, heap`contents, req`results
    {
      req !in heap.contents && req in admissions && |req.results| < admissions[req]
    }

    /** A send on the request's result channel. */
    method Answer(req: QueuedRequest, error: QueueError)
      requires Valid() && MayAnswer(req)
      modifies req`results
      ensures Valid() && req.results == old(req.results) + [error]
    {
      req.results := req.results + [error];
    }

    lemma EmptyIffNoSlots()
      requires Valid()
      ensures heap.contents == {} <==> |heap.slots| == 0
    {
      heap.EmptyIffNoSlots();
    }

    lemma QueuedHasSlot(req: QueuedRequest)
      requires Valid() && req in heap.contents
      ensures 0 <= req.index < |heap.slots| && heap.slots[req.index] == req
    {
    }

    /** Of the three paths that answer, at most one ever answers a request that was enqueued once,
        and none has while it is queued. */
    lemma AtMostOneAnswer(req: QueuedRequest)
      requires Valid() && req in admissions && admissions[req] == 1
      ensures |req.results| <= 1
      ensures req in heap.contents ==> req.results == []
      ensures req.results != [] ==> !MayAnswer(req)
    {
    }

    /** Entries are distinct: a request has one slot, the one its index names. */
    lemma OneSlotEach(i: int, j: int)
      requires Valid() && 0 <= i < |heap.slots| && 0 <= j < |heap.slots|
      ensures heap.slots[i].index == i
      ensures heap.slots[i] == heap.slots[j] ==> i == j
    {
      assert heap.slots[i].index == i && heap.slots[j].index == j;
    }

    /** EnqueueWithTimeout gives up: the request stays queued with its context cancelled. */
    method GiveUp(req: QueuedRequest)
      requires Valid()
      modifies req`cancelled
      ensures Valid() && req.cancelled
    {
      req.cancelled := true;
    }

    /** The part of Dequeue that takes the request out. */
    method TakeFirst() returns (req: QueuedRequest)
      requires Valid() && heap.contents != {}
      modifies this`perModelCount, this`totalDequeued, heap, heap.contents`index
      ensures Valid() && req in old(heap.contents) && heap.contents == old(heap.contents) - {req}
      ensures req.index == -1 && |heap.slots| == old(|heap.slots|) - 1
      ensures forall y :: y in heap.contents ==> y.priority <= req.priority
      ensures forall y :: y in heap.contents && y.priority == req.priority ==> req.enqueueTime <= y.enqueueTime
      ensures totalDequeued == old(totalDequeued) + 1 && MayAnswer(req)
    {
      hide Heap.Valid, CountsMatch, OfModel;
      heap.EmptyIffNoSlots();
      req := heap.Pop();
      CountsAfterRemoving(perModelCount, old(heap.contents), req);
      perModelCount := Decremented(perModelCount, req.modelID);
      totalDequeued := totalDequeued + 1;
    }

    /** Nothing but the queue position of the requests changes, and the request that leaves
        is one that no remaining request precedes. */
    method Dequeue(now: int) returns (req: QueuedRequest?)
      requires Valid()
      modifies this`perModelCount, this`totalDequeued, this`totalWaitTime, this`waitTimeCount, this`maxWaitTime,
        heap, heap.contents`index
      ensures Valid()
      ensures req == null <==> old(heap.contents) == {}
      ensures req == null ==> unchanged(this) && unchanged(heap)
      ensures req != null ==>
        && req in old(heap.contents) && heap.contents == old(heap.contents) - {req} && req.index == -1
        && |heap.slots| == old(|heap.slots|) - 1
        && (forall y :: y in heap.contents ==> y.priority <= req.priority)
        && (forall y :: y in heap.contents && y.priority == req.priority ==> req.enqueueTime <= y.enqueueTime)
        && MayAnswer(req)
        && totalDequeued == old(totalDequeued) + 1
        && waitTimeCount == old(waitTimeCount) + 1
        && (var waitTime := Milliseconds(now - req.enqueueTime);
            && totalWaitTime == old(totalWaitTime) + waitTime
            && maxWaitTime == if waitTime > old(maxWaitTime) then waitTime else old(maxWaitTime))
    {
      hide Valid, Milliseconds, PastDeadline;
      EmptyIffNoSlots();
      if |heap.slots| == 0 {
        return null;
      }
      req := TakeFirst();
      var waitTime := Milliseconds(now - req.enqueueTime);
      totalWaitTime := totalWaitTime + waitTime;
      waitTimeCount := waitTimeCount + 1;
      if waitTime > maxWaitTime {
        maxWaitTime := waitTime;
      }
    }

    /** What the sweep does with one expired request. */
    method Expire(req: QueuedRequest)
      requires Valid() && req in heap.contents
      modifies this`perModelCount, this`totalTimedOut, heap, heap.contents`index, req`results
      ensures Valid() && heap.contents == old(heap.contents) - {req} && req.index == -1
      ensures req.results == old(req.results) + [RequestTimeout]
      ensures totalTimedOut == old(totalTimedOut) + 1
    {
      hide CountsMatch, OfModel;
      var _ := heap.Remove(req.index);
      CountsAfterRemoving(perModelCount, old(heap.contents), req);
      perModelCount := Decremented(perModelCount, req.modelID);
      totalTimedOut := totalTimedOut + 1;
      Answer(req, RequestTimeout);
    }

    /** The first pass of the sweep: the expired requests in slot order. */
    method CollectExpired(now: int) returns (toRemove: seq<QueuedRequest>)
      requires Valid()
      ensures forall r :: r in toRemove <==> r in heap.contents && now > r.deadline
      ensures forall a, b :: 0 <= a < b < |toRemove| ==> toRemove[a] != toRemove[b]
    {
      toRemove := [];
      for i := 0 to |heap.slots|
        invariant forall r :: r in toRemove <==> r in heap.contents && r.index < i && now > r.deadline
        invariant forall a, b :: 0 <= a < b < |toRemove| ==> toRemove[a].index < toRemove[b].index
      {
        var req := heap.slots[i];
        if now > req.deadline {
          toRemove := toRemove + [req];
        }
      }
    }

    /** The second pass of the sweep: removes each request by its current index, while every
        removal moves other requests around. */
    method ExpireAll(toRemove: seq<QueuedRequest>)
      requires Valid() && forall r :: r in toRemove ==> r in heap.contents
      requires forall a, b :: 0 <= a < b < |toRemove| ==> toRemove[a] != toRemove[b]
      modifies this`perModelCount, this`totalTimedOut, heap, heap.contents`index, heap.contents`results
      ensures Valid() && heap.contents <= old(heap.contents)
      ensures forall r :: r in old(heap.contents) ==> (r in heap.contents <==> r !in toRemove)
      ensures forall r :: r in toRemove ==> r.index == -1 && r.results == old(r.results) + [RequestTimeout]
      ensures forall r :: r in heap.contents ==> r.results == old(r.results)
      ensures totalTimedOut == old(totalTimedOut) + |toRemove|
    {
      hide Valid;
      for k := 0 to |toRemove|
        invariant Valid() && heap.contents <= old(heap.contents)
        invariant forall r :: r in old(heap.contents) ==> (r in heap.contents <==> r !in toRemove[..k])
        invariant forall j :: 0 <= j < k ==>
          toRemove[j].index == -1 && toRemove[j].results == old(toRemove[j].results) + [RequestTimeout]
        invariant forall r :: r in heap.contents ==> r.results == old(r.results)
        invariant totalTimedOut == old(totalTimedOut) + k
      {
        var req := toRemove[k];
        assert req !in toRemove[..k];
        QueuedHasSlot(req);
        if req.index >= 0 {
          Expire(req);
        }
        assert toRemove[..k + 1] == toRemove[..k] + [req];
      }
      assert toRemove[..|toRemove|] == toRemove;
    }

    /** The expiry sweep: exactly the requests past their deadline leave, each with one
        timeout answer. */
    method RemoveTimedOut(now: int)
      requires Valid()
      modifies this`perModelCount, this`totalTimedOut, heap, heap.contents`index, heap.contents`results
      ensures Valid()
      ensures heap.contents == set r | r in old(heap.contents) && now <= r.deadline
      ensures forall r :: r in old(heap.contents) && now > r.deadline ==>
        r.index == -1 && r.results == old(r.results) + [RequestTimeout]
      ensures forall r :: r in heap.contents ==> r.results == old(r.results)
      ensures totalTimedOut == old(totalTimedOut) + |old(heap.contents) - heap.contents|
    {
      hide Valid;
      var toRemove := CollectExpired(now);
      ExpireAll(toRemove);
      DistinctCardinality(toRemove, old(heap.contents) - heap.contents);
    }

    /** The context of a dequeued request is done: cancelled or past its deadline. */
    predicate ContextDone(req: QueuedRequest, now: int)
      reads req`cancelled, req`deadline
    {
      req.cancelled || now >= req.deadline
    }

    /** One turn of processLoop while the queue is running. */
    method ProcessNext(now: int, later: int) returns (outcome: Outcome, req: QueuedRequest?)
      requires Valid()
      modifies this`perModelCount, this`totalDequeued, this`totalWaitTime, this`waitTimeCount, this`maxWaitTime,
        this`totalCancelled, heap, heap.contents`index, heap.contents`results
      ensures Valid()
      ensures outcome == Idle <==> req == null
      ensures req == null <==> old(heap.contents) == {}
      ensures outcome == Idle ==> heap.contents == old(heap.contents)
      ensures req != null ==>
        && req in old(heap.contents) && heap.contents == old(heap.contents) - {req}
        && (forall y :: y in heap.contents ==> y.priority <= req.priority)
        && (forall y :: y in heap.contents && y.priority == req.priority ==> req.enqueueTime <= y.enqueueTime)
        && outcome == (if req.cancelled || later >= req.deadline then AnsweredCancelled
                       else if hasProcessFunc then HandedOver else Dropped)
        && req.results == old(req.results) +
             (if req.cancelled || later >= req.deadline then [RequestCancelled] else [])
      ensures forall r :: r in heap.contents ==> r.results == old(r.results)
      ensures totalCancelled == old(totalCancelled) + if outcome == AnsweredCancelled then 1 else 0
    {
      hide Heap.Valid, CountsMatch;
      req := Dequeue(now);
      if req == null {
        return Idle, null;
      }
      if ContextDone(req, later) {
        totalCancelled := totalCancelled + 1;
        Answer(req, RequestCancelled);
        return AnsweredCancelled, req;
      }
      return if hasProcessFunc then HandedOver else Dropped, req;
    }

    /** Any number of sweeps in a row. */
    method SweepAll(times: seq<int>)
      requires Valid()
      modifies this`perModelCount, this`totalTimedOut, heap, heap.contents`index, heap.contents`results
      ensures Valid() && heap.contents <= old(heap.contents)
      ensures forall r :: r in old(heap.contents) && r !in heap.contents ==>
        r.results == old(r.results) + [RequestTimeout] && PastDeadline(r, times)
      ensures forall r :: r in heap.contents ==> r.results == old(r.results)
    {
      hide Valid;
      for i := 0 to |times|
        invariant Valid() && heap.contents <= old(heap.contents)
        invariant forall r :: r in old(heap.contents) && r !in heap.contents ==>
          r.results == old(r.results) + [RequestTimeout] && PastDeadline(r, times)
        invariant forall r :: r in heap.contents ==> r.results == old(r.results)
      {
        RemoveTimedOut(times[i]);
      }
    }

    /** One of the instants is past the deadline. */
    predicate PastDeadline(req: QueuedRequest, times: seq<int>)
      reads req`deadline
    {
      exists i :: 0 <= i < |times| && times[i] > req.deadline
    }

    lemma PastDeadlineIs(req: QueuedRequest, times: seq<int>)
      ensures PastDeadline(req, times) <==> exists t :: t in times && t > req.deadline
    {
      if PastDeadline(req, times) {
        var i :| 0 <= i < |times| && times[i] > req.deadline;
        assert times[i] in times;
      }
    }

    /** One turn of the drain, after any sweeps. */
    method DrainOne(now: int, times: seq<int>) returns (req: QueuedRequest?)
      requires Valid()
      modifies this`perModelCount, this`totalDequeued, this`totalWaitTime, this`waitTimeCount, this`maxWaitTime,
        this`totalTimedOut, heap, heap.contents`index, heap.contents`results
      ensures Valid() && heap.contents <= old(heap.contents)
      ensures req == null ==> heap.contents == {} && totalDequeued == old(totalDequeued)
      ensures req != null ==>
        && req in old(heap.contents) && req !in heap.contents
        && req.results == old(req.results) + [QueueShutdown]
        && (forall y :: y in heap.contents ==> y.priority <= req.priority)
        && (forall y :: y in heap.contents && y.priority == req.priority ==> req.enqueueTime <= y.enqueueTime)
        && (forall y :: y in heap.contents ==> !Precedes(y.GetRank(), req.GetRank()))
        && totalDequeued == old(totalDequeued) + 1
      ensures forall r :: r in heap.contents ==> r.results == old(r.results)
      ensures forall r :: r in old(heap.contents) && r !in heap.contents && r != req ==>
        r.results == old(r.results) + [RequestTimeout] && PastDeadline(r, times)
    {
      hide Valid, Milliseconds, PastDeadline;
      SweepAll(times);
      req := Dequeue(now);
      if req != null {
        Answer(req, QueueShutdown);
      }
    }

    lemma NotPrecedingAll(answered: seq<QueuedRequest>)
      requires forall i, j :: 0 <= i < j < |answered| ==> !Precedes(answered[j].GetRank(), answered[i].GetRank())
      ensures forall i, j :: 0 <= i < j < |answered| ==>
        && answered[j].priority <= answered[i].priority
        && (answered[j].priority == answered[i].priority ==> answered[i].enqueueTime <= answered[j].enqueueTime)
    {
    }

    /** The shutdown drain: dequeues until the queue is empty. The timeout checker may still be at
        work: `sweeps(n)` are the instants of its sweeps before the n-th Dequeue, `clock(n)` the
        instant of that. Every queued request gets one answer, in order but for those that a sweep
        finds past their deadline first. */
    method DrainQueue(clock: nat -> int, sweeps: nat -> seq<int>) returns (ghost answered: seq<QueuedRequest>)
      requires Valid()
      modifies this`perModelCount, this`totalDequeued, this`totalWaitTime, this`waitTimeCount, this`maxWaitTime,
        this`totalTimedOut, heap, heap.contents`index, heap.contents`results
      ensures Valid() && heap.contents == {}
      ensures forall r :: r in answered ==> r in old(heap.contents)
      ensures forall i, j :: 0 <= i < j < |answered| ==>
        && answered[i] != answered[j] && answered[j].priority <= answered[i].priority
        && (answered[j].priority == answered[i].priority ==> answered[i].enqueueTime <= answered[j].enqueueTime)
      ensures forall r :: r in old(heap.contents) ==>
        r.results == old(r.results) + [if r in answered then QueueShutdown else RequestTimeout]
      ensures forall r :: r in old(heap.contents) && r !in answered ==> exists n :: PastDeadline(r, sweeps(n))
      ensures totalDequeued == old(totalDequeued) + |answered|
    {
      hide Valid, Milliseconds, PastDeadline, Precedes;
      answered := [];
      var n := 0;
      while true
        invariant Valid() && heap.contents <= old(heap.contents)
        invariant forall r :: r in answered ==> r in old(heap.contents) && r !in heap.contents
        invariant forall i, j :: 0 <= i < j < |answered| ==>
          answered[i] != answered[j] && !Precedes(answered[j].GetRank(), answered[i].GetRank())
        invariant forall i, y :: 0 <= i < |answered| && y in heap.contents ==>
          !Precedes(y.GetRank(), answered[i].GetRank())
        invariant forall r :: r in heap.contents ==> r.results == old(r.results)
        invariant forall r :: r in old(heap.contents) && r !in heap.contents ==>
          r.results == old(r.results) + [if r in answered then QueueShutdown else RequestTimeout]
        invariant forall r :: r in old(heap.contents) && r !in heap.contents && r !in answered ==>
          exists k :: PastDeadline(r, sweeps(k))
        invariant totalDequeued == old(totalDequeued) + |answered|
        decreases heap.contents
      {
        var req := DrainOne(clock(n), sweeps(n));
        if req == null {
          NotPrecedingAll(answered);
          return;
        }
        answered := answered + [req];
        n := n + 1;
      }
    }
  }
}
