/** The binary heap of queued requests: Go's container/heap algorithms over a slice
    whose elements carry a back-pointer to their own slot. */
module RequestHeap {

  /** The error a queue puts into a request's result channel. */
  datatype QueueError = RequestTimeout | RequestCancelled | QueueShutdown

  /** What the heap orders by. */
  datatype Rank = Rank(priority: int, enqueueTime: int)

  /** Higher priority first, then earlier enqueue time. */
  predicate Precedes(a: Rank, b: Rank) {
    if a.priority != b.priority then a.priority > b.priority else a.enqueueTime < b.enqueueTime
  }

  /** Instants are integers; the zero time marks a field the caller left unset. */
  const ZERO_TIME: int := 0

  class QueuedRequest {
    const id: string
    const modelID: string
    const priority: int
    var enqueueTime: int
    var deadline: int
    var cancelled: bool            // cancelFunc was called
    var results: seq<QueueError>   // what the queue has sent on ResultChan so far
    var index: int                 // heap slot, -1 once removed

    constructor (id: string, modelID: string, priority: int, enqueueTime: int, deadline: int)
      ensures this.id == id && this.modelID == modelID && this.priority == priority
      ensures this.enqueueTime == enqueueTime && this.deadline == deadline
      ensures !cancelled && results == [] && index == 0
    {
      this.id, this.modelID, this.priority := id, modelID, priority;
      this.enqueueTime, this.deadline := enqueueTime, deadline;
      cancelled, results, index := false, [], 0;
    }

    function GetRank(): Rank reads this`enqueueTime {
      Rank(priority, enqueueTime)
    }
  }

  function Parent(k: int): int
    requires k >= 1
  {
    (k - 1) / 2
  }

  /** Slot k does not precede its parent. */
  predicate InOrder(ranks: seq<Rank>, k: int)
    requires 1 <= k < |ranks|
  {
    !Precedes(ranks[k], ranks[Parent(k)])
  }

  /** The first n slots form a heap. */
  ghost predicate Ordered(ranks: seq<Rank>, n: int)
    requires n <= |ranks|
  {
    forall k :: 1 <= k < n ==> InOrder(ranks, k)
  }

  /** No child of slot j precedes the parent of slot j. */
  ghost predicate Bridged(ranks: seq<Rank>, n: int, j: int)
    requires 0 <= j < n <= |ranks|
  {
    forall k :: 1 <= k < n && Parent(k) == j && j >= 1 ==> !Precedes(ranks[k], ranks[Parent(j)])
  }

  /** The first n slots form a heap except that slot j may precede its parent. */
  ghost predicate OrderedBut(ranks: seq<Rank>, n: int, j: int)
    requires 0 <= j < n <= |ranks|
  {
    && (forall k :: 1 <= k < n && k != j ==> InOrder(ranks, k))
    && Bridged(ranks, n, j)
  }

  /** The first n slots form a heap except around slot i: it may precede its parent,
      and its children may precede it. */
  ghost predicate OrderedAround(ranks: seq<Rank>, n: int, i: int)
    requires 0 <= i < n <= |ranks|
  {
    && (forall k :: 1 <= k < n && k != i && Parent(k) != i ==> InOrder(ranks, k))
    && Bridged(ranks, n, i)
  }

  ghost predicate SameFrom<T>(s: seq<T>, t: seq<T>, n: int)
    requires 0 <= n && |s| == |t|
  {
    forall k :: n <= k < |s| ==> s[k] == t[k]
  }

  function Swapped<T>(s: seq<T>, i: int, j: int): seq<T>
    requires 0 <= i < |s| && 0 <= j < |s|
  {
    s[i := s[j]][j := s[i]]
  }

  /** No element of a heap precedes its root. */
  lemma {:induction false} RootIsFirst(ranks: seq<Rank>, n: int, k: int)
    requires 0 <= k < n <= |ranks| && Ordered(ranks, n)
    ensures !Precedes(ranks[k], ranks[0])
    ensures ranks[k].priority <= ranks[0].priority
    ensures ranks[k].priority == ranks[0].priority ==> ranks[0].enqueueTime <= ranks[k].enqueueTime
    decreases k
  {
    if k > 0 {
      assert InOrder(ranks, k);
      RootIsFirst(ranks, n, Parent(k));
    }
  }

  /** One swap of Up keeps "heap except at the moving slot". */
  lemma UpStep(s: seq<Rank>, n: int, j: int)
    requires 1 <= j < n <= |s| && OrderedBut(s, n, j) && Precedes(s[j], s[Parent(j)])
    ensures OrderedBut(Swapped(s, Parent(j), j), n, Parent(j))
  {
    var i := Parent(j);
    var t := Swapped(s, i, j);
    forall k | 1 <= k < n && k != i ensures InOrder(t, k) {
      if k != j {
        assert InOrder(s, k);
      }
    }
    forall k | 1 <= k < n && Parent(k) == i && i >= 1
      ensures !Precedes(t[k], t[Parent(i)])
    {
      assert InOrder(s, i);
      if k != j {
        assert InOrder(s, k);
      }
    }
  }

  /** Once the moving element does not precede its parent, the heap is in order. */
  lemma Risen(s: seq<Rank>, n: int, j: int)
    requires 0 <= j < n <= |s| && OrderedBut(s, n, j) && (j > 0 ==> !Precedes(s[j], s[Parent(j)]))
    ensures Ordered(s, n)
  {
  }

  lemma SwapKeepsElements<T>(s: seq<T>, i: int, j: int)
    requires 0 <= i < |s| && 0 <= j < |s|
    ensures multiset(Swapped(s, i, j)) == multiset(s)
  {
  }

  lemma {:induction false} TwoPlaces<T>(s: seq<T>, x: T) returns (i: nat, j: nat)
    requires multiset(s)[x] > 1
    ensures i < j < |s| && s[i] == s[j] == x
  {
    var last := |s| - 1;
    assert s == s[..last] + [s[last]];
    if s[last] == x {
      assert x in multiset(s[..last]);
      i, j :| 0 <= i < last && s[i] == x && j == last;
    } else {
      i, j := TwoPlaces(s[..last], x);
    }
  }

  /** What holds while the element that started in slot i0 is in slot i on its way down. */
  ghost predicate Sinking(ranks: seq<Rank>, n: int, i0: int, i: int)
    requires 0 <= i0 <= i < n <= |ranks|
  {
    OrderedAround(ranks, n, i) && (i > i0 ==> InOrder(ranks, i))
  }

  /** The child of slot i that Down compares with slot i. */
  function FirstChild(ranks: seq<Rank>, n: int, i: int): (j: int)
    requires 0 <= i && 2 * i + 1 < n <= |ranks|
    ensures i < j < n && Parent(j) == i
  {
    if 2 * i + 2 < n && Precedes(ranks[2 * i + 2], ranks[2 * i + 1]) then 2 * i + 2 else 2 * i + 1
  }

  /** One swap of Down keeps "heap except around the moving slot". */
  lemma SinkStep(s: seq<Rank>, n: int, i0: int, i: int)
    requires 0 <= i0 <= i && 2 * i + 1 < n <= |s| && Sinking(s, n, i0, i)
    requires Precedes(s[FirstChild(s, n, i)], s[i])
    ensures Sinking(Swapped(s, i, FirstChild(s, n, i)), n, i0, FirstChild(s, n, i))
  {
  }

  /** Once no child precedes the sinking element, only slot i0 may still be wrong. */
  lemma Sunk(s: seq<Rank>, n: int, i0: int, i: int)
    requires 0 <= i0 <= i < n <= |s| && Sinking(s, n, i0, i)
    requires 2 * i + 1 < n ==> !Precedes(s[FirstChild(s, n, i)], s[i])
    ensures if i > i0 then Ordered(s, n) else OrderedBut(s, n, i0)
  {
  }

  /** Overwriting slot i by the last element disturbs the order around slot i only. */
  lemma AfterSwapWithLast(s: seq<Rank>, i: int)
    requires 0 <= i < |s| - 1 && Ordered(s, |s|)
    ensures OrderedAround(Swapped(s, i, |s| - 1), |s| - 1, i)
  {
    var t := Swapped(s, i, |s| - 1);
    forall k | 1 <= k < |s| - 1 && k != i && Parent(k) != i ensures InOrder(t, k) {
      assert InOrder(s, k);
    }
    forall k | 1 <= k < |s| - 1 && Parent(k) == i && i >= 1
      ensures !Precedes(t[k], t[Parent(i)])
    {
      assert InOrder(s, k) && InOrder(s, i);
    }
  }

  /** A heap that lost its last slot is still a heap, and adding one disturbs that slot only. */
  lemma AroundTheEnd(s: seq<Rank>, r: Rank)
    ensures Ordered(s + [r], |s|) <==> Ordered(s, |s|)
    ensures Ordered(s, |s|) ==> OrderedBut(s + [r], |s| + 1, |s|)
  {
    forall k | 1 <= k < |s| ensures InOrder(s + [r], k) <==> InOrder(s, k) {
    }
    if Ordered(s + [r], |s|) {
      forall k | 1 <= k < |s| ensures InOrder(s, k) {
        assert InOrder(s + [r], k);
      }
    }
  }

  class Heap {
    var slots: seq<QueuedRequest>
    ghost var contents: set<QueuedRequest>
    ghost var ranks: seq<Rank>   // the rank of each slot's request

    constructor ()
      ensures slots == [] && contents == {} && Valid()
    {
      slots, contents, ranks := [], {}, [];
    }

    /** The slots hold the contents. */
    ghost predicate Filled()
      reads this, contents`enqueueTime
    {
      && |ranks| == |slots|
      && (forall k :: 0 <= k < |slots| ==> slots[k] in contents && ranks[k] == slots[k].GetRank())
    }

    /** Every request knows its own slot; this is what makes Remove(req.index) remove req. */
    ghost predicate Linked()
      reads this, contents`index, contents`enqueueTime
    {
      && Filled()
      && (forall k :: 0 <= k < |slots| ==> slots[k].index == k)
      && (forall x :: x in contents ==> 0 <= x.index < |slots| && slots[x.index] == x)
    }

    ghost predicate Valid()
      reads this, contents`index, contents`enqueueTime
    {
      Linked() && Ordered(ranks, |slots|)
    }

    /** requestHeap.Less */
    function Less(i: int, j: int): (less: bool)
      requires 0 <= i < |slots| && 0 <= j < |slots| && Filled()
      reads this, contents`enqueueTime
      ensures less == Precedes(ranks[i], ranks[j])
    {
      if slots[i].priority != slots[j].priority then slots[i].priority > slots[j].priority
      else slots[i].enqueueTime < slots[j].enqueueTime
    }

    /** requestHeap.Swap */
    method Swap(i: int, j: int)
      requires 0 <= i < |slots| && 0 <= j < |slots| && Filled()
      modifies this`slots, this`ranks, contents`index
      ensures slots == Swapped(old(slots), i, j) && Filled()
      ensures ranks == Swapped(old(ranks), i, j)
      ensures old(Linked()) ==> Linked()
    {
      slots := slots[i := slots[j]][j := slots[i]];
      ranks := Swapped(ranks, i, j);
      slots[i].index := i;
      slots[j].index := j;
    }

    /** requestHeap.Push */
    method Append(x: QueuedRequest)
      requires Filled()
      modifies this, x`index
      ensures slots == old(slots) + [x] && contents == old(contents) + {x} && Filled()
      ensures ranks == old(ranks) + [x.GetRank()]
      ensures old(Linked()) && x !in old(contents) ==> Linked()
    {
      x.index := |slots|;
      slots := slots + [x];
      ranks := ranks + [x.GetRank()];
      contents := contents + {x};
    }

    /** requestHeap.Pop */
    method RemoveLast() returns (x: QueuedRequest)
      requires Linked() && |slots| > 0
      modifies this, contents`index
      ensures old(slots) == slots + [x] && Linked() && x.index == -1
      ensures ranks == old(ranks)[..|slots|]
      ensures x in old(contents) && contents == old(contents) - {x}
    {
      x := slots[|slots| - 1];
      x.index := -1;
      slots := slots[..|slots| - 1];
      ranks := ranks[..|ranks| - 1];
      contents := contents - {x};
    }

    /** heap.up: moves slot j0 towards the root. Slots beyond j0 are left alone. */
    method Up(j0: int, ghost n: int)
      requires 0 <= j0 < n <= |slots| && Filled() && OrderedBut(ranks, n, j0)
      modifies this`slots, this`ranks, contents`index
      ensures |slots| == old(|slots|) && Filled() && SameFrom(slots, old(slots), j0 + 1)
      ensures Ordered(ranks, n) && multiset(slots) == multiset(old(slots))
      ensures old(Linked()) ==> Linked()
    {
      hide OrderedBut, Ordered, Bridged, InOrder, Linked;
      var j := j0;
      while true
        invariant 0 <= j <= j0 && |slots| == old(|slots|) && Filled() && SameFrom(slots, old(slots), j0 + 1)
        invariant OrderedBut(ranks, n, j) && multiset(slots) == multiset(old(slots))
        invariant old(Linked()) ==> Linked()
        decreases j
      {
        var i := if j == 0 then 0 else (j - 1) / 2;  // Go's division truncates: (0 - 1) / 2 is 0
        if i == j || !Less(j, i) {
          Risen(ranks, n, j);
          break;
        }
        UpStep(ranks, n, j);
        SwapKeepsElements(slots, i, j);
        Swap(i, j);
        j := i;
      }
    }

    /** heap.down: moves slot i0 towards the leaves of the first n slots. */
    method Down(i0: int, n: int) returns (moved: bool)
      requires 0 <= i0 < n <= |slots| && Filled() && OrderedAround(ranks, n, i0)
      modifies this`slots, this`ranks, contents`index
      ensures |slots| == old(|slots|) && Filled() && SameFrom(slots, old(slots), n)
      ensures old(Linked()) ==> Linked()
      ensures if moved then Ordered(ranks, n) else OrderedBut(ranks, n, i0)
    {
      hide OrderedAround, OrderedBut, Ordered, Bridged, InOrder, Linked;
      var i := i0;
      while true
        invariant i0 <= i < n && |slots| == old(|slots|) && Filled() && SameFrom(slots, old(slots), n)
        invariant old(Linked()) ==> Linked()
        invariant Sinking(ranks, n, i0, i)
        decreases n - i
      {
        var j1 := 2 * i + 1;
        if j1 >= n {
          Sunk(ranks, n, i0, i);
          break;
        }
        var j := j1;
        var j2 := j1 + 1;
        if j2 < n && Less(j2, j1) {
          j := j2;
        }
        assert j == FirstChild(ranks, n, i);
        if !Less(j, i) {
          Sunk(ranks, n, i0, i);
          break;
        }
        SinkStep(ranks, n, i0, i);
        Swap(i, j);
        i := j;
      }
      moved := i > i0;
    }

    /** heap.Push. A request that is pushed while it is in the heap ends up in two slots, and its
        one index cannot name both. */
    method Push(x: QueuedRequest)
      requires Valid()
      modifies this, contents`index, x`index
      ensures contents == old(contents) + {x} && |slots| == old(|slots|) + 1
      ensures multiset(slots) == multiset(old(slots)) + multiset{x}
      ensures Filled() && Ordered(ranks, |slots|)
      ensures Valid() <==> x !in old(contents)
    {
      hide OrderedBut, Ordered, Linked;
      HasSlot(x);
      AroundTheEnd(ranks, x.GetRank());
      Append(x);
      assert multiset(slots) == multiset(old(slots)) + multiset{x};
      Up(|slots| - 1, |slots|);
      TwiceIsNotLinked(x);
    }

    /** A request of the contents has a slot. */
    lemma HasSlot(x: QueuedRequest)
      requires Linked()
      ensures Filled()
      ensures x in contents ==> x in multiset(slots)
    {
      assert x in contents ==> x in slots;
    }

    lemma TwiceIsNotLinked(x: QueuedRequest)
      ensures multiset(slots)[x] > 1 ==> !Linked()
    {
      if multiset(slots)[x] > 1 {
        var i, j := TwoPlaces(slots, x);
      }
    }

    /** heap.Remove */
    method Remove(i: int) returns (x: QueuedRequest)
      requires 0 <= i < |slots| && Valid()
      modifies this, contents`index
      ensures Valid() && x == old(slots[i]) && x.index == -1 && |slots| == old(|slots|) - 1
      ensures x in old(contents) && contents == old(contents) - {x}
    {
      var n := |slots| - 1;
      if n != i {
        AfterSwapWithLast(ranks, i);
        Swap(i, n);
        var moved := Down(i, n);
        if !moved {
          Up(i, n);
        }
      }
      x := CutLast();
    }

    /** heap.Pop: the request that leaves is one that no remaining request precedes. */
    method Pop() returns (x: QueuedRequest)
      requires |slots| > 0 && Valid()
      modifies this, contents`index
      ensures Valid() && x == old(slots[0]) && x.index == -1 && |slots| == old(|slots|) - 1
      ensures x in old(contents) && contents == old(contents) - {x}
      ensures forall y :: y in old(contents) ==> y.priority <= x.priority
      ensures forall y :: y in old(contents) && y.priority == x.priority ==> x.enqueueTime <= y.enqueueTime
    {
      RootPrecedesAll();
      var n := |slots| - 1;
      if n > 0 {
        AfterSwapWithLast(ranks, 0);
      }
      Swap(0, n);
      if n > 0 {
        var _ := Down(0, n);
      }
      x := CutLast();
    }

    /** requestHeap.Pop once the other slots form a heap again. */
    method CutLast() returns (x: QueuedRequest)
      requires Linked() && |slots| > 0 && Ordered(ranks, |slots| - 1)
      modifies this, contents`index
      ensures Valid() && old(slots) == slots + [x] && x.index == -1
      ensures x in old(contents) && contents == old(contents) - {x}
    {
      AroundTheEnd(ranks[..|slots| - 1], ranks[|slots| - 1]);
      assert ranks == ranks[..|slots| - 1] + [ranks[|slots| - 1]];
      x := RemoveLast();
    }

    lemma EmptyIffNoSlots()
      requires Valid()
      ensures contents == {} <==> |slots| == 0
      ensures |slots| > 0 ==> slots[0] in contents
    {
      assert |slots| > 0 ==> slots[0] in contents;
      assert forall x :: x in contents ==> x.index < |slots|;
    }

    lemma RootPrecedesAll()
      requires Valid() && |slots| > 0
      ensures forall y :: y in contents ==> y.priority <= slots[0].priority
      ensures forall y :: y in contents && y.priority == slots[0].priority ==> slots[0].enqueueTime <= y.enqueueTime
    {
      forall y | y in contents
        ensures y.priority <= slots[0].priority
        ensures y.priority == slots[0].priority ==> slots[0].enqueueTime <= y.enqueueTime
      {
        RootIsFirst(ranks, |slots|, y.index);
      }
    }
  }
}
