/** The two-level concurrency limiter: a global semaphore and one semaphore per model, taken in that
    order and given back in the opposite one by one-shot tokens. The semaphores are objects; the
    threads that use them are modelled as interleaved steps, one critical section each. */
module ConcurrencyLimiter {

  import opened Common

  // ---------- Semaphores ----------

  /** A semaphore's fields. peak is history: the largest maximum it ever had. */
  datatype Sem = Sem(current: int, max: int, acquired: int, released: int, rejected: int, timeouts: int, peak: int)

  function NewSem(max: int): Sem {
    Sem(0, max, 0, 0, 0, 0, max)
  }

  function Taken(s: Sem): Sem {
    s.(current := s.current + 1, acquired := s.acquired + 1)
  }

  /** Release does nothing on a semaphore that nobody holds. */
  function Given(s: Sem): Sem {
    if s.current > 0 then s.(current := s.current - 1, released := s.released + 1) else s
  }

  function Resized(s: Sem, max: int): Sem {
    s.(max := max, peak := if max > s.peak then max else s.peak)
  }

  /** Slots in use are those acquired and not released, and never more than some maximum allowed. */
  predicate SemInv(s: Sem) {
    && 0 <= s.current == s.acquired - s.released
    && s.max <= s.peak
    && (s.current > 0 ==> s.current <= s.peak)
  }

  class Semaphore {
    var current: int
    var max: int
    var acquired: int
    var released: int
    var rejected: int
    var timeouts: int
    var totalHoldTime: int
    var holdCount: int
    ghost var peak: int

    ghost function View(): Sem
      reads this
    {
      Sem(current, max, acquired, released, rejected, timeouts, peak)
    }

    constructor (max: int)
      ensures View() == NewSem(max) && SemInv(View()) && totalHoldTime == holdCount == 0
      ensures this.max == max && current == acquired == released == rejected == timeouts == 0
    {
      this.max, peak := max, max;
      current, acquired, released, rejected, timeouts, totalHoldTime, holdCount := 0, 0, 0, 0, 0, 0, 0;
    }

    method TryAcquire() returns (ok: bool)
      requires SemInv(View())
      modifies this
      ensures SemInv(View()) && ok == (old(current) < old(max))
      ensures View() == if ok then Taken(old(View())) else old(View()).(rejected := old(rejected) + 1)
      ensures current == old(current) + (if ok then 1 else 0) && max == old(max)
      ensures totalHoldTime == old(totalHoldTime) && holdCount == old(holdCount)
    {
      if current >= max {
        rejected := rejected + 1;
        return false;
      }
      current := current + 1;
      acquired := acquired + 1;
      return true;
    }

    /** Averages of hold times divide by the number of releases that gave a slot back. */
    method Release(holdTime: int)
      requires SemInv(View()) && holdCount == released
      modifies this
      ensures SemInv(View()) && holdCount == released
      ensures View() == Given(old(View()))
      ensures current == old(current) - (if old(current) > 0 then 1 else 0) && max == old(max)
      ensures totalHoldTime == old(totalHoldTime) + if old(current) > 0 then holdTime else 0
    {
      if current > 0 {
        current := current - 1;
        released := released + 1;
        totalHoldTime := totalHoldTime + holdTime;
        holdCount := holdCount + 1;
      }
    }

    method SetMax(max: int)
      requires SemInv(View())
      modifies this`max, this`peak
      ensures SemInv(View()) && View() == Resized(old(View()), max)
      ensures this.max == max
    {
      this.max := max;
      peak := if max > peak then max else peak;
    }
  }

  // ---------- Threads ----------

  /** Where a request for model m stands. wait tells Acquire from TryAcquire. */
  datatype Thread =
    | Requesting(m: string, wait: bool)
    | HasGlobal(m: string, wait: bool)                // about to look up the model's semaphore
    | Missing(m: string, wait: bool)                  // found none, about to look again and create it
    | WantsModel(m: string, wait: bool, sem: nat)
    | RollingBack(m: string)                          // no model slot: gives the global slot back
    | Holding(m: string)                              // the caller has a live token
    | Releasing(m: string)                            // the token's flag is set; about to look up
    | GivingModel(m: string, sem: nat)
    | GivingGlobal(m: string)
    | SettingMax(m: string, sem: nat, max: int)       // SetModelMax after its lookup
    | Ended(m: string)

  /** Semaphore 0 is the global one; owner tells for which model a semaphore was made. */
  datatype State = State(
    sems: seq<Sem>, owner: seq<string>, models: map<string, nat>, threads: seq<Thread>, defaultMax: int)

  datatype Action =
    | Go(t: nat, timedOut: bool)
    | Request(m: string, wait: bool)
    | CallRelease(t: nat)             // Release on the token of thread t, by anybody, at any time
    | Register(m: string, max: int)
    | Unregister(m: string)
    | SetModelMax(m: string, max: int)
    | SetGlobalMax(max: int)
    | Adjust(m: string, max: int)     // GPU-aware adjustment of a known model

  predicate Blocks(s: Sem, wait: bool, timedOut: bool) {
    // a waiting Acquire gives up only while there is no free slot, and goes on only when there is one
    wait && timedOut != (s.current >= s.max)
  }

  predicate Enabled(s: State, a: Action) {
    match a
    case Go(t, timedOut) =>
      t < |s.threads| && |s.sems| > 0 &&
      (match s.threads[t]
       case Requesting(_, wait) => !Blocks(s.sems[0], wait, timedOut)
       case WantsModel(_, wait, sem) => sem < |s.sems| && !Blocks(s.sems[sem], wait, timedOut)
       case GivingModel(_, sem) => sem < |s.sems|
       case SettingMax(_, sem, _) => sem < |s.sems|
       case Holding(_) => false
       case Ended(_) => false
       case _ => true)
    case CallRelease(t) => t < |s.threads|
    case SetGlobalMax(_) => |s.sems| > 0
    case Adjust(m, _) => m in s.models && s.models[m] < |s.sems|
    case _ => true
  }

  function WithThread(s: State, t: nat, x: Thread): State
    requires t < |s.threads|
  {
    s.(threads := s.threads[t := x])
  }

  function WithSem(s: State, k: nat, sem: Sem): State
    requires k < |s.sems|
  {
    s.(sems := s.sems[k := sem])
  }

  /** A new semaphore under the model's name. */
  function Create(s: State, m: string, max: int): State {
    s.(sems := s.sems + [NewSem(max)], owner := s.owner + [m], models := s.models[m := |s.sems|])
  }

  /** What one attempt to take a slot does to a semaphore. */
  function Attempt(s: Sem, wait: bool): Sem {
    if s.current < s.max then Taken(s)
    else if wait then s.(timeouts := s.timeouts + 1) else s.(rejected := s.rejected + 1)
  }

  function Apply(s: State, a: Action): State
    requires Enabled(s, a)
  {
    match a
    case Go(t, _) =>
      (match s.threads[t]
       case Requesting(m, wait) =>
         WithThread(WithSem(s, 0, Attempt(s.sems[0], wait)), t,
                    if s.sems[0].current < s.sems[0].max then HasGlobal(m, wait) else Ended(m))
       case HasGlobal(m, wait) =>
         WithThread(s, t, if m in s.models then WantsModel(m, wait, s.models[m]) else Missing(m, wait))
       case Missing(m, wait) =>
         var s' := if m in s.models then s else Create(s, m, s.defaultMax);
         WithThread(s', t, WantsModel(m, wait, s'.models[m]))
       case WantsModel(m, wait, sem) =>
         WithThread(WithSem(s, sem, Attempt(s.sems[sem], wait)), t,
                    if s.sems[sem].current < s.sems[sem].max then Holding(m) else RollingBack(m))
       case RollingBack(m) => WithThread(WithSem(s, 0, Given(s.sems[0])), t, Ended(m))
       case Releasing(m) =>
         WithThread(s, t, if m in s.models then GivingModel(m, s.models[m]) else GivingGlobal(m))
       case GivingModel(m, sem) => WithThread(WithSem(s, sem, Given(s.sems[sem])), t, GivingGlobal(m))
       case GivingGlobal(m) => WithThread(WithSem(s, 0, Given(s.sems[0])), t, Ended(m))
       case SettingMax(m, sem, max) => WithThread(WithSem(s, sem, Resized(s.sems[sem], max)), t, Ended(m))
       case _ => s)
    case Request(m, wait) => s.(threads := s.threads + [Requesting(m, wait)])
    case CallRelease(t) =>
      if s.threads[t].Holding? then WithThread(s, t, Releasing(s.threads[t].m)) else s
    case Register(m, max) => Create(s, m, max)
    case Unregister(m) => s.(models := s.models - {m})
    case SetModelMax(m, max) =>
      var s' := if m in s.models then s else Create(s, m, max);
      s'.(threads := s'.threads + [SettingMax(m, s'.models[m], max)])
    case SetGlobalMax(max) => WithSem(s, 0, Resized(s.sems[0], max))
    case Adjust(m, max) => WithSem(s, s.models[m], Resized(s.sems[s.models[m]], max))
  }

  function Initial(globalMax: int, defaultMax: int): State {
    State([NewSem(globalMax)], [""], map[], [], defaultMax)
  }

  // ---------- Counting ----------

  ghost function Count(t: seq<Thread>, f: Thread -> bool): nat {
    if t == [] then 0 else Count(t[..|t| - 1], f) + if f(t[|t| - 1]) then 1 else 0
  }

  lemma {:induction false} CountUpdate(t: seq<Thread>, i: nat, x: Thread, f: Thread -> bool)
    requires i < |t|
    ensures Count(t[i := x], f) == Count(t, f) - (if f(t[i]) then 1 else 0) + if f(x) then 1 else 0
  {
    if i == |t| - 1 {
      assert t[i := x][..i] == t[..i];
    } else {
      assert t[i := x][..|t| - 1] == t[..|t| - 1][i := x];
      CountUpdate(t[..|t| - 1], i, x, f);
    }
  }

  lemma CountAppend(t: seq<Thread>, x: Thread, f: Thread -> bool)
    ensures Count(t + [x], f) == Count(t, f) + if f(x) then 1 else 0
  {
    assert (t + [x])[..|t|] == t;
  }

  lemma {:induction false} CountIsZero(t: seq<Thread>, f: Thread -> bool)
    ensures Count(t, f) == 0 <==> forall i :: 0 <= i < |t| ==> !f(t[i])
  {
    if t != [] {
      CountIsZero(t[..|t| - 1], f);
      var last := |t| - 1;
      assert forall i :: 0 <= i < last ==> t[..last][i] == t[i];
      if Count(t, f) == 0 {
        forall i | 0 <= i < |t| ensures !f(t[i]) {
          assert i < last ==> !f(t[..last][i]);
        }
      }
    }
  }

  /** Between taking the global slot and giving it back. */
  predicate UsesGlobal(x: Thread) {
    !x.Requesting? && !x.SettingMax? && !x.Ended?
  }

  /** Has taken the model slot and not given it back. */
  predicate UsesModel(x: Thread, m: string) {
    (x.Holding? || x.Releasing? || x.GivingModel?) && x.m == m
  }

  function GlobalUse(): Thread -> bool { x => UsesGlobal(x) }

  function ModelUse(m: string): Thread -> bool { x => UsesModel(x, m) }

  // ---------- Invariants ----------

  /** A thread refers to semaphores made for its own model only. */
  predicate Refers(s: State, x: Thread) {
    (x.WantsModel? || x.GivingModel? || x.SettingMax?) ==>
      0 < x.sem < |s.sems| && x.sem < |s.owner| && s.owner[x.sem] == x.m
  }

  ghost predicate SemsInv(s: State) {
    0 < |s.sems| == |s.owner| && forall k :: 0 <= k < |s.sems| ==> SemInv(s.sems[k])
  }

  ghost predicate NamesInv(s: State) {
    && 0 < |s.sems| == |s.owner|
    && (forall m :: m in s.models ==> 0 < s.models[m] < |s.sems| && s.owner[s.models[m]] == m)
    && (forall t :: 0 <= t < |s.threads| ==> Refers(s, s.threads[t]))
  }

  ghost predicate WellFormed(s: State) {
    SemsInv(s) && NamesInv(s)
  }

  /** The global semaphore counts the live tokens and the threads between their two slots. */
  ghost predicate GlobalExact(s: State)
    requires |s.sems| > 0
  {
    s.sems[0].current == Count(s.threads, GlobalUse())
  }

  ghost predicate Inv(s: State) {
    WellFormed(s) && GlobalExact(s)
  }

  lemma InitialInv(globalMax: int, defaultMax: int)
    ensures Inv(Initial(globalMax, defaultMax))
  {
  }

  lemma StepKeepsSems(s: State, a: Action)
    requires SemsInv(s) && Enabled(s, a)
    ensures SemsInv(Apply(s, a))
  {
  }

  /** Semaphores are only added, and a name changes its semaphore only for a new one. */
  lemma StepGrows(s: State, a: Action)
    requires NamesInv(s) && Enabled(s, a)
    ensures var s' := Apply(s, a);
      && s.owner <= s'.owner && |s'.sems| == |s'.owner|
      && (forall m :: m in s'.models ==>
            || (m in s.models && s'.models[m] == s.models[m])
            || (s'.models[m] == |s.sems| < |s'.sems| && s'.owner[|s.sems|] == m))
  {
    hide Attempt, Given, Resized, Refers;
  }

  lemma MoverRefers(s: State, a: Action)
    requires NamesInv(s) && Enabled(s, a) && (a.Go? || a.CallRelease?)
    ensures Refers(Apply(s, a), Apply(s, a).threads[a.t])
  {
    hide Attempt, Given, Resized;
    if a.Go? && s.threads[a.t].Missing? {
      MissingRefers(s, a);
    }
  }

  lemma MissingRefers(s: State, a: Action)
    requires NamesInv(s) && Enabled(s, a) && a.Go? && s.threads[a.t].Missing?
    ensures Refers(Apply(s, a), Apply(s, a).threads[a.t])
  {
  }

  /** Only the thread of the action moves; at most one thread arrives. */
  lemma StepMoves(s: State, a: Action)
    requires NamesInv(s) && Enabled(s, a)
    ensures var s' := Apply(s, a);
      && |s.threads| <= |s'.threads| <= |s.threads| + 1
      && (forall k :: 0 <= k < |s.threads| && !((a.Go? || a.CallRelease?) && k == a.t) ==> s'.threads[k] == s.threads[k])
      && (|s'.threads| > |s.threads| ==>
            && Refers(s', s'.threads[|s.threads|])
            && (s'.threads[|s.threads|].Requesting? || s'.threads[|s.threads|].SettingMax?))
  {
    hide Attempt, Given, Resized;
  }

  lemma StepKeepsNames(s: State, a: Action)
    requires NamesInv(s) && Enabled(s, a)
    ensures NamesInv(Apply(s, a))
  {
    hide Apply, Enabled;
    StepGrows(s, a);
    StepMoves(s, a);
    if a.Go? || a.CallRelease? {
      MoverRefers(s, a);
    }
  }

  /** The guard current > 0 of a release never fails on the global semaphore. */
  lemma GlobalReleaseFindsSlot(s: State, t: nat)
    requires Inv(s) && t < |s.threads| && UsesGlobal(s.threads[t])
    ensures s.sems[0].current > 0
  {
    CountIsZero(s.threads, GlobalUse());
    assert GlobalUse()(s.threads[t]);
  }

  /** How the thread list changes: one thread moves, or one arrives. */
  lemma CountAfter(s: State, a: Action, f: Thread -> bool)
    requires Enabled(s, a)
    ensures var t := Apply(s, a).threads;
      if a.Go? || a.CallRelease? then
        |t| == |s.threads| &&
        Count(t, f) == Count(s.threads, f) - (if f(s.threads[a.t]) then 1 else 0) + if f(t[a.t]) then 1 else 0
      else
        t == s.threads
        || (|t| == |s.threads| + 1 && Count(t, f) == Count(s.threads, f) + if f(t[|s.threads|]) then 1 else 0)
  {
    hide Count;
    if a.Go? || a.CallRelease? {
      CountUpdate(s.threads, a.t, Apply(s, a).threads[a.t], f);
      assert s.threads[a.t := s.threads[a.t]] == s.threads;
    } else if a.Request? || a.SetModelMax? {
      CountAppend(s.threads, Apply(s, a).threads[|s.threads|], f);
    }
  }

  lemma StepKeepsGlobal(s: State, a: Action)
    requires Inv(s) && Enabled(s, a)
    ensures |Apply(s, a).sems| > 0 && GlobalExact(Apply(s, a))
  {
    hide Count;
    CountAfter(s, a, GlobalUse());
    if a.Go? && UsesGlobal(s.threads[a.t]) {
      GlobalReleaseFindsSlot(s, a.t);
    }
  }

  // ---------- One model ----------

  /** Nobody holds a slot of model m or is about to take one. */
  ghost predicate Quiet(s: State, m: string) {
    forall t :: 0 <= t < |s.threads| && s.threads[t].m == m ==>
      !UsesModel(s.threads[t], m) && !s.threads[t].WantsModel?
  }

  /** Threads in flight for model m use the semaphore that the name stands for now. */
  predicate UpToDate(s: State, x: Thread, m: string) {
    (x.WantsModel? || x.GivingModel?) && x.m == m ==> m in s.models && x.sem == s.models[m]
  }

  ghost predicate AllUpToDate(s: State, m: string) {
    forall t :: 0 <= t < |s.threads| ==> UpToDate(s, s.threads[t], m)
  }

  /** The slots in use of the semaphore that the name m stands for. */
  function InUse(s: State, m: string): int {
    if m in s.models && s.models[m] < |s.sems| then s.sems[s.models[m]].current else 0
  }

  /** The semaphore of model m counts exactly the tokens that hold one of its slots. */
  ghost predicate Exact(s: State, m: string) {
    InUse(s, m) == Count(s.threads, ModelUse(m)) && AllUpToDate(s, m)
  }

  lemma ModelReleaseFindsSlot(s: State, t: nat, m: string)
    requires Exact(s, m) && t < |s.threads| && UsesModel(s.threads[t], m)
    ensures InUse(s, m) > 0
  {
    CountIsZero(s.threads, ModelUse(m));
    assert ModelUse(m)(s.threads[t]);
  }

  /** What the name m stands for is not changed by anything but Register and Unregister,
      except that a model that has no semaphore can get one. */
  lemma StepKeepsName(s: State, a: Action, m: string)
    requires NamesInv(s) && Enabled(s, a)
    requires a.Register? || a.Unregister? ==> a.m != m
    ensures var s' := Apply(s, a);
      && (m in s.models ==> m in s'.models && s'.models[m] == s.models[m])
      && ((a.Go? || a.CallRelease?) && UpToDate(s, s.threads[a.t], m) ==> UpToDate(s', s'.threads[a.t], m))
      && (|s'.threads| > |s.threads| ==> UpToDate(s', s'.threads[|s.threads|], m))
  {
    hide Attempt, Given, Resized;
  }

  lemma StepKeepsUpToDate(s: State, a: Action, m: string)
    requires NamesInv(s) && Enabled(s, a) && AllUpToDate(s, m)
    requires a.Register? || a.Unregister? ==> a.m != m
    ensures AllUpToDate(Apply(s, a), m)
  {
    hide Apply, Enabled;
    StepKeepsName(s, a, m);
    StepMoves(s, a);
  }

  /** How the slots in use of model m's semaphore change. */
  lemma StepUses(s: State, a: Action, m: string)
    requires NamesInv(s) && Enabled(s, a)
    requires a.Register? || a.Unregister? ==> a.m != m
    requires a.Go? ==> UpToDate(s, s.threads[a.t], m)
    requires a.Go? && UsesModel(s.threads[a.t], m) ==> InUse(s, m) > 0
    ensures var s' := Apply(s, a);
      InUse(s', m) == InUse(s, m) + if a.Go? || a.CallRelease? then
        (if UsesModel(s'.threads[a.t], m) then 1 else 0) - (if UsesModel(s.threads[a.t], m) then 1 else 0)
      else 0
  {
  }

  lemma StepKeepsExact(s: State, a: Action, m: string)
    requires WellFormed(s) && Enabled(s, a) && Exact(s, m)
    requires a.Register? || a.Unregister? ==> a.m != m
    ensures Exact(Apply(s, a), m)
  {
    hide Count, AllUpToDate, Apply;
    CountAfter(s, a, ModelUse(m));
    StepMoves(s, a);
    StepKeepsUpToDate(s, a, m);
    if a.Go? {
      assert UpToDate(s, s.threads[a.t], m) by {
        assert AllUpToDate(s, m);
        UpToDateAt(s, a.t, m);
      }
      if UsesModel(s.threads[a.t], m) {
        ModelReleaseFindsSlot(s, a.t, m);
      }
    }
    StepUses(s, a, m);
  }

  lemma UpToDateAt(s: State, t: nat, m: string)
    requires AllUpToDate(s, m) && t < |s.threads|
    ensures UpToDate(s, s.threads[t], m)
  {
  }

  /** Replacing or removing the semaphore of a model keeps its count right if and only if
      the model is quiet at that moment. */
  lemma ReplacingIsExactIffQuiet(s: State, a: Action)
    requires WellFormed(s) && Enabled(s, a) && (a.Register? || a.Unregister?) && Exact(s, a.m)
    ensures Exact(Apply(s, a), a.m) <==> Quiet(s, a.m)
  {
    var s' := Apply(s, a);
    CountIsZero(s.threads, ModelUse(a.m));
    if Quiet(s, a.m) {
      forall t | 0 <= t < |s.threads| ensures !ModelUse(a.m)(s.threads[t]) {
      }
    } else {
      var t :| 0 <= t < |s.threads| && s.threads[t].m == a.m
        && (UsesModel(s.threads[t], a.m) || s.threads[t].WantsModel?);
      assert UpToDate(s, s.threads[t], a.m);
      assert ModelUse(a.m)(s.threads[t]) == UsesModel(s.threads[t], a.m);
      assert s.threads[t].WantsModel? ==> !UpToDate(s', s'.threads[t], a.m);
    }
  }

  // ---------- Runs ----------

  /** The state after a run, if every action is enabled where it happens. */
  function Execute(s: State, actions: seq<Action>): Option<State>
    decreases |actions|
  {
    if actions == [] then Some(s)
    else if Enabled(s, actions[0]) then Execute(Apply(s, actions[0]), actions[1..])
    else None
  }

  /** Along the run, the semaphore of model m is replaced or removed only while m is quiet. */
  ghost predicate Disciplined(s: State, actions: seq<Action>, m: string)
    decreases |actions|
  {
    actions != [] && Enabled(s, actions[0]) ==>
      && ((actions[0].Register? || actions[0].Unregister?) && actions[0].m == m ==> Quiet(s, m))
      && Disciplined(Apply(s, actions[0]), actions[1..], m)
  }

  lemma StepKeepsInv(s: State, a: Action)
    requires Inv(s) && Enabled(s, a)
    ensures Inv(Apply(s, a))
  {
    StepKeepsSems(s, a);
    StepKeepsNames(s, a);
    StepKeepsGlobal(s, a);
  }

  /** Over every run the global count is exact, and no semaphore exceeds the largest maximum it had. */
  lemma {:induction false} RunKeepsInv(s: State, actions: seq<Action>)
    requires Inv(s) && Execute(s, actions).Some?
    ensures Inv(Execute(s, actions).value)
    decreases |actions|
  {
    if actions != [] {
      StepKeepsInv(s, actions[0]);
      RunKeepsInv(Apply(s, actions[0]), actions[1..]);
    }
  }

  /** Over every disciplined run the count of model m is exact. */
  lemma {:induction false} RunKeepsExact(s: State, actions: seq<Action>, m: string)
    requires Inv(s) && Exact(s, m) && Execute(s, actions).Some? && Disciplined(s, actions, m)
    ensures Exact(Execute(s, actions).value, m)
    decreases |actions|
  {
    hide Exact, Quiet;
    if actions != [] {
      var a := actions[0];
      StepKeepsInv(s, a);
      if (a.Register? || a.Unregister?) && a.m == m {
        ReplacingIsExactIffQuiet(s, a);
      } else {
        StepKeepsExact(s, a, m);
      }
      RunKeepsExact(Apply(s, a), actions[1..], m);
    }
  }

  // ---------- All models ----------

  function UseOf(ms: set<string>): Thread -> bool {
    (x: Thread) => (x.Holding? || x.Releasing? || x.GivingModel?) && x.m in ms
  }

  /** The slots in use of the semaphores of a list of models. */
  function TotalInUse(s: State, ms: seq<string>): int {
    if ms == [] then 0 else InUse(s, ms[0]) + TotalInUse(s, ms[1..])
  }

  lemma {:induction false} CountSplits(t: seq<Thread>, f: Thread -> bool, g: Thread -> bool, h: Thread -> bool)
    requires forall x :: h(x) <==> f(x) || g(x)
    requires forall x :: !(f(x) && g(x))
    ensures Count(t, h) == Count(t, f) + Count(t, g)
  {
    if t != [] {
      CountSplits(t[..|t| - 1], f, g, h);
    }
  }

  lemma {:induction false} TotalIsCount(s: State, ms: seq<string>)
    requires forall i, j :: 0 <= i < j < |ms| ==> ms[i] != ms[j]
    requires forall i :: 0 <= i < |ms| ==> Exact(s, ms[i])
    ensures TotalInUse(s, ms) == Count(s.threads, UseOf(set m | m in ms))
  {
    hide Exact;
    var all := set m | m in ms;
    if ms == [] {
      CountIsZero(s.threads, UseOf(all));
    } else {
      var rest := set m | m in ms[1..];
      TotalIsCount(s, ms[1..]);
      assert all == rest + {ms[0]};
      CountSplits(s.threads, ModelUse(ms[0]), UseOf(rest), UseOf(all));
      ExactCount(s, ms[0]);
    }
  }

  lemma ExactCount(s: State, m: string)
    requires Exact(s, m)
    ensures InUse(s, m) == Count(s.threads, ModelUse(m))
  {
  }

  lemma {:induction false} CountMonotone(t: seq<Thread>, f: Thread -> bool, g: Thread -> bool)
    requires forall x :: f(x) ==> g(x)
    ensures Count(t, f) <= Count(t, g)
  {
    if t != [] {
      CountMonotone(t[..|t| - 1], f, g);
    }
  }

  /** The models' slots in use never add up to more than the global semaphore's. */
  lemma ModelsWithinGlobal(s: State, ms: seq<string>)
    requires Inv(s)
    requires forall i, j :: 0 <= i < j < |ms| ==> ms[i] != ms[j]
    requires forall i :: 0 <= i < |ms| ==> Exact(s, ms[i])
    ensures TotalInUse(s, ms) <= s.sems[0].current <= s.sems[0].acquired - s.sems[0].released
  {
    TotalIsCount(s, ms);
    CountMonotone(s.threads, UseOf(set m | m in ms), GlobalUse());
  }

  /** Over every run from the start that is disciplined for some models, each of their counts is
      exact, together they stay within the global count, and that within the largest global
      maximum there was. */
  lemma LimitsHoldOverRuns(globalMax: int, defaultMax: int, actions: seq<Action>, ms: seq<string>)
    requires Execute(Initial(globalMax, defaultMax), actions).Some?
    requires forall i, j :: 0 <= i < j < |ms| ==> ms[i] != ms[j]
    requires forall i :: 0 <= i < |ms| ==> Disciplined(Initial(globalMax, defaultMax), actions, ms[i])
    ensures var s := Execute(Initial(globalMax, defaultMax), actions).value;
      && (forall i :: 0 <= i < |ms| ==> Exact(s, ms[i]))
      && |s.sems| > 0 && TotalInUse(s, ms) <= s.sems[0].current
      && (s.sems[0].current > 0 ==> s.sems[0].current <= LargestGlobal(globalMax, actions))
  {
    UseIsWithinLargestSet(globalMax, defaultMax, actions, "");
    var start := Initial(globalMax, defaultMax);
    InitialInv(globalMax, defaultMax);
    forall i | 0 <= i < |ms|
      ensures Exact(Execute(start, actions).value, ms[i])
    {
      assert Exact(start, ms[i]);
      hide Exact;
      RunKeepsExact(start, actions, ms[i]);
    }
    hide Exact, Execute;
    RunKeepsInv(start, actions);
    ModelsWithinGlobal(Execute(start, actions).value, ms);
  }

  // ---------- Which limits ----------

  /** A request gets each of its two slots exactly when one is free, and then uses one more. */
  lemma GrantedIffFree(s: State, a: Action)
    requires NamesInv(s) && Enabled(s, a) && a.Go?
    ensures var x, s' := s.threads[a.t], Apply(s, a);
      && (x.Requesting? ==>
            && (s'.threads[a.t] == HasGlobal(x.m, x.wait) <==> s.sems[0].current < s.sems[0].max)
            && (s'.threads[a.t] == Ended(x.m) <==> s.sems[0].current >= s.sems[0].max)
            && s'.sems[0].current == s.sems[0].current + if s.sems[0].current < s.sems[0].max then 1 else 0)
      && (x.WantsModel? ==>
            && (s'.threads[a.t] == Holding(x.m) <==> s.sems[x.sem].current < s.sems[x.sem].max)
            && (s'.threads[a.t] == RollingBack(x.m) <==> s.sems[x.sem].current >= s.sems[x.sem].max)
            && s'.sems[x.sem].current ==
                 s.sems[x.sem].current + if s.sems[x.sem].current < s.sems[x.sem].max then 1 else 0)
  {
  }

  /** One that waits goes on exactly when a slot is free, and gives up only while none is; one that does
      not wait takes its step in any case. What is not granted counts as timed out or as rejected. */
  lemma WaitsWhileFull(s: State, t: nat, timedOut: bool)
    requires NamesInv(s) && t < |s.threads| && (s.threads[t].Requesting? || s.threads[t].WantsModel?)
    ensures var x := s.threads[t]; var k := if x.Requesting? then 0 else x.sem;
      && k < |s.sems|
      && (Enabled(s, Go(t, timedOut)) <==> !x.wait || timedOut == (s.sems[k].current >= s.sems[k].max))
    ensures Enabled(s, Go(t, timedOut)) ==>
      var x := s.threads[t]; var k := if x.Requesting? then 0 else x.sem;
      var before, after := s.sems[k], Apply(s, Go(t, timedOut)).sems[k];
      var full := before.current >= before.max;
      && after.timeouts == before.timeouts + (if full && x.wait then 1 else 0)
      && after.rejected == before.rejected + (if full && !x.wait then 1 else 0)
      && after.acquired == before.acquired + (if full then 0 else 1)
  {
    assert Refers(s, s.threads[t]);
  }

  /** No deadlock: every thread can take its next step except a caller with a live token and one that
      has ended, and every call can be made at any time. */
  lemma NoThreadIsStuck(s: State, t: nat)
    requires NamesInv(s) && t < |s.threads|
    ensures !s.threads[t].Holding? && !s.threads[t].Ended? <==> exists timedOut :: Enabled(s, Go(t, timedOut))
    ensures Enabled(s, CallRelease(t))
    ensures forall a: Action :: a.Request? || a.Register? || a.Unregister? || a.SetModelMax? || a.SetGlobalMax? ==>
      Enabled(s, a)
  {
    assert Refers(s, s.threads[t]);
    if !s.threads[t].Holding? && !s.threads[t].Ended? {
      assert Enabled(s, Go(t, true)) || Enabled(s, Go(t, false));
    }
  }

  /** A maximum is the one given last: to the global limit, to a registered model, to SetModelMax, by
      the adjustment, or the default for a model first asked for. Nothing else changes one. */
  lemma MaxChangesExactly(s: State, a: Action, k: nat)
    requires NamesInv(s) && Enabled(s, a) && k < |Apply(s, a).sems|
    ensures var s' := Apply(s, a);
      s'.sems[k].max ==
        if k == |s.sems| then (if a.Go? then s.defaultMax else a.max)
        else if a.SetGlobalMax? && k == 0 then a.max
        else if a.Adjust? && k == s.models[a.m] then a.max
        else if a.Go? && s.threads[a.t].SettingMax? && k == s.threads[a.t].sem then s.threads[a.t].max
        else s.sems[k].max
    ensures k == |s.sems| ==> a.Register? || a.SetModelMax? || (a.Go? && s.threads[a.t].Missing?)
    ensures a.SetModelMax? ==>
      Apply(s, a).threads == s.threads + [SettingMax(a.m, Apply(s, a).models[a.m], a.max)]
  {
    if a.Go? {
      assert Refers(s, s.threads[a.t]);
    }
  }

  /** And the peak is the largest of the maximums it had. */
  lemma PeakChangesExactly(s: State, a: Action, k: nat)
    requires WellFormed(s) && Enabled(s, a) && k < |Apply(s, a).sems|
    ensures var after := Apply(s, a).sems[k];
      && (k == |s.sems| ==> after.peak == after.max)
      && (k < |s.sems| ==>
            && after.peak >= s.sems[k].peak && after.peak >= after.max
            && (after.peak == s.sems[k].peak || after.peak == after.max))
  {
    assert k < |s.sems| ==> SemInv(s.sems[k]);
  }

  function Larger(a: int, b: int): int {
    if a > b then a else b
  }

  /** The largest of a bound and the global maximums set in a run. */
  function LargestGlobal(bound: int, actions: seq<Action>): int
    decreases |actions|
  {
    if actions == [] then bound
    else
      var a := actions[0];
      LargestGlobal(if a.SetGlobalMax? && a.max > bound then a.max else bound, actions[1..])
  }

  /** The largest of a bound and the maximums set for model m in a run. */
  function LargestOf(m: string, bound: int, actions: seq<Action>): int
    decreases |actions|
  {
    if actions == [] then bound
    else
      var a := actions[0];
      LargestOf(m, if SetsMax(a, m) && a.max > bound then a.max else bound, actions[1..])
  }

  predicate SetsMax(a: Action, m: string) {
    (a.Register? || a.SetModelMax? || a.Adjust?) && a.m == m
  }

  /** These are the largest, and no larger than needed. */
  lemma {:induction false} LargestIs(m: string, bound: int, actions: seq<Action>)
    ensures bound <= LargestGlobal(bound, actions) && bound <= LargestOf(m, bound, actions)
    ensures forall i :: 0 <= i < |actions| && actions[i].SetGlobalMax? ==>
      actions[i].max <= LargestGlobal(bound, actions)
    ensures forall i :: 0 <= i < |actions| && SetsMax(actions[i], m) ==>
      actions[i].max <= LargestOf(m, bound, actions)
    ensures
      || LargestGlobal(bound, actions) == bound
      || (exists i :: 0 <= i < |actions| && actions[i].SetGlobalMax? && actions[i].max == LargestGlobal(bound, actions))
    ensures
      || LargestOf(m, bound, actions) == bound
      || (exists i :: 0 <= i < |actions| && SetsMax(actions[i], m) && actions[i].max == LargestOf(m, bound, actions))
    decreases |actions|
  {
    if actions != [] {
      var a, rest := actions[0], actions[1..];
      var g := if a.SetGlobalMax? && a.max > bound then a.max else bound;
      var h := if SetsMax(a, m) && a.max > bound then a.max else bound;
      LargestIs(m, g, rest);
      LargestIs(m, h, rest);
      assert forall i :: 0 < i < |actions| ==> actions[i] == rest[i - 1];
      assert forall i :: 0 <= i < |rest| ==> rest[i] == actions[i + 1];
    }
  }

  lemma PeakStep(s: State, a: Action)
    requires NamesInv(s) && Enabled(s, a)
    ensures var s' := Apply(s, a);
      |s'.sems| > 0 && s'.sems[0].peak <= Larger(s.sems[0].peak, if a.SetGlobalMax? then a.max else s.sems[0].peak)
  {
    if a.Go? {
      assert Refers(s, s.threads[a.t]);
    }
  }

  lemma {:induction false} GlobalPeakIsSet(s: State, actions: seq<Action>, bound: int)
    requires Inv(s) && Execute(s, actions).Some? && s.sems[0].peak <= bound
    ensures Inv(Execute(s, actions).value)
    ensures Execute(s, actions).value.sems[0].peak <= LargestGlobal(bound, actions)
    decreases |actions|
  {
    if actions != [] {
      var a := actions[0];
      StepKeepsInv(s, a);
      PeakStep(s, a);
      hide Apply, Enabled;
      GlobalPeakIsSet(Apply(s, a), actions[1..], if a.SetGlobalMax? && a.max > bound then a.max else bound);
    }
  }

  /** What model m's semaphores have been or are about to be given is within the bound. */
  ghost predicate WithinFor(s: State, m: string, bound: int) {
    && |s.owner| == |s.sems| && s.defaultMax <= bound
    && (forall k :: 0 < k < |s.sems| && s.owner[k] == m ==> s.sems[k].peak <= bound)
    && (forall t :: 0 <= t < |s.threads| && s.threads[t].SettingMax? && s.threads[t].m == m ==>
          s.threads[t].max <= bound)
  }

  lemma WithinSems(s: State, a: Action, m: string, bound: int)
    requires NamesInv(s) && Enabled(s, a) && WithinFor(s, m, bound)
    ensures var s' := Apply(s, a); var b := if SetsMax(a, m) && a.max > bound then a.max else bound;
      && |s'.owner| == |s'.sems| && s'.defaultMax <= b
      && (forall k :: 0 < k < |s'.sems| && s'.owner[k] == m ==> s'.sems[k].peak <= b)
  {
    if a.Go? {
      assert Refers(s, s.threads[a.t]);
    }
  }

  lemma WithinThreads(s: State, a: Action, m: string, bound: int)
    requires NamesInv(s) && Enabled(s, a) && WithinFor(s, m, bound)
    ensures var s' := Apply(s, a); var b := if SetsMax(a, m) && a.max > bound then a.max else bound;
      forall t :: 0 <= t < |s'.threads| && s'.threads[t].SettingMax? && s'.threads[t].m == m ==>
        s'.threads[t].max <= b
  {
    hide Attempt, Given, Resized, Refers, NewSem;
  }

  lemma {:induction false} ModelPeakIsSet(s: State, actions: seq<Action>, m: string, bound: int)
    requires Inv(s) && Execute(s, actions).Some? && WithinFor(s, m, bound)
    ensures WithinFor(Execute(s, actions).value, m, LargestOf(m, bound, actions))
    decreases |actions|
  {
    if actions != [] {
      var a := actions[0];
      StepKeepsInv(s, a);
      WithinSems(s, a, m, bound);
      WithinThreads(s, a, m, bound);
      hide Apply, Enabled;
      ModelPeakIsSet(Apply(s, a), actions[1..], m, if SetsMax(a, m) && a.max > bound then a.max else bound);
    }
  }

  lemma InUseWithin(s: State, m: string, bound: int)
    requires WellFormed(s) && WithinFor(s, m, bound)
    ensures InUse(s, m) > 0 ==> InUse(s, m) <= bound
  {
    if m in s.models {
      assert SemInv(s.sems[s.models[m]]);
    }
  }

  /** Over every run from the start, what is in use never exceeds the largest maximum that was ever
      set: globally, and for each model, whose default counts as set. */
  lemma UseIsWithinLargestSet(globalMax: int, defaultMax: int, actions: seq<Action>, m: string)
    requires Execute(Initial(globalMax, defaultMax), actions).Some?
    ensures var s := Execute(Initial(globalMax, defaultMax), actions).value;
      && |s.sems| > 0
      && (s.sems[0].current > 0 ==> s.sems[0].current <= LargestGlobal(globalMax, actions))
      && (InUse(s, m) > 0 ==> InUse(s, m) <= LargestOf(m, defaultMax, actions))
  {
    var start := Initial(globalMax, defaultMax);
    InitialInv(globalMax, defaultMax);
    assert WithinFor(start, m, defaultMax);
    GlobalPeakIsSet(start, actions, globalMax);
    ModelPeakIsSet(start, actions, m, defaultMax);
    hide Execute, WithinFor;
    var s := Execute(start, actions).value;
    assert SemInv(s.sems[0]);
    InUseWithin(s, m, LargestOf(m, defaultMax, actions));
  }

  // ---------- GPU-aware limits ----------

  /** The new maximum of a model that needs gpuMem megabytes per instance. The conversion to an
      integer truncates, which is the floor for the non-negative totals the caller computes. */
  function GPULimit(totalAvailable: real, gpuMem: int, defaultMax: int): int
    requires totalAvailable >= 0.0 && gpuMem > 0
  {
    var fit := (totalAvailable / gpuMem as real).Floor;
    var atLeastOne := if fit < 1 then 1 else fit;
    if atLeastOne > defaultMax * 2 then defaultMax * 2 else atLeastOne
  }

  /** "Always allow at least 1" holds if and only if the default maximum is positive: the cap is
      applied after the lower bound. */
  lemma GPULimitAtLeastOneIff(totalAvailable: real, gpuMem: int, defaultMax: int)
    requires totalAvailable >= 0.0 && gpuMem > 0
    ensures GPULimit(totalAvailable, gpuMem, defaultMax) >= 1 <==> defaultMax >= 1
    ensures GPULimit(totalAvailable, gpuMem, defaultMax) <= defaultMax * 2
    ensures GPULimit(totalAvailable, gpuMem, defaultMax) > 1 ==>
      GPULimit(totalAvailable, gpuMem, defaultMax) as real * gpuMem as real <= totalAvailable
    ensures GPULimit(totalAvailable, gpuMem, defaultMax) < defaultMax * 2 ==>
      (GPULimit(totalAvailable, gpuMem, defaultMax) + 1) as real * gpuMem as real > totalAvailable
  {
    var q := totalAvailable / gpuMem as real;
    assert q * gpuMem as real == totalAvailable;
    var limit := GPULimit(totalAvailable, gpuMem, defaultMax);
    if limit > 1 {
      assert limit as real <= q;
    }
    if limit < defaultMax * 2 {
      var more := (limit + 1) as real;
      assert q < more;
      assert more * gpuMem as real > totalAvailable;
    }
  }
}
