/** The circuit breaker, and its behaviour as a function of the history of calls. */
module CircuitBreaker {

  import opened Common

  datatype CircuitState = Closed | Open | HalfOpen

  datatype Config = Config(failureThreshold: int, successThreshold: int, timeout: int)

  /** lastFailure is None while it still is the zero time. */
  datatype Breaker = Breaker(state: CircuitState, failureCount: int, successCount: int, lastFailure: Option<int>)

  const NEW := Breaker(Closed, 0, 0, None)

  /** The timeout has passed; since the zero time it always has. */
  predicate TimeoutPassed(lastFailure: Option<int>, timeout: int, now: int) {
    lastFailure.None? || now - lastFailure.value > timeout
  }

  class CircuitBreaker {
    const config: Config
    var state: CircuitState
    var failureCount: int
    var successCount: int
    var lastFailure: Option<int>

    function View(): Breaker
      reads this
    {
      Breaker(state, failureCount, successCount, lastFailure)
    }

    constructor (config: Config)
      ensures View() == NEW && this.config == config
    {
      this.config := config;
      state, failureCount, successCount, lastFailure := Closed, 0, 0, None;
    }

    /** The result is the state change that the callback is started with, if any. */
    method SetState(newState: CircuitState) returns (change: Option<(CircuitState, CircuitState)>)
      modifies this`state, this`successCount
      ensures View() == old(View()).(state := newState, successCount := 0)
      ensures change == if old(state) != newState then Some((old(state), newState)) else None
    {
      change := if state != newState then Some((state, newState)) else None;
      state := newState;
      successCount := 0;
    }

    method Allow(now: int) returns (ok: bool, change: Option<(CircuitState, CircuitState)>)
      modifies this`state, this`successCount
      ensures View() == Step(config, old(View()), Asked(now))
      ensures ok == Allows(config, old(View()), now)
      ensures ok <==> old(state) != Open || lastFailure.None? || now - lastFailure.value > config.timeout
      ensures change == if old(state) != state then Some((old(state), state)) else None
    {
      change := None;
      match state {
        case Closed => return true, change;
        case Open =>
          if TimeoutPassed(lastFailure, config.timeout, now) {
            change := SetState(HalfOpen);
            return true, change;
          }
          return false, change;
        case HalfOpen => return true, change;
      }
    }

    method RecordSuccess() returns (change: Option<(CircuitState, CircuitState)>)
      modifies this
      ensures View() == Step(config, old(View()), Success)
      ensures change == if old(state) != state then Some((old(state), state)) else None
    {
      change := None;
      failureCount := 0;
      if state == HalfOpen {
        successCount := successCount + 1;
        if successCount >= config.successThreshold {
          change := SetState(Closed);
        }
      }
    }

    method RecordFailure(now: int) returns (change: Option<(CircuitState, CircuitState)>)
      modifies this
      ensures View() == Step(config, old(View()), Failure(now))
      ensures change == if old(state) != state then Some((old(state), state)) else None
    {
      change := None;
      failureCount := failureCount + 1;
      lastFailure := Some(now);
      if state == HalfOpen {
        change := SetState(Open);
        return;
      }
      if state == Closed && failureCount >= config.failureThreshold {
        change := SetState(Open);
      }
    }

    method Reset() returns (change: Option<(CircuitState, CircuitState)>)
      modifies this
      ensures View() == Step(config, old(View()), WasReset)
      ensures change == if old(state) != state then Some((old(state), state)) else None
    {
      change := SetState(Closed);
      failureCount := 0;
      successCount := 0;
    }
  }

  // ---------- Histories ----------

  datatype Event = Asked(now: int) | Success | Failure(at: int) | WasReset

  predicate Allows(config: Config, b: Breaker, now: int) {
    b.state != Open || TimeoutPassed(b.lastFailure, config.timeout, now)
  }

  function Step(config: Config, b: Breaker, e: Event): Breaker {
    match e
    case Asked(now) =>
      if b.state == Open && TimeoutPassed(b.lastFailure, config.timeout, now)
      then b.(state := HalfOpen, successCount := 0) else b
    case Success =>
      var b' := b.(failureCount := 0);
      if b.state != HalfOpen then b'
      else if b.successCount + 1 >= config.successThreshold then b'.(state := Closed, successCount := 0)
      else b'.(successCount := b.successCount + 1)
    case Failure(at) =>
      var b' := b.(failureCount := b.failureCount + 1, lastFailure := Some(at));
      if b.state == HalfOpen || (b.state == Closed && b'.failureCount >= config.failureThreshold)
      then b'.(state := Open, successCount := 0) else b'
    case WasReset => b.(state := Closed, failureCount := 0, successCount := 0)
  }

  /** The breaker after a history, last event last. */
  function After(config: Config, h: seq<Event>): Breaker {
    if h == [] then NEW else Step(config, After(config, h[..|h| - 1]), h[|h| - 1])
  }

  /** The failures at the end of the history, with no success or reset after or between them.
      Calls of Allow do not matter. */
  function TrailingFailures(h: seq<Event>): nat {
    if h == [] then 0
    else match h[|h| - 1]
      case Asked(_) => TrailingFailures(h[..|h| - 1])
      case Failure(_) => TrailingFailures(h[..|h| - 1]) + 1
      case _ => 0
  }

  /** The instant of the latest recorded failure. */
  function LatestFailure(h: seq<Event>): Option<int> {
    if h == [] then None
    else if h[|h| - 1].Failure? then Some(h[|h| - 1].at)
    else LatestFailure(h[..|h| - 1])
  }

  function Successes(h: seq<Event>): nat {
    if h == [] then 0 else Successes(h[..|h| - 1]) + if h[|h| - 1] == Success then 1 else 0
  }

  predicate Sane(config: Config) {
    config.failureThreshold >= 1 && config.successThreshold >= 1
  }

  function StateAfter(config: Config, h: seq<Event>): CircuitState {
    After(config, h).state
  }

  /** The position of the call of Allow that made the breaker half-open. */
  function HalfOpenedAt(config: Config, h: seq<Event>): (k: nat)
    requires StateAfter(config, h) == HalfOpen
    ensures k < |h|
  {
    if StateAfter(config, h[..|h| - 1]) != HalfOpen then |h| - 1 else HalfOpenedAt(config, h[..|h| - 1])
  }

  /** In every state the breaker remembers the trailing failures and the latest failure. A closed
      one has seen fewer than the threshold, an open one has seen a failure. */
  lemma {:induction false} RemembersFailures(config: Config, h: seq<Event>)
    requires Sane(config)
    ensures After(config, h).failureCount == TrailingFailures(h)
    ensures After(config, h).lastFailure == LatestFailure(h)
    ensures StateAfter(config, h) == Closed ==> TrailingFailures(h) < config.failureThreshold
    ensures StateAfter(config, h) != Closed ==> LatestFailure(h).Some?
    ensures StateAfter(config, h) != HalfOpen ==> After(config, h).successCount == 0
  {
    if h != [] {
      RemembersFailures(config, h[..|h| - 1]);
    }
  }

  lemma LastOfSuffix(h: seq<Event>, k: nat)
    requires k < |h|
    ensures var since := h[k..];
      since[..|since| - 1] == h[..|h| - 1][k..] && since[|since| - 1] == h[|h| - 1]
  {
  }

  lemma StaysHalfOpen(config: Config, b: Breaker, e: Event)
    requires b.state == HalfOpen && Step(config, b, e).state == HalfOpen
    ensures e == Success || e.Asked?
    ensures Step(config, b, e).successCount == b.successCount + if e == Success then 1 else 0
    ensures b.successCount < config.successThreshold ==> Step(config, b, e).successCount < config.successThreshold
  {
  }

  lemma BecomesHalfOpen(config: Config, b: Breaker, e: Event)
    requires b.state != HalfOpen && Step(config, b, e).state == HalfOpen
    ensures b.state == Open && e.Asked? && TimeoutPassed(b.lastFailure, config.timeout, e.now)
    ensures Step(config, b, e).successCount == 0
  {
  }

  /** A half-open breaker became so by a call of Allow more than the timeout after the latest
      failure; since then there was no failure and no reset, and it has counted the successes. */
  lemma {:induction false} RemembersHalfOpening(config: Config, h: seq<Event>)
    requires Sane(config) && StateAfter(config, h) == HalfOpen
    ensures var k := HalfOpenedAt(config, h);
      && k < |h| && StateAfter(config, h[..k]) == Open
      && LatestFailure(h[..k]).Some?
      && h[k].Asked? && h[k].now - LatestFailure(h[..k]).value > config.timeout
      && (forall i :: k < i < |h| ==> h[i] == Success || h[i].Asked?)
      && After(config, h).successCount == Successes(h[k + 1..]) < config.successThreshold
  {
    hide Step;
    var before := h[..|h| - 1];
    var last := h[|h| - 1];
    RemembersFailures(config, before);
    if StateAfter(config, before) == HalfOpen {
      RemembersHalfOpening(config, before);
      StaysHalfOpen(config, After(config, before), last);
      var k := HalfOpenedAt(config, before);
      var since := h[k + 1..];
      assert h[..k] == before[..k];
      LastOfSuffix(h, k + 1);
      forall i | k < i < |h| ensures h[i] == Success || h[i].Asked? {
        assert i < |before| ==> before[i] == h[i];
      }
    } else {
      BecomesHalfOpen(config, After(config, before), last);
      assert h[|h|..] == [];
    }
  }

  /** A closed breaker opens exactly on the failure that completes failureThreshold failures
      with no success or reset between them since it closed. */
  lemma OpensExactly(config: Config, h: seq<Event>, e: Event)
    requires Sane(config) && StateAfter(config, h) == Closed
    ensures StateAfter(config, h + [e]) == Open <==> e.Failure? && TrailingFailures(h + [e]) == config.failureThreshold
    ensures StateAfter(config, h + [e]) != HalfOpen
  {
    assert (h + [e])[..|h|] == h;
    RemembersFailures(config, h);
  }

  /** A half-open breaker closes exactly on reset or on the success that completes successThreshold
      successes since it became half-open, and opens again exactly on a failure. */
  lemma ClosesExactly(config: Config, h: seq<Event>, e: Event)
    requires Sane(config) && StateAfter(config, h) == HalfOpen
    ensures StateAfter(config, h + [e]) == Closed <==>
      e == WasReset || (e == Success && Successes(h[HalfOpenedAt(config, h) + 1..]) + 1 == config.successThreshold)
    ensures StateAfter(config, h + [e]) == Open <==> e.Failure?
  {
    assert (h + [e])[..|h|] == h;
    RemembersHalfOpening(config, h);
  }

  /** An open breaker allows nothing until more than the timeout has passed since the latest
      recorded failure, whenever that was recorded; then it becomes half-open. Nothing but a
      reset or such a call takes it out of the open state. */
  lemma OpenRefuses(config: Config, h: seq<Event>, now: int, e: Event)
    requires Sane(config) && StateAfter(config, h) == Open
    ensures LatestFailure(h).Some?
    ensures Allows(config, After(config, h), now) <==> now - LatestFailure(h).value > config.timeout
    ensures StateAfter(config, h + [Asked(now)]) == if now - LatestFailure(h).value > config.timeout then HalfOpen else Open
    ensures StateAfter(config, h + [e]) == Closed <==> e == WasReset
    ensures StateAfter(config, h + [e]) == HalfOpen <==> e.Asked? && e.now - LatestFailure(h).value > config.timeout
  {
    assert (h + [e])[..|h|] == h && (h + [Asked(now)])[..|h|] == h;
    RemembersFailures(config, h);
  }

  /** A breaker that is not open allows every call and is left as it is by it. */
  lemma ClosedAndHalfOpenAllow(config: Config, h: seq<Event>, now: int)
    requires StateAfter(config, h) != Open
    ensures Allows(config, After(config, h), now) && After(config, h + [Asked(now)]) == After(config, h)
  {
    assert (h + [Asked(now)])[..|h|] == h;
  }

  /** A reset closes the breaker whatever its state, and starts both counts anew. */
  lemma ResetCloses(config: Config, h: seq<Event>)
    ensures var b := After(config, h + [WasReset]);
      b.state == Closed && b.failureCount == b.successCount == 0 && b.lastFailure == After(config, h).lastFailure
  {
    assert (h + [WasReset])[..|h|] == h;
  }

  // ---------- What is counted ----------

  /** A failure with no success or reset after it. */
  predicate Trails(h: seq<Event>, i: int) {
    0 <= i < |h| && h[i].Failure? && forall j :: i < j < |h| ==> h[j] != Success && h[j] != WasReset
  }

  lemma {:induction false} TrailingFailuresAre(h: seq<Event>)
    ensures TrailingFailures(h) == |set i | 0 <= i < |h| && Trails(h, i)|
  {
    if h != [] {
      var n := |h| - 1;
      var t := h[..n];
      TrailingFailuresAre(t);
      forall i | 0 <= i < n
        ensures Trails(h, i) <==> Trails(t, i) && h[n] != Success && h[n] != WasReset
      {
        assert forall j :: 0 <= j < n ==> t[j] == h[j];
      }
      var before := set i | 0 <= i < n && Trails(t, i);
      assert (set i | 0 <= i < |h| && Trails(h, i)) ==
        if h[n] == Success || h[n] == WasReset then {} else if h[n].Failure? then before + {n} else before;
    }
  }

  lemma {:induction false} SuccessesAre(h: seq<Event>)
    ensures Successes(h) == |set i | 0 <= i < |h| && h[i] == Success|
  {
    if h != [] {
      var n := |h| - 1;
      var t := h[..n];
      SuccessesAre(t);
      var before := set i | 0 <= i < n && t[i] == Success;
      assert (set i | 0 <= i < |h| && h[i] == Success) == if h[n] == Success then before + {n} else before;
    }
  }

  predicate IsLatestFailure(h: seq<Event>, i: int, at: int) {
    0 <= i < |h| && h[i] == Failure(at) && forall j :: i < j < |h| ==> !h[j].Failure?
  }

  lemma {:induction false} LatestFailureIs(h: seq<Event>)
    ensures LatestFailure(h).None? <==> forall i :: 0 <= i < |h| ==> !h[i].Failure?
    ensures LatestFailure(h).Some? ==> exists i :: 0 <= i < |h| && IsLatestFailure(h, i, LatestFailure(h).value)
  {
    if h != [] {
      var n := |h| - 1;
      var t := h[..n];
      LatestFailureIs(t);
      assert forall i :: 0 <= i < n ==> t[i] == h[i];
      if !h[n].Failure? && LatestFailure(t).Some? {
        var i :| 0 <= i < n && IsLatestFailure(t, i, LatestFailure(t).value);
        assert IsLatestFailure(h, i, LatestFailure(h).value);
      } else if h[n].Failure? {
        assert IsLatestFailure(h, n, LatestFailure(h).value);
      }
    }
  }
}
