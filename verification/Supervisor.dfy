/** The service supervisor: restart counting and exponential backoff of one supervised service.
    Durations and instants are integers; a service that never restarted has no LastRestartAt. */
module Supervisor {

  import opened Common

  /** maxRestartAttempts 0 means unlimited. */
  datatype Config = Config(maxRestartAttempts: int, restartBackoff: int, maxRestartBackoff: int)

  datatype ServiceState = ServiceState(
    healthy: bool, restartCount: nat, lastRestartAt: Option<int>, lastHealthyAt: int, currentBackoff: int)

  /** One health check: what the service answers, and the clock when the backoff is checked and
      when the restart is recorded. */
  datatype Check = Check(healthy: bool, now: int, later: int)

  /** The check does not restart because the limit is reached. */
  predicate GivesUp(config: Config, s: ServiceState) {
    config.maxRestartAttempts > 0 && s.restartCount >= config.maxRestartAttempts
  }

  /** The backoff has not run out. */
  predicate BacksOff(s: ServiceState, now: int) {
    s.lastRestartAt.Some? && now - s.lastRestartAt.value < s.currentBackoff
  }

  predicate Restarts(config: Config, s: ServiceState, c: Check) {
    !c.healthy && !GivesUp(config, s) && !BacksOff(s, c.now)
  }

  function Registered(config: Config, now: int): ServiceState {
    ServiceState(true, 0, None, now, config.restartBackoff)
  }

  class Service {
    const config: Config
    var healthy: bool
    var restartCount: nat
    var lastRestartAt: Option<int>
    var lastHealthyAt: int
    var currentBackoff: int

    function View(): ServiceState
      reads this
    {
      ServiceState(healthy, restartCount, lastRestartAt, lastHealthyAt, currentBackoff)
    }

    /** Register */
    constructor (config: Config, now: int)
      ensures View() == Registered(config, now) && this.config == config
    {
      this.config := config;
      healthy, restartCount, lastRestartAt := true, 0, None;
      lastHealthyAt, currentBackoff := now, config.restartBackoff;
    }

    /** checkService up to the point where the lock is given up; restart tells whether the
        service is then stopped and started. */
    method CheckService(isHealthy: bool, now: int, later: int) returns (restart: bool)
      modifies this
      ensures restart == Restarts(config, old(View()), Check(isHealthy, now, later))
      ensures View() == Step(config, old(View()), Check(isHealthy, now, later))
      ensures restart <==>
        && !isHealthy
        && (config.maxRestartAttempts <= 0 || old(restartCount) < config.maxRestartAttempts)
        && (old(lastRestartAt).None? || now - old(lastRestartAt).value >= old(currentBackoff))
      ensures healthy == isHealthy && lastHealthyAt == (if isHealthy then now else old(lastHealthyAt))
      ensures restartCount == old(restartCount) + (if restart then 1 else 0)
      ensures lastRestartAt == if restart then Some(later) else old(lastRestartAt)
      ensures isHealthy ==> currentBackoff == config.restartBackoff
      ensures !isHealthy && !restart ==> currentBackoff == old(currentBackoff)
      ensures restart ==>
        && currentBackoff <= 2 * old(currentBackoff) && currentBackoff <= config.maxRestartBackoff
        && (currentBackoff == 2 * old(currentBackoff) || currentBackoff == config.maxRestartBackoff)
    {
      healthy := isHealthy;
      if isHealthy {
        lastHealthyAt := now;
        currentBackoff := config.restartBackoff;
        return false;
      }
      if config.maxRestartAttempts > 0 && restartCount >= config.maxRestartAttempts {
        return false;
      }
      if lastRestartAt.Some? && now - lastRestartAt.value < currentBackoff {
        return false;
      }
      restartCount := restartCount + 1;
      lastRestartAt := Some(later);
      currentBackoff := currentBackoff * 2;
      if currentBackoff > config.maxRestartBackoff {
        currentBackoff := config.maxRestartBackoff;
      }
      return true;
    }
  }

  function Step(config: Config, s: ServiceState, c: Check): ServiceState {
    if c.healthy then s.(healthy := true, lastHealthyAt := c.now, currentBackoff := config.restartBackoff)
    else if !Restarts(config, s, c) then s.(healthy := false)
    else s.(healthy := false, restartCount := s.restartCount + 1, lastRestartAt := Some(c.later),
            currentBackoff := Min(s.currentBackoff * 2, config.maxRestartBackoff))
  }

  function Min(a: int, b: int): int {
    if a < b then a else b
  }

  // ---------- Histories since registration ----------

  function After(config: Config, h: seq<Check>): ServiceState {
    if h == [] then Registered(config, 0) else Step(config, After(config, h[..|h| - 1]), h[|h| - 1])
  }

  /** The i-th check of the history restarted the service. */
  predicate RestartAt(config: Config, h: seq<Check>, i: nat) {
    i < |h| && Restarts(config, After(config, h[..i]), h[i])
  }

  /** Restarts in the whole history. */
  function RestartsIn(config: Config, h: seq<Check>): nat {
    if h == [] then 0
    else RestartsIn(config, h[..|h| - 1]) + if RestartAt(config, h, |h| - 1) then 1 else 0
  }

  /** Restarts since the last healthy check, or since registration. */
  function RestartsInARow(config: Config, h: seq<Check>): nat {
    if h == [] || h[|h| - 1].healthy then 0
    else RestartsInARow(config, h[..|h| - 1]) + if RestartAt(config, h, |h| - 1) then 1 else 0
  }

  /** base doubled k times. */
  function Doubled(base: int, k: nat): int {
    if k == 0 then base else 2 * Doubled(base, k - 1)
  }

  predicate Sane(config: Config) {
    config.restartBackoff >= 0 && config.maxRestartBackoff >= 0
  }

  lemma {:induction false} DoubledGrows(base: int, k: nat)
    requires base >= 0
    ensures Doubled(base, k) >= base
  {
    if k > 0 {
      DoubledGrows(base, k - 1);
    }
  }

  /** After every history: the restart count, and the backoff as a closed form of the restarts
      in a row. */
  lemma {:induction false} Remembers(config: Config, h: seq<Check>)
    requires Sane(config)
    ensures After(config, h).restartCount == RestartsIn(config, h)
    ensures var k := RestartsInARow(config, h);
      After(config, h).currentBackoff ==
        if k == 0 then config.restartBackoff else Min(Doubled(config.restartBackoff, k), config.maxRestartBackoff)
  {
    if h != [] {
      Remembers(config, h[..|h| - 1]);
      DoubledGrows(config.restartBackoff, RestartsInARow(config, h[..|h| - 1]));
    }
  }

  /** The backoff is min(base * 2^k, max), k the restarts since the last healthy check, if and only
      if the initial backoff is at most the maximum or there was such a restart. */
  lemma BackoffIsCappedDoublingIff(config: Config, h: seq<Check>)
    requires Sane(config)
    ensures var k := RestartsInARow(config, h);
      After(config, h).currentBackoff == Min(Doubled(config.restartBackoff, k), config.maxRestartBackoff)
      <==> config.restartBackoff <= config.maxRestartBackoff || k > 0
  {
    Remembers(config, h);
  }

  /** With a positive limit there are never more restarts than the limit, over all of the
      service's history: healthy checks reset the backoff, not the count. */
  lemma {:induction false} RestartsAreLimited(config: Config, h: seq<Check>)
    requires Sane(config) && config.maxRestartAttempts > 0
    ensures RestartsIn(config, h) <= config.maxRestartAttempts
  {
    if h != [] {
      RestartsAreLimited(config, h[..|h| - 1]);
      Remembers(config, h[..|h| - 1]);
    }
  }

  lemma SameRestart(config: Config, h: seq<Check>, i: nat)
    requires i < |h| - 1
    ensures RestartAt(config, h[..|h| - 1], i) == RestartAt(config, h, i)
  {
    hide After, Restarts;
    assert h[..|h| - 1][..i] == h[..i];
  }

  /** The positions of the restarts. */
  ghost function RestartSet(config: Config, h: seq<Check>): set<nat> {
    set i: nat | i < |h| && RestartAt(config, h, i)
  }

  lemma RestartSetStep(config: Config, h: seq<Check>)
    requires h != []
    ensures var n := |h| - 1; var before := RestartSet(config, h[..n]);
      n !in before && RestartSet(config, h) == if RestartAt(config, h, n) then before + {n} else before
  {
    hide RestartAt;
    var n := |h| - 1;
    var before := RestartSet(config, h[..n]);
    forall i: nat
      ensures i in RestartSet(config, h) <==> i in before || (i == n && RestartAt(config, h, n))
    {
      if i < n {
        SameRestart(config, h, i);
      }
    }
  }

  lemma {:induction false} RestartsInAre(config: Config, h: seq<Check>)
    ensures RestartsIn(config, h) == |RestartSet(config, h)|
  {
    hide RestartAt;
    if h != [] {
      RestartsInAre(config, h[..|h| - 1]);
      RestartSetStep(config, h);
      hide RestartSet;
    }
  }

  /** The i-th check restarted the service, and no later one did. */
  ghost predicate IsLastRestart(config: Config, h: seq<Check>, i: nat) {
    RestartAt(config, h, i) && forall m: nat :: i < m < |h| ==> !RestartAt(config, h, m)
  }

  lemma {:induction false} LastRestartExists(config: Config, h: seq<Check>)
    ensures After(config, h).lastRestartAt.None? <==> RestartsIn(config, h) == 0
    ensures After(config, h).lastRestartAt.Some? ==> exists i: nat :: IsLastRestart(config, h, i)
    ensures forall i: nat :: IsLastRestart(config, h, i) ==> After(config, h).lastRestartAt == Some(h[i].later)
  {
    if h != [] {
      var n := |h| - 1;
      var t := h[..n];
      LastRestartExists(config, t);
      if RestartAt(config, h, n) {
        assert IsLastRestart(config, h, n);
      } else if After(config, t).lastRestartAt.Some? {
        var i: nat :| IsLastRestart(config, t, i);
        SameRestarts(config, h, i);
      }
      forall i: nat | IsLastRestart(config, h, i)
        ensures After(config, h).lastRestartAt == Some(h[i].later)
      {
        LastRestart(config, h, i, |h|);
        assert h[..|h|] == h;
      }
    }
  }

  lemma SameRestarts(config: Config, h: seq<Check>, i: nat)
    requires h != [] && !RestartAt(config, h, |h| - 1) && IsLastRestart(config, h[..|h| - 1], i)
    ensures IsLastRestart(config, h, i)
  {
    assert i < |h| - 1;
    hide RestartAt;
    forall m: nat | m < |h| - 1
      ensures RestartAt(config, h[..|h| - 1], m) == RestartAt(config, h, m)
    {
      SameRestart(config, h, m);
    }
  }

  /** After every history, a check restarts the service exactly when it finds it unhealthy, fewer
      restarts than the limit have been made, if there is one, and since the last of them, if
      any, at least the backoff has passed. */
  lemma RestartsIff(config: Config, h: seq<Check>, c: Check)
    requires Sane(config)
    ensures var k := RestartsInARow(config, h);
      var backoff :=
        if k == 0 then config.restartBackoff else Min(Doubled(config.restartBackoff, k), config.maxRestartBackoff);
      RestartAt(config, h + [c], |h|) <==>
        && !c.healthy
        && (config.maxRestartAttempts <= 0 || RestartsIn(config, h) < config.maxRestartAttempts)
        && (forall i: nat :: IsLastRestart(config, h, i) ==> c.now - h[i].later >= backoff)
  {
    assert (h + [c])[..|h|] == h;
    Remembers(config, h);
    LastRestartExists(config, h);
    hide IsLastRestart, Doubled, RestartsIn, RestartsInARow;
  }

  /** In particular, a service found unhealthy that was never restarted is restarted at once. */
  lemma FirstFailureRestarts(config: Config, h: seq<Check>, c: Check)
    requires Sane(config) && RestartsIn(config, h) == 0 && !c.healthy
    ensures RestartAt(config, h + [c], |h|)
  {
    assert (h + [c])[..|h|] == h;
    Remembers(config, h);
    LastRestartExists(config, h);
  }

  /** What is shown of a service's health is what the last check found, and when it was last healthy. */
  lemma {:induction false} HealthIsLastCheck(config: Config, h: seq<Check>)
    ensures After(config, h).healthy <==> h == [] || h[|h| - 1].healthy
    ensures (forall i :: 0 <= i < |h| ==> !h[i].healthy) ==> After(config, h).lastHealthyAt == 0
    ensures forall i :: 0 <= i < |h| && h[i].healthy && (forall j :: i < j < |h| ==> !h[j].healthy) ==>
      After(config, h).lastHealthyAt == h[i].now
  {
    if h != [] {
      var t := h[..|h| - 1];
      HealthIsLastCheck(config, t);
      assert forall i :: 0 <= i < |t| ==> t[i] == h[i];
    }
  }

  lemma {:induction false} LastRestart(config: Config, h: seq<Check>, i: nat, j: nat)
    requires i < j <= |h| && RestartAt(config, h, i)
    requires forall m :: i < m < j ==> !RestartAt(config, h, m)
    ensures After(config, h[..j]).lastRestartAt == Some(h[i].later)
    decreases j
  {
    assert h[..j][..j - 1] == h[..j - 1];
    if j > i + 1 {
      assert !RestartAt(config, h, j - 1);
      LastRestart(config, h, i, j - 1);
    }
  }

  /** From one supervised restart to the next at least the capped, doubled backoff passes; without
      a healthy check in between it doubles from restart to restart. */
  lemma RestartsAreSpaced(config: Config, h: seq<Check>, i: nat, j: nat)
    requires Sane(config) && config.restartBackoff <= config.maxRestartBackoff
    requires i < j < |h| && RestartAt(config, h, i) && RestartAt(config, h, j)
    requires forall m :: i < m < j ==> !RestartAt(config, h, m)
    ensures h[j].now - h[i].later
      >= Min(Doubled(config.restartBackoff, RestartsInARow(config, h[..j])), config.maxRestartBackoff)
      >= config.restartBackoff
    ensures (forall m :: i < m < j ==> !h[m].healthy) ==>
      RestartsInARow(config, h[..j]) == RestartsInARow(config, h[..i]) + 1
  {
    LastRestart(config, h, i, j);
    BackoffIsCappedDoublingIff(config, h[..j]);
    DoubledGrows(config.restartBackoff, RestartsInARow(config, h[..j]));
    if forall m :: i < m < j ==> !h[m].healthy {
      NoFurtherRestart(config, h, i, j);
    }
  }

  lemma {:induction false} NoFurtherRestart(config: Config, h: seq<Check>, i: nat, j: nat)
    requires i < j <= |h| && RestartAt(config, h, i)
    requires forall m :: i < m < j ==> !RestartAt(config, h, m) && !h[m].healthy
    ensures RestartsInARow(config, h[..j]) == RestartsInARow(config, h[..i]) + 1
    decreases j
  {
    var t := h[..j];
    assert t[..j - 1] == h[..j - 1] && t[..j - 1][..j - 1] == h[..j - 1];
    assert RestartAt(config, t, j - 1) == RestartAt(config, h, j - 1);
    if j > i + 1 {
      assert !RestartAt(config, h, j - 1);
      NoFurtherRestart(config, h, i, j - 1);
    }
  }
}
