/** The model health checker: its indexes, the effect of a probe, and health as a function of the
    probe history. */
module HealthChecker {

  import opened Common

  datatype Health = Unknown | Healthy | Degraded | Unhealthy

  /** How a probe ended, and the clock when the result was applied; after a success the clock is
      read twice. */
  datatype Probe = Succeeded(at: int, later: int) | Failed(at: int, error: string)

  /** Times are None while they still are the zero time. */
  datatype Status = Status(
    endpoint: string, health: Health, lastCheck: Option<int>, lastSuccess: Option<int>,
    lastError: string, consecutiveFails: nat,
    totalChecks: nat, totalSuccesses: nat, totalFailures: nat, circuitOpen: bool)

  function NewStatus(endpoint: string): Status {
    Status(endpoint, Unknown, None, None, "", 0, 0, 0, 0, false)
  }

  /** The status after a probe. */
  function Probed(threshold: int, s: Status, probe: Probe): Status {
    match probe
    case Failed(at, error) =>
      var fails := s.consecutiveFails + 1;
      s.(lastCheck := Some(at), lastError := error, consecutiveFails := fails, totalChecks := s.totalChecks + 1,
         totalFailures := s.totalFailures + 1,
         circuitOpen := s.circuitOpen || fails >= threshold,
         health := if fails >= threshold then Unhealthy else if s.health == Healthy then Degraded else s.health)
    case Succeeded(at, later) =>
      s.(lastCheck := Some(at), lastSuccess := Some(later), lastError := "", consecutiveFails := 0, totalChecks := s.totalChecks + 1,
         totalSuccesses := s.totalSuccesses + 1, circuitOpen := false, health := Healthy)
  }

  /** Models grouped by endpoint: the key of the first model found, and all the models. */
  datatype Group = Group(apiKey: string, modelIDs: seq<string>)

  /** A missing key reads as the empty string. */
  function KeyOf(apiKeys: map<string, string>, modelID: string): string {
    if modelID in apiKeys then apiKeys[modelID] else ""
  }

  /** The models of `done` stand in exactly the group of their endpoint, once each, and no group
      is empty or holds another model; its key is the key of one of its models. */
  ghost predicate Grouped(endpoints: map<string, string>, apiKeys: map<string, string>,
                          done: set<string>, groups: map<string, Group>)
    requires done <= endpoints.Keys
  {
    && (forall m :: m in done ==> endpoints[m] in groups && m in groups[endpoints[m]].modelIDs)
    && (forall e :: e in groups ==> GroupOf(endpoints, apiKeys, done, e, groups[e]))
  }

  ghost predicate GroupOf(endpoints: map<string, string>, apiKeys: map<string, string>,
                          done: set<string>, endpoint: string, group: Group)
    requires done <= endpoints.Keys
  {
    var ids := group.modelIDs;
    && ids != []
    && group.apiKey == KeyOf(apiKeys, ids[0])
    && (forall i :: 0 <= i < |ids| ==> ids[i] in done && endpoints[ids[i]] == endpoint)
    && (forall i, j :: 0 <= i < j < |ids| ==> ids[i] != ids[j])
  }

  lemma GroupOneMore(endpoints: map<string, string>, apiKeys: map<string, string>,
                     done: set<string>, groups: map<string, Group>, m: string)
    requires done <= endpoints.Keys && m in endpoints && m !in done
    requires Grouped(endpoints, apiKeys, done, groups)
    ensures var e := endpoints[m];
      var group := if e in groups then groups[e].(modelIDs := groups[e].modelIDs + [m])
                   else Group(KeyOf(apiKeys, m), [m]);
      Grouped(endpoints, apiKeys, done + {m}, groups[e := group])
  {
    var e := endpoints[m];
    var group := if e in groups then groups[e].(modelIDs := groups[e].modelIDs + [m])
                 else Group(KeyOf(apiKeys, m), [m]);
    assert group.modelIDs[|group.modelIDs| - 1] == m;
    assert GroupOf(endpoints, apiKeys, done + {m}, e, group);
    forall n | n in done
      ensures endpoints[n] in groups[e := group] && n in groups[e := group][endpoints[n]].modelIDs
    {
    }
  }

  /** One probe for each endpoint in use, and each model judged by exactly one of them, once. */
  lemma EachModelInOneGroup(endpoints: map<string, string>, apiKeys: map<string, string>,
                            groups: map<string, Group>)
    requires Grouped(endpoints, apiKeys, endpoints.Keys, groups)
    ensures groups.Keys == endpoints.Values
    ensures forall m, e :: e in groups ==> (m in groups[e].modelIDs <==> m in endpoints && endpoints[m] == e)
    ensures forall e :: e in groups ==> multiset(groups[e].modelIDs) == multiset(set m <- groups[e].modelIDs)
  {
    forall e | e in groups
      ensures e in endpoints.Values
      ensures multiset(groups[e].modelIDs) == multiset(set m <- groups[e].modelIDs)
    {
      assert GroupOf(endpoints, apiKeys, endpoints.Keys, e, groups[e]);
      assert endpoints[groups[e].modelIDs[0]] == e;
      DistinctOnce(groups[e].modelIDs);
    }
    forall e | e in endpoints.Values
      ensures e in groups
    {
      var m :| m in endpoints && endpoints[m] == e;
      assert m in endpoints.Keys;
    }
  }

  /** Grouping with model n first gives its endpoint's group its key. */
  lemma GroupedWithFirst(endpoints: map<string, string>, apiKeys: map<string, string>, n: string)
    returns (groups: map<string, Group>)
    requires n in endpoints
    ensures Grouped(endpoints, apiKeys, endpoints.Keys, groups)
    ensures endpoints[n] in groups && groups[endpoints[n]].apiKey == KeyOf(apiKeys, n)
  {
    GroupOneMore(endpoints, apiKeys, {}, map[], n);
    assert {} + {n} == {n};
    groups := map[endpoints[n] := Group(KeyOf(apiKeys, n), [n])];
    assert groups == map[][endpoints[n] := Group(KeyOf(apiKeys, n), [n])];
    groups := GroupedRest(endpoints, apiKeys, {n}, groups, endpoints[n]);
  }

  lemma {:induction false} GroupedRest(endpoints: map<string, string>, apiKeys: map<string, string>,
                                       done: set<string>, groups: map<string, Group>, endpoint: string)
    returns (all: map<string, Group>)
    requires done <= endpoints.Keys && Grouped(endpoints, apiKeys, done, groups) && endpoint in groups
    ensures Grouped(endpoints, apiKeys, endpoints.Keys, all)
    ensures endpoint in all && all[endpoint].apiKey == groups[endpoint].apiKey
    decreases endpoints.Keys - done
  {
    if endpoints.Keys <= done {
      assert done == endpoints.Keys;
      all := groups;
    } else {
      hide Grouped;
      var m :| m in endpoints.Keys && m !in done;
      GroupOneMore(endpoints, apiKeys, done, groups, m);
      var e := endpoints[m];
      var group := if e in groups then groups[e].(modelIDs := groups[e].modelIDs + [m])
                   else Group(KeyOf(apiKeys, m), [m]);
      all := GroupedRest(endpoints, apiKeys, done + {m}, groups[e := group], endpoint);
    }
  }

  /** However the map is iterated, the model's endpoint is probed with the model's own key. */
  ghost predicate AlwaysOwnKey(endpoints: map<string, string>, apiKeys: map<string, string>, m: string)
    requires m in endpoints
  {
    forall groups: map<string, Group> :: Grouped(endpoints, apiKeys, endpoints.Keys, groups) ==>
      endpoints[m] in groups && groups[endpoints[m]].apiKey == KeyOf(apiKeys, m)
  }

  /** A model is always probed with its own key exactly when all models of its endpoint have it. */
  lemma AlwaysOwnKeyIff(endpoints: map<string, string>, apiKeys: map<string, string>, m: string)
    requires m in endpoints
    ensures AlwaysOwnKey(endpoints, apiKeys, m) <==>
      forall n :: n in endpoints && endpoints[n] == endpoints[m] ==> KeyOf(apiKeys, n) == KeyOf(apiKeys, m)
  {
    if AlwaysOwnKey(endpoints, apiKeys, m) {
      forall n | n in endpoints && endpoints[n] == endpoints[m]
        ensures KeyOf(apiKeys, n) == KeyOf(apiKeys, m)
      {
        var groups := GroupedWithFirst(endpoints, apiKeys, n);
      }
    } else {
      var groups: map<string, Group> :| Grouped(endpoints, apiKeys, endpoints.Keys, groups)
        && !(endpoints[m] in groups && groups[endpoints[m]].apiKey == KeyOf(apiKeys, m));
      assert m in endpoints.Keys;
      var first := groups[endpoints[m]].modelIDs[0];
      assert GroupOf(endpoints, apiKeys, endpoints.Keys, endpoints[m], groups[endpoints[m]]);
      assert endpoints[first] == endpoints[m] && KeyOf(apiKeys, first) != KeyOf(apiKeys, m);
    }
  }

  lemma {:induction false} DistinctOnce(s: seq<string>)
    requires forall i, j :: 0 <= i < j < |s| ==> s[i] != s[j]
    ensures multiset(s) == multiset(set m <- s)
  {
    if s != [] {
      var t, last := s[..|s| - 1], s[|s| - 1];
      DistinctOnce(t);
      assert s == t + [last];
      assert (set m <- s) == (set m <- t) + {last};
      assert last !in t;
    }
  }

  class ModelHealthChecker {
    var statuses: map<string, Status>
    var endpoints: map<string, string>
    var apiKeys: map<string, string>
    const unhealthyThreshold: int
    const healthyThreshold: int     // configured, never consulted

    constructor (unhealthyThreshold: int, healthyThreshold: int)
      ensures statuses == map[] && endpoints == map[] && apiKeys == map[]
      ensures this.unhealthyThreshold == unhealthyThreshold && this.healthyThreshold == healthyThreshold
    {
      this.unhealthyThreshold, this.healthyThreshold := unhealthyThreshold, healthyThreshold;
      statuses, endpoints, apiKeys := map[], map[], map[];
    }

    /** A known model keeps its status and gets the new endpoint. */
    method RegisterModel(modelID: string, endpoint: string, apiKey: string)
      modifies this
      ensures endpoints == old(endpoints)[modelID := endpoint]
      ensures apiKeys == if apiKey != "" then old(apiKeys)[modelID := apiKey] else old(apiKeys) - {modelID}
      ensures statuses == old(statuses)[modelID :=
        if modelID in old(statuses) then old(statuses)[modelID].(endpoint := endpoint) else NewStatus(endpoint)]
    {
      endpoints := endpoints[modelID := endpoint];
      if apiKey != "" {
        apiKeys := apiKeys[modelID := apiKey];
      } else {
        apiKeys := apiKeys - {modelID};
      }
      if modelID !in statuses {
        statuses := statuses[modelID := NewStatus(endpoint)];
      } else {
        statuses := statuses[modelID := statuses[modelID].(endpoint := endpoint)];
      }
    }

    method UnregisterModel(modelID: string)
      modifies this
      ensures endpoints == old(endpoints) - {modelID}
      ensures apiKeys == old(apiKeys) - {modelID}
      ensures statuses == old(statuses) - {modelID}
    {
      endpoints := endpoints - {modelID};
      apiKeys := apiKeys - {modelID};
      statuses := statuses - {modelID};
    }

    /** The part of checkAllModels under the lock. The map's iteration order is arbitrary. */
    method GroupByEndpoint() returns (groups: map<string, Group>)
      ensures Grouped(endpoints, apiKeys, endpoints.Keys, groups)
    {
      groups := map[];
      var todo := endpoints.Keys;
      ghost var done: set<string> := {};
      while todo != {}
        invariant todo <= endpoints.Keys && done == endpoints.Keys - todo
        invariant Grouped(endpoints, apiKeys, done, groups)
        decreases todo
      {
        hide Grouped;
        var modelID :| modelID in todo;
        var endpoint := endpoints[modelID];
        GroupOneMore(endpoints, apiKeys, done, groups, modelID);
        if endpoint in groups {
          var group := groups[endpoint];
          groups := groups[endpoint := group.(modelIDs := group.modelIDs + [modelID])];
        } else {
          groups := groups[endpoint := Group(KeyOf(apiKeys, modelID), [modelID])];
        }
        todo, done := todo - {modelID}, done + {modelID};
      }
    }

    /** The result tells the status change that the callback is then started with, if any. A
        probe of a model that was unregistered meanwhile brings its status back. */
    method ApplyProbeResult(modelID: string, endpoint: string, probe: Probe)
      returns (change: Option<(Health, Health)>)
      modifies this`statuses
      ensures var before := if modelID in old(statuses) then old(statuses)[modelID] else NewStatus(endpoint);
        && statuses == old(statuses)[modelID := Probed(unhealthyThreshold, before, probe)]
        && change == if before.health == statuses[modelID].health then None
                     else Some((before.health, statuses[modelID].health))
    {
      var status := if modelID in statuses then statuses[modelID] else NewStatus(endpoint);
      var oldHealth := status.health;
      status := status.(lastCheck := Some(probe.at), totalChecks := status.totalChecks + 1);
      match probe {
        case Failed(_, error) =>
          status := status.(totalFailures := status.totalFailures + 1,
                            consecutiveFails := status.consecutiveFails + 1, lastError := error);
          if status.consecutiveFails >= unhealthyThreshold {
            status := status.(health := Unhealthy, circuitOpen := true);
          } else if status.health == Healthy {
            status := status.(health := Degraded);
          }
        case Succeeded(_, later) =>
          status := status.(totalSuccesses := status.totalSuccesses + 1, lastSuccess := Some(later), lastError := "");
          if status.health == Unhealthy {
            if status.consecutiveFails == 0 {
              status := status.(health := Degraded);
            }
          }
          status := status.(consecutiveFails := 0, circuitOpen := false);
          if status.health != Healthy {
            status := status.(health := Healthy);
          }
      }
      statuses := statuses[modelID := status];
      change := if oldHealth != status.health then Some((oldHealth, status.health)) else None;
    }
  }

  // ---------- Probe histories ----------

  function After(threshold: int, endpoint: string, h: seq<Probe>): Status {
    if h == [] then NewStatus(endpoint)
    else Probed(threshold, After(threshold, endpoint, h[..|h| - 1]), h[|h| - 1])
  }

  function TrailingFailures(h: seq<Probe>): nat {
    if h == [] || h[|h| - 1].Succeeded? then 0 else TrailingFailures(h[..|h| - 1]) + 1
  }

  predicate EverSucceeded(h: seq<Probe>) {
    exists i :: 0 <= i < |h| && h[i].Succeeded?
  }

  /** A threshold below one acts like one. */
  function Effective(threshold: int): nat {
    if threshold < 1 then 1 else threshold
  }

  /** Health in closed form. */
  function HealthOf(threshold: int, h: seq<Probe>): Health {
    if TrailingFailures(h) >= Effective(threshold) then Unhealthy
    else if h != [] && h[|h| - 1].Succeeded? then Healthy
    else if EverSucceeded(h) then Degraded
    else Unknown
  }

  function Count(h: seq<Probe>): nat {
    if h == [] then 0 else Count(h[..|h| - 1]) + if h[|h| - 1].Succeeded? then 1 else 0
  }

  function LatestSuccess(h: seq<Probe>): Option<int> {
    if h == [] then None
    else if h[|h| - 1].Succeeded? then Some(h[|h| - 1].later)
    else LatestSuccess(h[..|h| - 1])
  }

  lemma EverSucceededStep(h: seq<Probe>)
    requires h != []
    ensures EverSucceeded(h) <==> h[|h| - 1].Succeeded? || EverSucceeded(h[..|h| - 1])
  {
    var t := h[..|h| - 1];
    if EverSucceeded(t) {
      var i :| 0 <= i < |t| && t[i].Succeeded?;
      assert h[i].Succeeded?;
    }
    if EverSucceeded(h) && h[|h| - 1].Failed? {
      var i :| 0 <= i < |h| && h[i].Succeeded?;
      assert t[i].Succeeded?;
    }
  }

  /** A model's health, its circuit and its counters depend on the probe history alone, in this
      way. Degraded means failures at the end that are fewer than the threshold, after a success. */
  lemma {:induction false} HealthIsClosedForm(threshold: int, endpoint: string, h: seq<Probe>)
    ensures var s := After(threshold, endpoint, h);
      && s.health == HealthOf(threshold, h)
      && s.consecutiveFails == TrailingFailures(h)
      && (s.circuitOpen <==> s.health == Unhealthy)
      && s.totalChecks == |h| == s.totalSuccesses + s.totalFailures
      && s.totalSuccesses == Count(h)
      && s.lastCheck == (if h == [] then None else Some(h[|h| - 1].at))
      && s.lastSuccess == LatestSuccess(h)
  {
    if h != [] {
      HealthIsClosedForm(threshold, endpoint, h[..|h| - 1]);
      EverSucceededStep(h);
      LastSuccess(h[..|h| - 1]);
    }
  }

  lemma {:induction false} TrailingFailuresAre(h: seq<Probe>, n: nat)
    ensures TrailingFailures(h) >= n <==> n <= |h| && forall i :: |h| - n <= i < |h| ==> h[i].Failed?
    decreases |h|
  {
    if n > 0 && h != [] {
      var t := h[..|h| - 1];
      TrailingFailuresAre(t, n - 1);
      assert forall i :: 0 <= i < |t| ==> t[i] == h[i];
    }
  }

  /** In terms of single probes: unhealthy exactly when the last ones, as many as the threshold says
      but at least one, all failed; healthy exactly when the last one succeeded; degraded exactly when
      fewer failed since a success. */
  lemma HealthToldByProbes(threshold: int, endpoint: string, h: seq<Probe>)
    ensures var s, n := After(threshold, endpoint, h), if threshold < 1 then 1 else threshold;
      && (s.health == Unhealthy <==> n <= |h| && forall i :: |h| - n <= i < |h| ==> h[i].Failed?)
      && (s.health == Healthy <==> h != [] && h[|h| - 1].Succeeded?)
      && (s.health == Degraded <==>
            && h != [] && h[|h| - 1].Failed? && s.health != Unhealthy
            && exists i :: 0 <= i < |h| && h[i].Succeeded?)
  {
    HealthIsClosedForm(threshold, endpoint, h);
    TrailingFailuresAre(h, Effective(threshold));
    if h != [] && h[|h| - 1].Succeeded? {
      assert !h[|h| - 1].Failed?;
    }
  }

  /** The positions of the successes, or of the failures. */
  ghost function Ending(h: seq<Probe>, success: bool): set<int> {
    set i | 0 <= i < |h| && h[i].Succeeded? == success
  }

  lemma EndingStep(h: seq<Probe>, success: bool)
    requires h != []
    ensures var n := |h| - 1; var before := Ending(h[..n], success);
      n !in before && Ending(h, success) == if h[n].Succeeded? == success then before + {n} else before
  {
    var n := |h| - 1;
    assert forall i :: 0 <= i < n ==> h[..n][i] == h[i];
  }

  /** The counters and the error are those of the probes themselves. */
  lemma {:induction false} CountersToldByProbes(threshold: int, endpoint: string, h: seq<Probe>)
    ensures var s := After(threshold, endpoint, h);
      && s.totalSuccesses == |Ending(h, true)| && s.totalFailures == |Ending(h, false)|
      && s.lastError == if h == [] || h[|h| - 1].Succeeded? then "" else h[|h| - 1].error
  {
    if h != [] {
      CountersToldByProbes(threshold, endpoint, h[..|h| - 1]);
      EndingStep(h, true);
      EndingStep(h, false);
      hide Ending;
    }
  }

  lemma {:induction false} LastSuccess(h: seq<Probe>)
    ensures h != [] && TrailingFailures(h) == 0 ==> h[|h| - 1].Succeeded? && EverSucceeded(h)
  {
  }

  /** One success heals, whatever happened before. */
  lemma OneSuccessHeals(threshold: int, endpoint: string, h: seq<Probe>, success: Probe)
    requires success.Succeeded?
    ensures After(threshold, endpoint, h + [success]).health == Healthy
    ensures !After(threshold, endpoint, h + [success]).circuitOpen
  {
    assert (h + [success])[..|h|] == h;
  }

  // ---------- The threshold for recovery ----------

  predicate AllSucceeded(probes: seq<Probe>) {
    forall i :: 0 <= i < |probes| ==> probes[i].Succeeded?
  }

  /** The configuration's promise: an unhealthy model is healthy again exactly when it has had
      `healthyThreshold` successes in a row. */
  ghost predicate RecoversAt(threshold: int, healthyThreshold: int, endpoint: string) {
    forall h, good :: good != [] && AllSucceeded(good) && HealthOf(threshold, h) == Unhealthy ==>
      (After(threshold, endpoint, h + good).health == Healthy <==> |good| >= healthyThreshold)
  }

  function Failures(n: nat): (h: seq<Probe>)
    ensures |h| == n
  {
    seq(n, _ => Failed(0, ""))
  }

  lemma {:induction false} FailuresTrail(n: nat)
    ensures TrailingFailures(Failures(n)) == n
    decreases n
  {
    if n > 0 {
      FailuresTrail(n - 1);
      assert Failures(n)[..n - 1] == Failures(n - 1);
    }
  }

  lemma SuccessesHeal(threshold: int, endpoint: string, h: seq<Probe>, good: seq<Probe>)
    requires good != [] && AllSucceeded(good)
    ensures After(threshold, endpoint, h + good).health == Healthy
  {
    var last := |good| - 1;
    assert h + good == (h + good[..last]) + [good[last]];
    OneSuccessHeals(threshold, endpoint, h + good[..last], good[last]);
  }

  /** The code never asks for the configured number of successes, so it keeps that promise if and
      only if the number is at most one. */
  lemma RecoversAtIff(threshold: int, healthyThreshold: int, endpoint: string)
    ensures RecoversAt(threshold, healthyThreshold, endpoint) <==> healthyThreshold <= 1
  {
    var bad := Failures(Effective(threshold));
    var good := [Succeeded(0, 0)];
    FailuresTrail(|bad|);
    SuccessesHeal(threshold, endpoint, bad, good);
    assert AllSucceeded(good) && HealthOf(threshold, bad) == Unhealthy;
    forall h, good | good != [] && AllSucceeded(good)
      ensures After(threshold, endpoint, h + good).health == Healthy
    {
      SuccessesHeal(threshold, endpoint, h, good);
    }
  }
}
