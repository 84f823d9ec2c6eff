/** The model registry, which reconciles a configuration with the health checker's indexes and
    takes the checker's status changes. Every operation acts on each model's own entries alone,
    so the state is read model by model. */
module ModelRegistry {

  import opened Common
  import opened HealthChecker

  datatype ModelMapping = ModelMapping(
    container: string, endpoint: string, gpuMemory: int, category: string,
    localModel: string, format: string, quantization: string, apiKey: string)

  /** What reading models.json gives. */
  datatype ConfigFile = Missing | Unreadable | Malformed | Parsed(mappings: map<string, ModelMapping>)

  datatype State = Loading | Ready | Unavailable | Disabled

  datatype RegisteredModel = RegisteredModel(
    id: string, config: ModelMapping, state: State, health: Health,
    loadedAt: int, updatedAt: int, enabled: bool)

  /** All that registry and checker hold about one model. */
  datatype Entry = Entry(
    model: Option<RegisteredModel>, endpoint: Option<string>, apiKey: Option<string>, status: Option<Status>)

  const NO_ENTRY := Entry(None, None, None, None)

  function Lookup<T>(m: map<string, T>, id: string): Option<T> {
    if id in m then Some(m[id]) else None
  }

  // ---------- What each operation does to one model's entry ----------

  function NewModel(id: string, mapping: ModelMapping, now: int): RegisteredModel {
    RegisteredModel(id, mapping, Loading, Unknown, now, now, true)
  }

  function RegisteredWithChecker(e: Entry, mapping: ModelMapping): Entry {
    e.(endpoint := Some(mapping.endpoint),
       apiKey := if mapping.apiKey != "" then Some(mapping.apiKey) else None,
       status := Some(if e.status.Some? then e.status.value.(endpoint := mapping.endpoint)
                      else NewStatus(mapping.endpoint)))
  }

  function Reloaded(e: Entry, id: string, mapping: Option<ModelMapping>, now: int): Entry {
    match (e.model, mapping)
    case (None, None) => e
    case (None, Some(m)) => RegisteredWithChecker(e.(model := Some(NewModel(id, m, now))), m)
    case (Some(_), None) => NO_ENTRY
    case (Some(model), Some(m)) =>
      if model.config == m then e
      else RegisteredWithChecker(e.(model := Some(model.(config := m, updatedAt := now))), m)
  }

  /** What a load makes of a model's record: added, with the new configuration, as it was, or gone. */
  predicate RecordAfter(before: Option<RegisteredModel>, after: Option<RegisteredModel>,
                        id: string, mapping: Option<ModelMapping>, now: int) {
    match mapping
    case None => after.None?
    case Some(m) =>
      after == Some(
        if before.None? then RegisteredModel(id, m, Loading, Unknown, now, now, true)
        else if before.value.config == m then before.value
        else before.value.(config := m, updatedAt := now))
  }

  lemma ReloadedRecord(e: Entry, id: string, mapping: Option<ModelMapping>, now: int)
    ensures RecordAfter(e.model, Reloaded(e, id, mapping, now).model, id, mapping, now)
  {
  }

  lemma Unlisted(e: Entry, id: string, now: int)
    ensures Reloaded(e, id, None, now) == if e.model.Some? then NO_ENTRY else e
  {
  }

  function AfterReport(model: RegisteredModel, health: Health, now: int): RegisteredModel {
    model.(health := health, updatedAt := now,
           state := match health
                    case Healthy => if model.state in {Loading, Unavailable} then Ready else model.state
                    case Unhealthy => Unavailable
                    case _ => model.state)
  }

  function Reported(e: Entry, health: Health, now: int): Entry {
    if e.model.Some? then e.(model := Some(AfterReport(e.model.value, health, now))) else e
  }

  function SwitchedOn(e: Entry, now: int): Entry {
    if e.model.Some? then e.(model := Some(e.model.value.(enabled := true, updatedAt := now))) else e
  }

  function SwitchedOff(e: Entry, now: int): Entry {
    if e.model.Some? then
      e.(model := Some(e.model.value.(enabled := false, state := Disabled, updatedAt := now)))
    else e
  }

  function StatusOr(e: Entry, endpoint: string): Status {
    if e.status.Some? then e.status.value else NewStatus(endpoint)
  }

  function ProbedEntry(threshold: int, e: Entry, endpoint: string, probe: Probe): Entry {
    e.(status := Some(Probed(threshold, StatusOr(e, endpoint), probe)))
  }

  /** Whether requests are sent to the model. */
  predicate Serves(model: RegisteredModel) {
    model.enabled && !(model.health == Unhealthy && model.state == Unavailable)
  }

  predicate IsReady(model: RegisteredModel) {
    model.enabled && (model.state == Ready || model.health in {Healthy, Degraded})
  }

  // ---------- The registry ----------

  class ModelRegistry {
    var models: map<string, RegisteredModel>
    const checker: ModelHealthChecker

    constructor (checker: ModelHealthChecker)
      ensures models == map[] && this.checker == checker
    {
      this.checker := checker;
      models := map[];
    }

    function At(id: string): Entry
      reads this, checker
    {
      Entry(Lookup(models, id), Lookup(checker.endpoints, id), Lookup(checker.apiKeys, id),
            Lookup(checker.statuses, id))
    }

    /** The sets are the models the three callbacks are started for. Both loops take the models
        in any order. */
    method LoadConfig(file: ConfigFile, now: int)
      returns (ok: bool, added: set<string>, updated: set<string>, removed: set<string>)
      modifies this, checker
      ensures ok <==> file.Parsed? || file.Missing?
      ensures !file.Parsed? ==> unchanged(this) && unchanged(checker) && added == updated == removed == {}
      ensures file.Parsed? ==>
        forall id :: At(id) == Reloaded(old(At(id)), id, Lookup(file.mappings, id), now)
      ensures file.Parsed? ==> forall id ::
        RecordAfter(Lookup(old(models), id), Lookup(models, id), id, Lookup(file.mappings, id), now)
      ensures file.Parsed? ==> (
        && added == file.mappings.Keys - old(models).Keys
        && removed == old(models).Keys - file.mappings.Keys
        && updated == set id | id in old(models) && id in file.mappings
                               && old(models)[id].config != file.mappings[id])
    {
      hide Reloaded;
      added, updated, removed := {}, {}, {};
      if !file.Parsed? {
        return file.Missing?, added, updated, removed;
      }
      ok := true;
      var mappings := file.mappings;
      var existing := models.Keys;
      var todo := mappings.Keys;
      while todo != {}
        invariant todo <= mappings.Keys
        invariant existing == old(models).Keys - (mappings.Keys - todo)
        invariant forall id :: id in mappings && id !in todo ==>
          At(id) == Reloaded(old(At(id)), id, Some(mappings[id]), now)
        invariant forall id :: id !in mappings || id in todo ==> At(id) == old(At(id))
        invariant added == mappings.Keys - todo - old(models).Keys
        invariant updated == set id | id in old(models) && id in mappings && id !in todo
                                      && old(models)[id].config != mappings[id]
        decreases todo
      {
        var id :| id in todo;
        assert At(id) == old(At(id));
        var isNew, isChanged := LoadOne(id, mappings[id], now);
        existing := existing - {id};
        if isNew {
          added := added + {id};
        }
        if isChanged {
          updated := updated + {id};
        }
        todo := todo - {id};
      }
      forall id | id !in mappings && id !in old(models)
        ensures Reloaded(old(At(id)), id, None, now) == old(At(id))
      {
        Unlisted(old(At(id)), id, now);
      }
      removed := existing;
      while existing != {}
        invariant existing <= removed
        invariant forall id :: id in existing ==> At(id) == old(At(id))
        invariant forall id :: id !in existing ==>
          At(id) == Reloaded(old(At(id)), id, Lookup(mappings, id), now)
        decreases existing
      {
        var id :| id in existing;
        Unlisted(old(At(id)), id, now);
        Remove(id);
        existing := existing - {id};
      }
      forall id
        ensures RecordAfter(Lookup(old(models), id), Lookup(models, id), id, Lookup(mappings, id), now)
      {
        ReloadedRecord(old(At(id)), id, Lookup(mappings, id), now);
        assert At(id).model == Lookup(models, id);
      }
    }

    /** One iteration of the first loop of loadConfig. */
    method LoadOne(id: string, mapping: ModelMapping, now: int) returns (isNew: bool, isChanged: bool)
      modifies this, checker
      ensures At(id) == Reloaded(old(At(id)), id, Some(mapping), now)
      ensures forall other :: other != id ==> At(other) == old(At(other))
      ensures RecordAfter(Lookup(old(models), id), Lookup(models, id), id, Some(mapping), now)
      ensures isNew <==> id !in old(models)
      ensures isChanged <==> id in old(models) && old(models)[id].config != mapping
    {
      isNew, isChanged := id !in models, false;
      if isNew {
        models := models[id := NewModel(id, mapping, now)];
        checker.RegisterModel(id, mapping.endpoint, mapping.apiKey);
      } else if models[id].config != mapping {
        isChanged := true;
        models := models[id := models[id].(config := mapping, updatedAt := now)];
        checker.RegisterModel(id, mapping.endpoint, mapping.apiKey);
      }
    }

    /** One iteration of the second loop of loadConfig. */
    method Remove(id: string)
      modifies this, checker
      ensures At(id) == NO_ENTRY
      ensures forall other :: other != id ==> At(other) == old(At(other))
    {
      checker.UnregisterModel(id);
      models := models - {id};
    }

    /** The health of the enabled models. */
    method GetAllModelHealthMap() returns (healths: map<string, Health>)
      ensures healths == map id | id in models && models[id].enabled :: models[id].health
    {
      healths := map[];
      var todo := models.Keys;
      while todo != {}
        invariant todo <= models.Keys
        invariant healths == map id | id in models && id !in todo && models[id].enabled :: models[id].health
        decreases todo
      {
        var id :| id in todo;
        if models[id].enabled {
          healths := healths[id := models[id].health];
        }
        todo := todo - {id};
      }
    }

    /** A report about a model that is gone is dropped. Otherwise the two callbacks are started with
        the model's record and the health of all enabled models. */
    method OnHealthStatusChange(id: string, newHealth: Health, now: int)
      returns (updated: Option<RegisteredModel>, healths: map<string, Health>)
      modifies this
      ensures At(id) == Reported(old(At(id)), newHealth, now)
      ensures forall other :: other != id ==> At(other) == old(At(other))
      ensures updated == At(id).model == Lookup(models, id) && (updated.Some? <==> id in old(models))
      ensures id in old(models) ==>
        && models[id] == old(models)[id].(health := newHealth, updatedAt := now, state := models[id].state)
        && (newHealth == Unhealthy ==> models[id].state == Unavailable)
        && (newHealth == Healthy && old(models)[id].state != Disabled ==> models[id].state == Ready)
        && (newHealth != Unhealthy && (newHealth != Healthy || old(models)[id].state == Disabled) ==>
              models[id].state == old(models)[id].state)
      ensures updated.Some? ==>
        healths == map other | other in models && models[other].enabled :: models[other].health
    {
      if id !in models {
        return None, map[];
      }
      var model := models[id].(health := newHealth, updatedAt := now);
      match newHealth {
        case Healthy =>
          if model.state == Loading || model.state == Unavailable {
            model := model.(state := Ready);
          }
        case Unhealthy =>
          model := model.(state := Unavailable);
        case Unknown =>
        case Degraded =>
      }
      models := models[id := model];
      updated := Some(model);
      healths := GetAllModelHealthMap();
    }

    method EnableModel(id: string, now: int) returns (found: bool)
      modifies this
      ensures found <==> id in old(models)
      ensures At(id) == SwitchedOn(old(At(id)), now)
      ensures found ==> Lookup(models, id) == Some(old(models)[id].(enabled := true, updatedAt := now))
      ensures forall other :: other != id ==> At(other) == old(At(other))
    {
      found := id in models;
      if found {
        models := models[id := models[id].(enabled := true, updatedAt := now)];
      }
    }

    method DisableModel(id: string, now: int) returns (found: bool)
      modifies this
      ensures found <==> id in old(models)
      ensures At(id) == SwitchedOff(old(At(id)), now)
      ensures found ==>
        Lookup(models, id) == Some(old(models)[id].(enabled := false, state := Disabled, updatedAt := now))
      ensures forall other :: other != id ==> At(other) == old(At(other))
    {
      found := id in models;
      if found {
        models := models[id := models[id].(enabled := false, state := Disabled, updatedAt := now)];
      }
    }

    method GetModelEndpoint(id: string) returns (endpoint: Option<string>)
      ensures endpoint.Some? <==>
        id in models && models[id].enabled && (models[id].health != Unhealthy || models[id].state != Unavailable)
      ensures endpoint.Some? ==> Serves(models[id]) && endpoint == Some(models[id].config.endpoint)
    {
      if id !in models || !models[id].enabled {
        return None;
      }
      if models[id].health == Unhealthy && models[id].state == Unavailable {
        return None;
      }
      return Some(models[id].config.endpoint);
    }

    /** The ready models, each once, in any order. That the records carry their own names is part
        of `Agrees` below. */
    method GetReadyModels() returns (ready: seq<RegisteredModel>)
      requires forall id :: id in models ==> models[id].id == id
      ensures forall m :: m in ready <==>
        && m.id in models && models[m.id] == m
        && m.enabled && (m.state == Ready || m.health == Healthy || m.health == Degraded)
      ensures forall i, j :: 0 <= i < j < |ready| ==> ready[i].id != ready[j].id
    {
      ready := [];
      var todo := models.Keys;
      while todo != {}
        invariant todo <= models.Keys
        invariant forall m :: m in ready <==> m.id in models && m.id !in todo && models[m.id] == m && IsReady(m)
        invariant forall i, j :: 0 <= i < j < |ready| ==> ready[i].id != ready[j].id
        decreases todo
      {
        var id :| id in todo;
        if IsReady(models[id]) {
          assert forall i :: 0 <= i < |ready| ==> ready[i] in ready;
          ready := ready + [models[id]];
        }
        todo := todo - {id};
      }
    }
  }

  // ---------- Runs: one model's entry ----------

  datatype Event =
    | Load(mapping: Option<ModelMapping>, now: int)
    | Probe(endpoint: string, probe: Probe)
    | Report(health: Health, now: int)
    | Enable(now: int)
    | Disable(now: int)

  function Step(threshold: int, id: string, e: Entry, event: Event): Entry {
    match event
    case Load(mapping, now) => Reloaded(e, id, mapping, now)
    case Probe(endpoint, probe) => ProbedEntry(threshold, e, endpoint, probe)
    case Report(health, now) => Reported(e, health, now)
    case Enable(now) => SwitchedOn(e, now)
    case Disable(now) => SwitchedOff(e, now)
  }

  function Run(threshold: int, id: string, start: Entry, events: seq<Event>): Entry {
    if events == [] then start
    else Step(threshold, id, Run(threshold, id, start, events[..|events| - 1]), events[|events| - 1])
  }

  /** What the last load said about the model. */
  function LastLoaded(events: seq<Event>): Option<ModelMapping> {
    if events == [] then None
    else
      var last := events[|events| - 1];
      if last.Load? then last.mapping else LastLoaded(events[..|events| - 1])
  }

  /** Registry and checker agree with the configuration and so with each other. */
  predicate Agrees(e: Entry, id: string, config: Option<ModelMapping>) {
    match config
    case None => e.model.None? && e.endpoint.None? && e.apiKey.None?
    case Some(m) =>
      && e.model.Some? && e.model.value.id == id && e.model.value.config == m
      && e.endpoint == Some(m.endpoint)
      && e.apiKey == (if m.apiKey == "" then None else Some(m.apiKey))
      && e.status.Some? && e.status.value.endpoint == m.endpoint
  }

  /** Whatever loads, probes, reports and switches come in whatever order, late ones included, the
      registry and the checker hold what the last load said. */
  lemma {:induction false} EveryRunAgrees(threshold: int, id: string, events: seq<Event>)
    ensures Agrees(Run(threshold, id, NO_ENTRY, events), id, LastLoaded(events))
  {
    if events != [] {
      EveryRunAgrees(threshold, id, events[..|events| - 1]);
    }
  }

  /** Loading the same configuration again changes nothing. */
  lemma ReloadIsIdle(e: Entry, id: string, mapping: Option<ModelMapping>, now: int, later: int)
    ensures Reloaded(Reloaded(e, id, mapping, now), id, mapping, later) == Reloaded(e, id, mapping, now)
  {
  }

  predicate AllKeep(events: seq<Event>) {
    forall i :: 0 <= i < |events| ==> events[i].Load? && events[i].mapping.Some?
  }

  /** A model named by every load of a run keeps its state, health, switch and load time, and its
      record at the checker but for the endpoint. */
  lemma {:induction false} SurvivorsKeep(threshold: int, id: string, e: Entry, events: seq<Event>)
    requires e.model.Some? && e.status.Some?
    requires AllKeep(events)
    ensures var after := Run(threshold, id, e, events);
      && after.model.Some? && after.status.Some?
      && after.model.value == e.model.value.(config := after.model.value.config,
                                             updatedAt := after.model.value.updatedAt)
      && after.status.value == e.status.value.(endpoint := after.status.value.endpoint)
  {
    if events != [] {
      var before := events[..|events| - 1];
      assert forall i :: 0 <= i < |before| ==> before[i] == events[i];
      SurvivorsKeep(threshold, id, e, before);
    }
  }

  // ---------- Which models are sent requests ----------

  /** The model is added by the first event and stays. */
  predicate Life(events: seq<Event>) {
    && events != [] && events[0].Load?
    && forall i :: 0 <= i < |events| && events[i].Load? ==> events[i].mapping.Some?
  }

  predicate DisabledUntil(events: seq<Event>, i: int) {
    && 0 <= i < |events| && events[i].Disable?
    && forall j :: i < j < |events| ==> !(events[j].Report? && events[j].health == Unhealthy)
  }

  /** Disabled at some point and not reported unhealthy after it. */
  ghost predicate DisabledLately(events: seq<Event>) {
    exists i :: DisabledUntil(events, i)
  }

  lemma DisabledLatelyStep(events: seq<Event>)
    requires events != []
    ensures var last := events[|events| - 1];
      DisabledLately(events) <==>
      last.Disable? || (DisabledLately(events[..|events| - 1]) && !(last.Report? && last.health == Unhealthy))
  {
    var before, last := events[..|events| - 1], events[|events| - 1];
    if last.Disable? {
      assert DisabledUntil(events, |events| - 1);
    }
    if DisabledLately(before) && !(last.Report? && last.health == Unhealthy) {
      var i :| DisabledUntil(before, i);
      assert DisabledUntil(events, i);
    }
    if DisabledLately(events) && !last.Disable? {
      var i :| DisabledUntil(events, i);
      assert DisabledUntil(before, i);
    }
  }

  lemma {:induction false} StateTells(threshold: int, id: string, e: Entry, events: seq<Event>)
    requires e.model.None? && Life(events)
    ensures var after := Run(threshold, id, e, events);
      && after.model.Some?
      && (after.model.value.state == Disabled <==> DisabledLately(events))
      && (after.model.value.health == Unhealthy ==> after.model.value.state in {Unavailable, Disabled})
    decreases |events|
  {
    DisabledLatelyStep(events);
    var before := events[..|events| - 1];
    if before == [] {
      assert !DisabledLately(before);
      assert Run(threshold, id, e, before) == e;
    } else {
      assert forall i :: 0 <= i < |before| ==> before[i] == events[i];
      StateTells(threshold, id, e, before);
    }
  }

  /** A model last reported unhealthy is refused, as the endpoint lookup means to do, except that
      one disabled after that report and enabled again is sent requests: enabling does not undo
      what disabling did to the state. */
  lemma UnhealthyIsServedIff(threshold: int, id: string, e: Entry, events: seq<Event>)
    requires e.model.None? && Life(events)
    requires Run(threshold, id, e, events).model.Some?
    requires Run(threshold, id, e, events).model.value.health == Unhealthy
    ensures Serves(Run(threshold, id, e, events).model.value) <==>
            Run(threshold, id, e, events).model.value.enabled && DisabledLately(events)
  {
    StateTells(threshold, id, e, events);
  }

  lemma UnhealthyIsServed(threshold: int, id: string, m: ModelMapping)
    ensures var events := [Load(Some(m), 0), Report(Unhealthy, 1), Disable(2), Enable(3)];
      var model := Run(threshold, id, NO_ENTRY, events).model;
      Life(events) && model.Some? && model.value.health == Unhealthy && Serves(model.value)
  {
    var add, report, disable, enable := Load(Some(m), 0), Report(Unhealthy, 1), Disable(2), Enable(3);
    assert [add][..0] == [];
    assert [add, report][..1] == [add];
    assert [add, report, disable][..2] == [add, report];
    assert [add, report, disable, enable][..3] == [add, report, disable];
    assert Run(threshold, id, NO_ENTRY, [add]).model == Some(NewModel(id, m, 0));
    assert Run(threshold, id, NO_ENTRY, [add, report]).model.value.state == Unavailable;
    assert Run(threshold, id, NO_ENTRY, [add, report, disable]).model.value.health == Unhealthy;
  }

  // ---------- Status changes on their way to the registry ----------

  /** An entry; the status changes whose callbacks have been started and have not run yet; the probes
      since the checker has known the model; the checker's health when the model was last added; and
      since then the status changes in the order they happened and in the order the registry was
      told. */
  datatype System = System(
    entry: Entry, pending: seq<Health>, history: seq<Probe>, base: Health, happened: seq<Health>, told: seq<Health>)

  datatype Action =
    | Configure(mapping: Option<ModelMapping>, now: int)
    | Check(endpoint: string, probe: Probe)
    | Deliver(i: nat, now: int)   // callbacks are goroutines: any one that is pending may run next
    | Switch(on: bool, now: int)

  predicate Adds(s: System, action: Action) {
    s.entry.model.None? && action.Configure? && action.mapping.Some?
  }

  function Act(threshold: int, id: string, s: System, action: Action): System {
    match action
    case Configure(mapping, now) =>
      s.(entry := Reloaded(s.entry, id, mapping, now),
         history := if s.entry.model.Some? && mapping.None? then [] else s.history,
         base := if Adds(s, action) then StatusOr(s.entry, "").health else s.base,
         happened := if Adds(s, action) then [] else s.happened,
         told := if Adds(s, action) then [] else s.told)
    case Check(endpoint, probe) =>
      var after := ProbedEntry(threshold, s.entry, endpoint, probe);
      var changes := if StatusOr(s.entry, endpoint).health == after.status.value.health then []
                     else [after.status.value.health];
      s.(entry := after, history := s.history + [probe], pending := s.pending + changes,
         happened := s.happened + changes)
    case Deliver(i, now) =>
      if i >= |s.pending| then s
      else s.(entry := Reported(s.entry, s.pending[i], now), pending := s.pending[..i] + s.pending[i + 1..],
              told := s.told + [s.pending[i]])
    case Switch(on, now) =>
      s.(entry := if on then SwitchedOn(s.entry, now) else SwitchedOff(s.entry, now))
  }

  const START := System(NO_ENTRY, [], [], Unknown, [], [])

  function ActAll(threshold: int, id: string, actions: seq<Action>): System {
    if actions == [] then START
    else Act(threshold, id, ActAll(threshold, id, actions[..|actions| - 1]), actions[|actions| - 1])
  }

  /** An action as an event of the model's entry: a delivery is the report that it delivers, if any. */
  function EventOf(s: System, action: Action): seq<Event> {
    match action
    case Configure(mapping, now) => [Load(mapping, now)]
    case Check(endpoint, probe) => [Probe(endpoint, probe)]
    case Deliver(i, now) => if i < |s.pending| then [Report(s.pending[i], now)] else []
    case Switch(on, now) => [if on then Enable(now) else Disable(now)]
  }

  function EventsOf(threshold: int, id: string, actions: seq<Action>): seq<Event> {
    if actions == [] then []
    else
      var before := actions[..|actions| - 1];
      EventsOf(threshold, id, before) + EventOf(ActAll(threshold, id, before), actions[|actions| - 1])
  }

  lemma ActIsRun(threshold: int, id: string, s: System, action: Action)
    ensures |EventOf(s, action)| <= 1
    ensures Act(threshold, id, s, action).entry == Run(threshold, id, s.entry, EventOf(s, action))
  {
    hide Reloaded, ProbedEntry, Reported;
    var events := EventOf(s, action);
    if events != [] {
      assert events[..|events| - 1] == [];
    }
  }

  lemma RunGoesOn(threshold: int, id: string, e: Entry, events: seq<Event>, more: seq<Event>)
    requires |more| <= 1
    ensures Run(threshold, id, e, events + more) == Run(threshold, id, Run(threshold, id, e, events), more)
  {
    hide Step;
    if more == [] {
      assert events + more == events;
    } else {
      assert (events + more)[..|events|] == events && more[..0] == [];
    }
  }

  /** The entry goes through the run of these events, so that what holds over those runs holds here. */
  lemma {:induction false} SystemIsRun(threshold: int, id: string, actions: seq<Action>)
    ensures ActAll(threshold, id, actions).entry == Run(threshold, id, NO_ENTRY, EventsOf(threshold, id, actions))
  {
    hide Run, Act, EventOf;
    if actions != [] {
      var n := |actions| - 1;
      var before := ActAll(threshold, id, actions[..n]);
      SystemIsRun(threshold, id, actions[..n]);
      ActIsRun(threshold, id, before, actions[n]);
      RunGoesOn(threshold, id, NO_ENTRY, EventsOf(threshold, id, actions[..n]), EventOf(before, actions[n]));
    } else {
      assert Run(threshold, id, NO_ENTRY, []) == NO_ENTRY by {
        NoEvents(threshold, id);
      }
    }
  }

  lemma NoEvents(threshold: int, id: string)
    ensures Run(threshold, id, NO_ENTRY, []) == NO_ENTRY
  {
  }

  /** The last of some status changes that start from a health. */
  function Newest(base: Health, changes: seq<Health>): Health {
    if changes == [] then base else changes[|changes| - 1]
  }

  /** The checker shows the last change that happened, the registry the last it was told; they
      start from what the checker held, and from Unknown, when the model was added. */
  predicate Tracks(s: System) {
    s.entry.model.Some? ==>
      && s.entry.status.Some?
      && s.entry.status.value.health == Newest(s.base, s.happened)
      && s.entry.model.value.health == Newest(Unknown, s.told)
  }

  lemma ActTracks(threshold: int, id: string, s: System, action: Action)
    requires Tracks(s)
    ensures Tracks(Act(threshold, id, s, action))
  {
    hide Probed;
  }

  lemma {:induction false} EveryRunTracks(threshold: int, id: string, actions: seq<Action>)
    ensures Tracks(ActAll(threshold, id, actions))
  {
    if actions != [] {
      hide Tracks, Act;
      var n := |actions| - 1;
      EveryRunTracks(threshold, id, actions[..n]);
      ActTracks(threshold, id, ActAll(threshold, id, actions[..n]), actions[n]);
    }
  }

  /** In every run, in whatever order the callbacks run and whatever a removed model has left behind:
      the registry's health is the checker's if and only if the change that the registry was told
      last, or Unknown, is the newest that happened, or what the checker held when the model was
      added. */
  lemma RegistryMatchesIff(threshold: int, id: string, actions: seq<Action>)
    ensures var s := ActAll(threshold, id, actions);
      s.entry.model.Some? ==>
        && s.entry.status.Some?
        && (s.entry.model.value.health == s.entry.status.value.health <==>
              Newest(Unknown, s.told) == Newest(s.base, s.happened))
  {
    hide ActAll;
    EveryRunTracks(threshold, id, actions);
  }

  /** Models are only ever added when the checker has no record of them and no report about an
      earlier model of that name is on its way. */
  predicate AddsAreFresh(threshold: int, id: string, actions: seq<Action>) {
    forall i :: 0 <= i < |actions| ==>
      var s := ActAll(threshold, id, actions[..i]);
      Adds(s, actions[i]) ==> s.entry.status.None? && s.pending == []
  }

  lemma FreshPrefix(threshold: int, id: string, actions: seq<Action>, n: nat)
    requires n <= |actions| && AddsAreFresh(threshold, id, actions)
    ensures AddsAreFresh(threshold, id, actions[..n])
  {
    hide ActAll, Adds;
    forall i | 0 <= i < n
      ensures var s := ActAll(threshold, id, actions[..n][..i]);
        Adds(s, actions[..n][i]) ==> s.entry.status.None? && s.pending == []
    {
      assert actions[..n][..i] == actions[..i];
    }
  }

  predicate InOrder(actions: seq<Action>) {
    forall i :: 0 <= i < |actions| && actions[i].Deliver? ==> actions[i].i == 0
  }

  lemma {:induction false} InOrderQueue(threshold: int, id: string, actions: seq<Action>)
    requires AddsAreFresh(threshold, id, actions) && InOrder(actions)
    ensures var s := ActAll(threshold, id, actions); s.happened == s.told + s.pending && s.base == Unknown
  {
    if actions != [] {
      var n := |actions| - 1;
      FreshPrefix(threshold, id, actions, n);
      InOrderQueue(threshold, id, actions[..n]);
      ActInOrder(threshold, id, ActAll(threshold, id, actions[..n]), actions[n]);
    }
  }

  lemma ActInOrder(threshold: int, id: string, s: System, action: Action)
    requires s.happened == s.told + s.pending && s.base == Unknown && (action.Deliver? ==> action.i == 0)
    requires Adds(s, action) ==> s.entry.status.None? && s.pending == []
    ensures var t := Act(threshold, id, s, action); t.happened == t.told + t.pending && t.base == Unknown
  {
    hide Probed, Reloaded, Reported;
    if action.Check? {
      var t := Act(threshold, id, s, action);
      var changes := t.pending[|s.pending|..];
      assert t.pending == s.pending + changes;
      assert s.told + (s.pending + changes) == (s.told + s.pending) + changes;
    }
  }

  /** Where adds are fresh, callbacks that run in the order they were started never leave the
      registry behind. */
  lemma RegistryFollows(threshold: int, id: string, actions: seq<Action>)
    requires AddsAreFresh(threshold, id, actions) && InOrder(actions)
    ensures var s := ActAll(threshold, id, actions);
      s.entry.model.Some? && s.pending == [] ==>
        && s.entry.status.Some? && s.entry.model.value.health == s.entry.status.value.health
        && s.entry.model.value.health == HealthOf(threshold, s.history)
  {
    hide ActAll, AddsAreFresh, InOrder;
    RegistryMatchesIff(threshold, id, actions);
    RegistryShowsTheHistoryIff(threshold, id, actions);
    InOrderQueue(threshold, id, actions);
    var s := ActAll(threshold, id, actions);
    assert s.pending == [] ==> s.happened == s.told;
  }

  lemma {:induction false} EndpointIsApart(threshold: int, endpoint: string, other: string, h: seq<Probe>)
    ensures After(threshold, endpoint, h).(endpoint := other) == After(threshold, other, h)
  {
    if h != [] {
      EndpointIsApart(threshold, endpoint, other, h[..|h| - 1]);
    }
  }

  predicate Recorded(threshold: int, s: System) {
    && (s.entry.model.Some? ==> s.entry.status.Some?)
    && (s.entry.status.None? ==> s.history == [])
    && (s.entry.status.Some? ==>
          s.entry.status.value == After(threshold, s.entry.status.value.endpoint, s.history))
  }

  lemma NothingProbed(threshold: int, endpoint: string)
    ensures After(threshold, endpoint, []) == NewStatus(endpoint)
  {
  }

  lemma ProbedKeepsEndpoint(threshold: int, s: Status, probe: Probe)
    ensures Probed(threshold, s, probe).endpoint == s.endpoint
  {
  }

  lemma ActRecords(threshold: int, id: string, s: System, action: Action)
    requires Recorded(threshold, s)
    ensures Recorded(threshold, Act(threshold, id, s, action))
  {
    match action {
      case Configure(mapping, now) =>
        hide Probed, After;
        if mapping.Some? && s.entry.status.Some? {
          EndpointIsApart(threshold, s.entry.status.value.endpoint, mapping.value.endpoint, s.history);
        }
        if mapping.Some? {
          NothingProbed(threshold, mapping.value.endpoint);
        }
      case Check(endpoint, probe) =>
        hide Probed;
        if s.entry.status.None? {
          NothingProbed(threshold, endpoint);
        }
        ProbedKeepsEndpoint(threshold, StatusOr(s.entry, endpoint), probe);
        assert (s.history + [probe])[..|s.history|] == s.history;
      case Deliver(i, now) =>
      case Switch(on, now) =>
    }
  }

  /** Whatever is done, the checker's record is what the probes since it was made say. */
  lemma {:induction false} CheckerFollows(threshold: int, id: string, actions: seq<Action>)
    ensures Recorded(threshold, ActAll(threshold, id, actions))
  {
    if actions != [] {
      hide Recorded, Act;
      var n := |actions| - 1;
      CheckerFollows(threshold, id, actions[..n]);
      ActRecords(threshold, id, ActAll(threshold, id, actions[..n]), actions[n]);
    }
  }

  /** So in every run the registry shows the closed form of the probe history under exactly that
      condition. */
  lemma RegistryShowsTheHistoryIff(threshold: int, id: string, actions: seq<Action>)
    ensures var s := ActAll(threshold, id, actions);
      s.entry.model.Some? ==>
        (s.entry.model.value.health == HealthOf(threshold, s.history) <==>
           Newest(Unknown, s.told) == Newest(s.base, s.happened))
  {
    hide ActAll;
    RegistryMatchesIff(threshold, id, actions);
    CheckerFollows(threshold, id, actions);
    var s := ActAll(threshold, id, actions);
    if s.entry.status.Some? {
      HealthIsClosedForm(threshold, s.entry.status.value.endpoint, s.history);
    }
  }

  /** With nothing pending, a load that adds a model leaves it in sync exactly when the checker
      has no record of it or a record that never left Unknown. */
  lemma QuietAddIff(threshold: int, id: string, s: System, m: ModelMapping, now: int)
    requires s.entry.model.None? && s.pending == []
    ensures var e := Act(threshold, id, s, Configure(Some(m), now)).entry;
      && e.model.Some? && e.status.Some?
      && (e.model.value.health == e.status.value.health <==>
            s.entry.status.None? || s.entry.status.value.health == Unknown)
  {
  }

  // ---------- Two runs that end out of step ----------

  lemma OneMore(threshold: int, id: string, actions: seq<Action>, action: Action)
    ensures ActAll(threshold, id, actions + [action]) == Act(threshold, id, ActAll(threshold, id, actions), action)
  {
    assert (actions + [action])[..|actions|] == actions;
  }

  /** The registry holds `shown`, the checker has the model healthy, and nothing is on its way. */
  predicate StuckAt(s: System, shown: Health) {
    && s.entry.model.Some? && s.entry.status.Some? && s.pending == []
    && s.entry.model.value.health == shown && s.entry.status.value.health == Healthy
  }

  function Successes(m: ModelMapping, count: nat): (actions: seq<Action>)
    ensures |actions| == count
  {
    seq(count, _ => Check(m.endpoint, Succeeded(0, 0)))
  }

  lemma OneMoreSuccess(actions: seq<Action>, m: ModelMapping, count: nat)
    ensures actions + Successes(m, count + 1) == actions + Successes(m, count) + [Check(m.endpoint, Succeeded(0, 0))]
  {
  }

  lemma SuccessChangesNothing(threshold: int, id: string, s: System, m: ModelMapping, shown: Health)
    requires StuckAt(s, shown)
    ensures StuckAt(Act(threshold, id, s, Check(m.endpoint, Succeeded(0, 0))), shown)
  {
  }

  lemma {:induction false} SuccessesChangeNothing(threshold: int, id: string, actions: seq<Action>, m: ModelMapping,
                                                  shown: Health, more: nat)
    requires StuckAt(ActAll(threshold, id, actions), shown)
    ensures StuckAt(ActAll(threshold, id, actions + Successes(m, more)), shown)
    decreases more
  {
    if more == 0 {
      assert actions + Successes(m, 0) == actions;
    } else {
      hide ActAll, StuckAt, Act, Successes;
      SuccessesChangeNothing(threshold, id, actions, m, shown, more - 1);
      SuccessChangesNothing(threshold, id, ActAll(threshold, id, actions + Successes(m, more - 1)), m, shown);
      OneMore(threshold, id, actions + Successes(m, more - 1), Check(m.endpoint, Succeeded(0, 0)));
      OneMoreSuccess(actions, m, more - 1);
    }
  }

  function LateProbe(m: ModelMapping): seq<Action> {
    [Configure(Some(m), 0)] + [Configure(None, 1)] + [Check(m.endpoint, Succeeded(2, 2))] + [Deliver(0, 2)]
      + [Configure(Some(m), 3)]
  }

  /** A probe that ends after its model was removed leaves a record behind. Added again, the model
      shows Unknown while the checker holds it healthy, and further successes report no change. */
  lemma LateProbeIsNeverReported(threshold: int, id: string, m: ModelMapping, more: nat)
    ensures StuckAt(ActAll(threshold, id, LateProbe(m) + Successes(m, more)), Unknown)
  {
    var add, remove, probe := [Configure(Some(m), 0)], [Configure(None, 1)], [Check(m.endpoint, Succeeded(2, 2))];
    assert LateProbe(m) == add + remove + probe + [Deliver(0, 2)] + [Configure(Some(m), 3)];
    OneMore(threshold, id, [], add[0]);
    assert [] + add == add;
    OneMore(threshold, id, add, remove[0]);
    OneMore(threshold, id, add + remove, probe[0]);
    OneMore(threshold, id, add + remove + probe, Deliver(0, 2));
    OneMore(threshold, id, add + remove + probe + [Deliver(0, 2)], Configure(Some(m), 3));
    hide ActAll;
    SuccessesChangeNothing(threshold, id, LateProbe(m), m, Unknown, more);
  }

  function UpDownUp(m: ModelMapping): seq<Action> {
    [Configure(Some(m), 0)] + [Check(m.endpoint, Succeeded(1, 1))] + [Check(m.endpoint, Failed(2, "down"))]
      + [Check(m.endpoint, Succeeded(3, 3))]
  }

  function Overtaken(m: ModelMapping): seq<Action> {
    UpDownUp(m) + [Deliver(0, 4)] + [Deliver(1, 4)] + [Deliver(0, 4)]
  }

  lemma OvertakenIsFresh(threshold: int, id: string, m: ModelMapping)
    ensures AddsAreFresh(threshold, id, Overtaken(m))
  {
    hide Act;
    var actions := Overtaken(m);
    assert forall i :: 0 < i < |actions| ==> !actions[i].Configure?;
    assert actions[..0] == [];
  }

  /** A failure between two successes: the callback of the second success overtakes that of the
      failure. The registry then shows the failure, and further successes report no change. */
  lemma OvertakenReportSticks(threshold: int, id: string, m: ModelMapping, more: nat)
    ensures AddsAreFresh(threshold, id, Overtaken(m))
    ensures exists shown ::
      shown != Healthy && StuckAt(ActAll(threshold, id, Overtaken(m) + Successes(m, more)), shown)
  {
    OvertakenIsFresh(threshold, id, m);
    var shown := OvertakenEnds(threshold, id, m);
    hide ActAll, Overtaken, AddsAreFresh;
    SuccessesChangeNothing(threshold, id, Overtaken(m), m, shown, more);
  }

  /** The model is known on both sides, the checker has it at `health`, and `pending` is on its way. */
  predicate KnownAt(s: System, health: Health, pending: seq<Health>) {
    && s.entry.model.Some? && s.entry.status.Some? && s.entry.status.value.health == health
    && s.pending == pending
  }

  lemma SuccessIsReported(threshold: int, id: string, s: System, m: ModelMapping, at: int)
    requires s.entry.status.Some? && s.entry.status.value.health != Healthy
    requires KnownAt(s, s.entry.status.value.health, s.pending)
    ensures KnownAt(Act(threshold, id, s, Check(m.endpoint, Succeeded(at, at))), Healthy, s.pending + [Healthy])
  {
  }

  lemma FailureIsReported(threshold: int, id: string, s: System, m: ModelMapping, at: int)
    returns (shown: Health)
    requires KnownAt(s, Healthy, s.pending)
    ensures shown in {Degraded, Unhealthy}
    ensures KnownAt(Act(threshold, id, s, Check(m.endpoint, Failed(at, "down"))), shown, s.pending + [shown])
  {
    shown := Act(threshold, id, s, Check(m.endpoint, Failed(at, "down"))).entry.status.value.health;
  }

  lemma FourActs(threshold: int, id: string, a: Action, b: Action, c: Action, d: Action)
    ensures ActAll(threshold, id, [a] + [b] + [c] + [d]) ==
            Act(threshold, id, Act(threshold, id, Act(threshold, id, Act(threshold, id, START, a), b), c), d)
  {
    hide Act;
    assert [] + [a] == [a];
    OneMore(threshold, id, [], a);
    OneMore(threshold, id, [a], b);
    OneMore(threshold, id, [a] + [b], c);
    OneMore(threshold, id, [a] + [b] + [c], d);
  }

  lemma AddedUnknown(threshold: int, id: string, m: ModelMapping)
    ensures KnownAt(Act(threshold, id, START, Configure(Some(m), 0)), Unknown, [])
  {
  }

  lemma OvertakenProbes(threshold: int, id: string, m: ModelMapping) returns (shown: Health)
    ensures shown in {Degraded, Unhealthy}
    ensures KnownAt(ActAll(threshold, id, UpDownUp(m)), Healthy, [Healthy, shown, Healthy])
  {
    hide ActAll, Act;
    var good, bad, again := Check(m.endpoint, Succeeded(1, 1)), Check(m.endpoint, Failed(2, "down")),
        Check(m.endpoint, Succeeded(3, 3));
    var s1 := Act(threshold, id, START, Configure(Some(m), 0));
    var s2 := Act(threshold, id, s1, good);
    var s3 := Act(threshold, id, s2, bad);
    AddedUnknown(threshold, id, m);
    SuccessIsReported(threshold, id, s1, m, 1);
    shown := FailureIsReported(threshold, id, s2, m, 2);
    SuccessIsReported(threshold, id, s3, m, 3);
    FourActs(threshold, id, Configure(Some(m), 0), good, bad, again);
  }

  lemma OvertakenEnds(threshold: int, id: string, m: ModelMapping) returns (shown: Health)
    ensures shown != Healthy && StuckAt(ActAll(threshold, id, Overtaken(m)), shown)
  {
    var run := UpDownUp(m);
    shown := OvertakenProbes(threshold, id, m);
    hide ActAll, UpDownUp;
    OneMore(threshold, id, run, Deliver(0, 4));
    OneMore(threshold, id, run + [Deliver(0, 4)], Deliver(1, 4));
    OneMore(threshold, id, run + [Deliver(0, 4)] + [Deliver(1, 4)], Deliver(0, 4));
    assert Overtaken(m) == run + [Deliver(0, 4)] + [Deliver(1, 4)] + [Deliver(0, 4)];
    assert ActAll(threshold, id, run + [Deliver(0, 4)]).pending == [shown, Healthy];
    assert ActAll(threshold, id, run + [Deliver(0, 4)] + [Deliver(1, 4)]).pending == [shown];
  }
}
