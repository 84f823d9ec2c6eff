/** What loads, reports and switches have made of a model since it was added, told from the events
    alone. */
module ModelLife {

  import opened Common
  import opened HealthChecker
  import opened ModelRegistry

  /** There was an event of the first kind, and none of the second kind after it. */
  ghost predicate Stands(events: seq<Event>, sets: Event -> bool, undoes: Event -> bool) {
    exists i :: 0 <= i < |events| && sets(events[i]) && forall j :: i < j < |events| ==> !undoes(events[j])
  }

  lemma StandsStep(events: seq<Event>, sets: Event -> bool, undoes: Event -> bool)
    requires events != []
    ensures var last := events[|events| - 1];
      Stands(events, sets, undoes) <==>
      sets(last) || (Stands(events[..|events| - 1], sets, undoes) && !undoes(last))
  {
    var n := |events| - 1;
    var before := events[..n];
    assert forall i :: 0 <= i < n ==> before[i] == events[i];
    if Stands(events, sets, undoes) && !sets(events[n]) {
      var i :| 0 <= i < |events| && sets(events[i]) && forall j :: i < j < |events| ==> !undoes(events[j]);
      assert sets(before[i]);
    }
    if sets(events[n]) {
      assert Stands(events, sets, undoes);
    } else if Stands(before, sets, undoes) && !undoes(events[n]) {
      var i :| 0 <= i < n && sets(before[i]) && forall j :: i < j < n ==> !undoes(before[j]);
      assert sets(events[i]);
    }
  }

  function Enables(): Event -> bool { (e: Event) => e.Enable? }

  function Disables(): Event -> bool { (e: Event) => e.Disable? }

  function ReportOf(health: Health): Event -> bool { (e: Event) => e.Report? && e.health == health }

  function OtherReport(health: Health): Event -> bool { (e: Event) => e.Report? && e.health != health }

  predicate NeverReported(events: seq<Event>) {
    forall i :: 0 <= i < |events| ==> !events[i].Report?
  }

  /** A model's switch is off exactly when it was disabled and not enabled since. */
  lemma {:induction false} EnabledIff(threshold: int, id: string, e: Entry, events: seq<Event>)
    requires e.model.None? && Life(events)
    ensures var after := Run(threshold, id, e, events).model;
      after.Some? && (after.value.enabled <==> !Stands(events, Disables(), Enables()))
    decreases |events|
  {
    var before := events[..|events| - 1];
    StandsStep(events, Disables(), Enables());
    if before == [] {
      assert Run(threshold, id, e, before) == e;
    } else {
      LifePrefix(events);
      EnabledIff(threshold, id, e, before);
    }
  }

  lemma LifePrefix(events: seq<Event>)
    requires Life(events) && |events| > 1
    ensures Life(events[..|events| - 1])
  {
    var before := events[..|events| - 1];
    assert forall i :: 0 <= i < |before| ==> before[i] == events[i];
  }

  /** Its health is the one reported last, and Unknown before the first report. */
  lemma {:induction false} HealthIsLastReport(threshold: int, id: string, e: Entry, events: seq<Event>, health: Health)
    requires e.model.None? && Life(events)
    ensures var after := Run(threshold, id, e, events).model;
      after.Some? && (after.value.health == health <==>
        Stands(events, ReportOf(health), OtherReport(health)) || (health == Unknown && NeverReported(events)))
    decreases |events|
  {
    var before := events[..|events| - 1];
    StandsStep(events, ReportOf(health), OtherReport(health));
    NeverStep(events);
    if before == [] {
      assert Run(threshold, id, e, before) == e;
    } else {
      LifePrefix(events);
      HealthIsLastReport(threshold, id, e, before, health);
    }
  }

  lemma NeverStep(events: seq<Event>)
    requires events != []
    ensures NeverReported(events) <==> NeverReported(events[..|events| - 1]) && !events[|events| - 1].Report?
  {
    var before := events[..|events| - 1];
    assert forall i :: 0 <= i < |before| ==> before[i] == events[i];
  }

  /** Its state in closed form: disabled until a report of bad health lifts that, otherwise as the last
      report of good or bad health left it, and loading before the first of these. */
  ghost function StateOf(events: seq<Event>): State {
    if Stands(events, Disables(), ReportOf(Unhealthy)) then Disabled
    else if Stands(events, ReportOf(Healthy), ReportOf(Unhealthy)) then Ready
    else if Stands(events, ReportOf(Unhealthy), ReportOf(Healthy)) then Unavailable
    else Loading
  }

  lemma {:induction false} StateIsClosedForm(threshold: int, id: string, e: Entry, events: seq<Event>)
    requires e.model.None? && Life(events)
    ensures var after := Run(threshold, id, e, events).model;
      after.Some? && after.value.state == StateOf(events)
    decreases |events|
  {
    var before, last := events[..|events| - 1], events[|events| - 1];
    StandsStep(events, Disables(), ReportOf(Unhealthy));
    StandsStep(events, ReportOf(Healthy), ReportOf(Unhealthy));
    StandsStep(events, ReportOf(Unhealthy), ReportOf(Healthy));
    if before == [] {
      assert Run(threshold, id, e, before) == e;
    } else {
      LifePrefix(events);
      StateIsClosedForm(threshold, id, e, before);
    }
  }

  /** A model is sent requests exactly if it was not disabled, or enabled since, and, where the last
      report was a bad one, it was disabled after all such reports. */
  lemma ServedIff(threshold: int, id: string, e: Entry, events: seq<Event>)
    requires e.model.None? && Life(events)
    ensures var after := Run(threshold, id, e, events).model;
      after.Some? &&
      (Serves(after.value) <==>
         && !Stands(events, Disables(), Enables())
         && (Stands(events, ReportOf(Unhealthy), OtherReport(Unhealthy)) ==>
               Stands(events, Disables(), ReportOf(Unhealthy))))
  {
    EnabledIff(threshold, id, e, events);
    HealthIsLastReport(threshold, id, e, events, Unhealthy);
    StateIsClosedForm(threshold, id, e, events);
    hide Run;
    LastIsStanding(events);
  }

  /** A report that is the last of all is also the last of good and bad ones. */
  lemma LastIsStanding(events: seq<Event>)
    ensures Stands(events, ReportOf(Unhealthy), OtherReport(Unhealthy)) ==>
      && Stands(events, ReportOf(Unhealthy), ReportOf(Healthy))
      && !Stands(events, ReportOf(Healthy), ReportOf(Unhealthy))
  {
    if Stands(events, ReportOf(Unhealthy), OtherReport(Unhealthy)) {
      var i :| 0 <= i < |events| && ReportOf(Unhealthy)(events[i])
        && forall j :: i < j < |events| ==> !OtherReport(Unhealthy)(events[j]);
      forall j | i < j < |events|
        ensures !ReportOf(Healthy)(events[j])
      {
        assert !OtherReport(Unhealthy)(events[j]);
      }
    }
  }

  /** And it is listed as ready exactly if it was not disabled, or enabled since, and the last report
      was good or that it is degraded, or its state has stayed ready. */
  lemma ReadyIff(threshold: int, id: string, e: Entry, events: seq<Event>)
    requires e.model.None? && Life(events)
    ensures var after := Run(threshold, id, e, events).model;
      after.Some? &&
      (IsReady(after.value) <==>
         && !Stands(events, Disables(), Enables())
         && (StateOf(events) == Ready
             || Stands(events, ReportOf(Healthy), OtherReport(Healthy))
             || Stands(events, ReportOf(Degraded), OtherReport(Degraded))))
  {
    EnabledIff(threshold, id, e, events);
    HealthIsLastReport(threshold, id, e, events, Healthy);
    HealthIsLastReport(threshold, id, e, events, Degraded);
    StateIsClosedForm(threshold, id, e, events);
  }
}
