/** Whether somebody reads from the current connection, or is on the way to: when exactly a run loses
    that, when it regains it, and when it is lost for good. */
module ReconnectCover {

  import opened Common
  import opened ReconnectProtocol
  import opened ReconnectRuns

  /** Reads from the current connection's channel, or is on its way to launch such a reader. */
  predicate Brings(c: Client, x: Proc) {
    || x.Entering? || x.Swapping? || x.RegisterFailed? || WillLaunch(x)
    || ((ReadPump(x) || x.SpawningRead?) && x.done == c.pumpDone)
  }

  ghost predicate Covered(s: State) {
    exists p :: 0 <= p < |s.procs| && Brings(s.c, s.procs[p])
  }

  ghost predicate OthersBring(s: State, p: nat) {
    exists q :: 0 <= q < |s.procs| && q != p && Brings(s.c, s.procs[q])
  }

  /** The last goroutine that could bring a reader gives up: a reconnect finds the guard up, or
      Start cannot connect. */
  ghost predicate Loses(s: State, a: Action) {
    && a.Go? && a.p < |s.procs| && !OthersBring(s, a.p)
    && ((s.procs[a.p].Entering? && s.c.reconnecting) || (s.procs[a.p] == Dialing(Starter) && a.choice == Fail))
  }

  /** The goroutine inside the reconnect body fails to register and starts over. */
  predicate Regains(s: State, a: Action) {
    a.Go? && a.p < |s.procs| && s.procs[a.p].Registering? && a.choice == Fail
  }

  /** What one step does to the goroutine's own part. */
  lemma StepBrings(c: Client, x: Proc, choice: Choice)
    requires ChannelsInv(c) && CanStep(c, x, choice) && !c.stopped
    ensures var o := Step(c, x, choice); var brings := Brings(o.c, o.next) || Brings(o.c, o.launched);
      && (Brings(c, x) ==>
            (brings <==> !((x.Entering? && c.reconnecting) || (x == Dialing(Starter) && choice == Fail))))
      && (!Brings(c, x) ==> (brings <==> (x.Registering? && choice == Fail)))
      && (o.c.pumpDone != c.pumpDone ==> Brings(c, x))
      && ((x.Entering? && c.reconnecting) || (x == Dialing(Starter) && choice == Fail) ==> o.c.pumpDone == c.pumpDone)
  {
    hide HistoryInv;
  }

  lemma CoveredAfterGo(s: State, p: nat, choice: Choice)
    requires Enabled(s, Go(p, choice))
    ensures var t := Apply(s, Go(p, choice)); var o := Step(s.c, s.procs[p], choice);
      && (Brings(o.c, o.next) || Brings(o.c, o.launched) ==> Covered(t))
      && (o.c.pumpDone == s.c.pumpDone && OthersBring(s, p) ==> Covered(t))
      && (o.c.pumpDone == s.c.pumpDone && Covered(t) ==>
            Brings(o.c, o.next) || Brings(o.c, o.launched) || OthersBring(s, p))
  {
    hide Step, CanStep;
    var t := Apply(s, Go(p, choice));
    var o := Step(s.c, s.procs[p], choice);
    assert t.procs[p] == o.next && t.procs[|s.procs|] == o.launched;
    if o.c.pumpDone == s.c.pumpDone {
      if OthersBring(s, p) {
        var q :| 0 <= q < |s.procs| && q != p && Brings(s.c, s.procs[q]);
        assert Brings(t.c, t.procs[q]);
      }
      if Covered(t) {
        var q :| 0 <= q < |t.procs| && Brings(t.c, t.procs[q]);
        assert q < |s.procs| && q != p ==> Brings(s.c, s.procs[q]);
      }
    }
  }

  lemma CoveredSplits(s: State, p: nat)
    requires p < |s.procs|
    ensures Covered(s) <==> Brings(s.c, s.procs[p]) || OthersBring(s, p)
  {
    if Covered(s) {
      var q :| 0 <= q < |s.procs| && Brings(s.c, s.procs[q]);
      assert q != p ==> OthersBring(s, p);
    }
  }

  /** While the client is not stopped, a step ends the cover exactly when the last goroutine that
      upholds it gives up, and restores it exactly when a registration fails. */
  lemma CoverChangesExactly(s: State, a: Action)
    requires Inv(s) && Enabled(s, a) && !s.c.stopped
    ensures Covered(s) ==> (Covered(Apply(s, a)) <==> !Loses(s, a))
    ensures !Covered(s) ==> (Covered(Apply(s, a)) <==> Regains(s, a))
  {
    if a.Go? {
      hide Step, CanStep, Brings, Covered, OthersBring;
      StepBrings(s.c, s.procs[a.p], a.choice);
      CoveredAfterGo(s, a.p, a.choice);
      CoveredSplits(s, a.p);
      assert s.procs[a.p].Entering? || s.procs[a.p] == Dialing(Starter) ==> Brings(s.c, s.procs[a.p]) by {
        BringsItself(s.c, s.procs[a.p]);
      }
      assert s.procs[a.p].Registering? ==> !Brings(s.c, s.procs[a.p]) by {
        BringsItself(s.c, s.procs[a.p]);
      }
    } else {
      OthersKeepCover(s, a);
    }
  }

  lemma BringsItself(c: Client, x: Proc)
    ensures x.Entering? || x == Dialing(Starter) ==> Brings(c, x)
    ensures x.Registering? ==> !Brings(c, x)
  {
  }

  lemma OthersKeepCover(s: State, a: Action)
    requires !a.Go?
    ensures Covered(s) <==> Covered(Apply(s, a))
  {
    var t := Apply(s, a);
    assert forall p :: 0 <= p < |s.procs| ==> (Brings(s.c, s.procs[p]) <==> Brings(t.c, t.procs[p]));
    assert a.Track? ==> !Brings(t.c, Tracking);
  }

  ghost predicate LosesAt(actions: seq<Action>, i: nat) {
    && i < |actions| && Execute(actions[..i]).Some?
    && Loses(Execute(actions[..i]).value, actions[i])
  }

  predicate RegainsAt(actions: seq<Action>, i: nat) {
    && i < |actions| && Execute(actions[..i]).Some?
    && Regains(Execute(actions[..i]).value, actions[i])
  }

  ghost predicate LostSince(actions: seq<Action>, i: nat) {
    LosesAt(actions, i) && forall j: nat :: i < j < |actions| ==> !RegainsAt(actions, j)
  }

  lemma LostSinceStep(actions: seq<Action>)
    requires actions != []
    ensures var n := |actions| - 1;
      (exists i: nat :: LostSince(actions, i)) <==>
      LosesAt(actions, n) || ((exists i: nat :: LostSince(actions[..n], i)) && !RegainsAt(actions, n))
  {
    hide Loses, Regains, Execute;
    var n := |actions| - 1;
    var before := actions[..n];
    forall i: nat | i < n
      ensures LosesAt(before, i) <==> LosesAt(actions, i)
      ensures RegainsAt(before, i) <==> RegainsAt(actions, i)
    {
      assert before[..i] == actions[..i] && before[i] == actions[i];
    }
    if LosesAt(actions, n) {
      assert LostSince(actions, n);
    }
    if i: nat :| LostSince(before, i) && !RegainsAt(actions, n) {
      assert LostSince(actions, i);
    }
    if i: nat :| LostSince(actions, i) && i < n {
      assert LostSince(before, i);
    }
  }

  lemma LosesOnlyCovered(s: State, a: Action)
    requires Loses(s, a)
    ensures Covered(s)
  {
    assert Brings(s.c, s.procs[a.p]);
  }

  lemma StopIsFinal(s: State, a: Action)
    requires Enabled(s, a) && s.c.stopped
    ensures Apply(s, a).c.stopped
  {
  }

  /** Over every run, as long as the client is not stopped: somebody reads from the current
      connection's channel, or is on its way to, if and only if every loss was followed by a
      failed registration. */
  lemma {:induction false} CoveredIff(actions: seq<Action>, s: State)
    requires Runs(actions, s) && !s.c.stopped
    ensures Covered(s) <==> !exists i: nat :: LostSince(actions, i)
    decreases |actions|
  {
    hide Apply, Enabled, Covered, Loses, Regains, LostSince;
    if actions == [] {
      assert Covered(INIT) by {
        CoveredAtStart();
      }
      forall i: nat
        ensures !LostSince(actions, i)
      {
        NothingLostYet(i);
      }
    } else {
      var n := |actions| - 1;
      var before := Execute(actions[..n]).value;
      if before.c.stopped {
        StopIsFinal(before, actions[n]);
      }
      EveryReachableStateIsSafe(actions[..n], before);
      CoveredIff(actions[..n], before);
      CoverChangesExactly(before, actions[n]);
      LostSinceStep(actions);
      if Loses(before, actions[n]) {
        LosesOnlyCovered(before, actions[n]);
      }
    }
  }

  lemma CoveredAtStart()
    ensures Covered(INIT)
  {
    assert Brings(INIT.c, INIT.procs[0]);
  }

  lemma NothingLostYet(i: nat)
    ensures !LostSince([], i)
  {
  }

  /** Inside the reconnect body, connected, and with the registration still to fail. */
  predicate MayRegain(x: Proc) {
    x.Registering? || ((x.SpawningRead? || x.SpawningWrite?) && x.who == Reconnector)
  }

  ghost predicate Lost(s: State) {
    forall p :: 0 <= p < |s.procs| ==> !Brings(s.c, s.procs[p]) && !MayRegain(s.procs[p])
  }

  lemma StepStaysLost(c: Client, x: Proc, choice: Choice)
    requires ChannelsInv(c) && CanStep(c, x, choice) && (HasDone(x) ==> x.done <= c.pumpDone)
    requires !Brings(c, x) && !MayRegain(x)
    ensures var o := Step(c, x, choice);
      && o.c.pumpDone == c.pumpDone
      && !Brings(o.c, o.next) && !MayRegain(o.next) && !Brings(o.c, o.launched) && !MayRegain(o.launched)
  {
    hide HistoryInv;
  }

  lemma StaysLost(s: State, a: Action)
    requires Inv(s) && Lost(s) && Enabled(s, a)
    ensures Lost(Apply(s, a))
  {
    if a.Go? {
      hide Step, CanStep;
      StepStaysLost(s.c, s.procs[a.p], a.choice);
    }
  }

  /** The state that a list of actions leads to from here. */
  function Continue(s: State, later: seq<Action>): Option<State>
    decreases |later|
  {
    if later == [] then Some(s)
    else if Enabled(s, later[0]) then Continue(Apply(s, later[0]), later[1..])
    else None
  }

  lemma {:induction false} LostStaysUncovered(s: State, later: seq<Action>)
    requires Inv(s) && Lost(s) && Continue(s, later).Some?
    ensures !Covered(Continue(s, later).value)
    decreases |later|
  {
    if later != [] {
      hide Lost, Apply, Enabled;
      StaysLost(s, later[0]);
      StepKeepsInv(s, later[0]);
      LostStaysUncovered(Apply(s, later[0]), later[1..]);
    }
  }

  /** What may still regain does so when its registration fails. */
  lemma FailedRegistrationRegains(s: State, p: nat) returns (later: seq<Action>)
    requires p < |s.procs| && MayRegain(s.procs[p])
    ensures Continue(s, later).Some? && Covered(Continue(s, later).value)
    decreases if s.procs[p].SpawningRead? then 2 else if s.procs[p].SpawningWrite? then 1 else 0
  {
    if s.procs[p].Registering? {
      later := [Go(p, Fail)];
      var t := Apply(s, later[0]);
      assert Continue(t, later[1..]) == Some(t);
      assert Brings(t.c, t.procs[p]);
    } else {
      var t := Apply(s, Go(p, Ok));
      assert t.procs[p].Registering? || t.procs[p].SpawningWrite?;
      var rest := FailedRegistrationRegains(t, p);
      later := [Go(p, Ok)] + rest;
      assert later[1..] == rest;
    }
  }

  lemma CanBeCovered(s: State) returns (later: seq<Action>)
    requires !Lost(s)
    ensures Continue(s, later).Some? && Covered(Continue(s, later).value)
  {
    var p :| 0 <= p < |s.procs| && (Brings(s.c, s.procs[p]) || MayRegain(s.procs[p]));
    if Brings(s.c, s.procs[p]) {
      later := [];
    } else {
      later := FailedRegistrationRegains(s, p);
    }
  }

  /** A state is lost if and only if nothing that can happen from it on covers it again. */
  lemma LostForGoodIff(s: State)
    requires Inv(s)
    ensures Lost(s) <==> forall later :: Continue(s, later).Some? ==> !Covered(Continue(s, later).value)
  {
    if Lost(s) {
      forall later | Continue(s, later).Some?
        ensures !Covered(Continue(s, later).value)
      {
        LostStaysUncovered(s, later);
      }
    } else {
      var later := CanBeCovered(s);
    }
  }

  /** In a lost state nobody reads, or will, but on channels that are closed; where nobody keeps
      reading at all, the state is lost. */
  lemma LostAndReading(s: State)
    requires Inv(s)
    ensures Lost(s) ==> forall p :: 0 <= p < |s.procs| && KeepsReading(s.procs[p]) ==>
      || s.procs[p].Leaving? || s.procs[p] == SpawningWrite(Starter, s.procs[p].done)
      || ((ReadPump(s.procs[p]) || s.procs[p].SpawningRead?) && !Open(s.c, s.procs[p].done))
    ensures (forall p :: 0 <= p < |s.procs| ==> !KeepsReading(s.procs[p])) ==> Lost(s)
  {
  }

  /** Being stuck like that is permanent. */
  lemma DroppedForGood(s: State, a: Action)
    requires Enabled(s, a) && forall p :: 0 <= p < |s.procs| ==> !KeepsReading(s.procs[p])
    ensures forall p :: 0 <= p < |Apply(s, a).procs| ==> !KeepsReading(Apply(s, a).procs[p])
  {
  }

  // ---------- A run that loses it for good ----------

  /** The i-th action of the run is a reconnect that finds the guard up and is dropped, which loses
      the cover; after the run, the client not stopped and with a connection, nobody reads or will
      reconnect, and nothing that can happen changes that. */
  ghost predicate DropsForGood(actions: seq<Action>, i: nat, s: State) {
    && Runs(actions, s) && LosesAt(actions, i)
    && Execute(actions[..i]).value.procs[actions[i].p].Entering?
    && Execute(actions[..i]).value.c.reconnecting
    && !s.c.stopped && s.c.conn.Some? && s.c.rounds > 0 && Lost(s)
    && (forall p :: 0 <= p < |s.procs| ==> !KeepsReading(s.procs[p]))
  }

  lemma OneMoreAction(actions: seq<Action>, s: State, a: Action)
    requires Runs(actions, s) && Enabled(s, a)
    ensures Runs(actions + [a], Apply(s, a))
  {
    assert (actions + [a])[..|actions|] == actions;
  }

  /** A reconnect that is about to be dropped, with nobody else to bring a reader. */
  lemma AboutToBeDropped() returns (s: State)
    ensures Reachable(s) && |s.procs| == 20 && s.c == RECONNECTED
    ensures s.procs[8] == Registering && s.procs[19] == Entering && Loses(s, Go(19, Ok))
    ensures forall p :: 0 <= p < 19 && p != 8 ==> !KeepsReading(s.procs[p])
  {
    s := FailedEarly();
    forall p | 0 <= p < |s.procs| && p != 19
      ensures !Brings(s.c, s.procs[p])
    {
    }
  }

  /** The three last steps: the reconnect is dropped, and the one under way registers and ends. */
  lemma DroppedThenDone(s: State) returns (t: State, u: State, v: State)
    requires |s.procs| == 20 && s.c == RECONNECTED && s.procs[8] == Registering && s.procs[19] == Entering
    requires forall p :: 0 <= p < 19 && p != 8 ==> !KeepsReading(s.procs[p])
    ensures Enabled(s, Go(19, Ok)) && t == Apply(s, Go(19, Ok))
    ensures Enabled(t, Go(8, Ok)) && u == Apply(t, Go(8, Ok))
    ensures Enabled(u, Go(8, Ok)) && v == Apply(u, Go(8, Ok))
    ensures !v.c.stopped && v.c.conn.Some? && v.c.rounds > 0
    ensures forall p :: 0 <= p < |v.procs| ==> !KeepsReading(v.procs[p])
  {
    t := Apply(s, Go(19, Ok));
    u := Apply(t, Go(8, Ok));
    v := Apply(u, Go(8, Ok));
  }

  /** No liveness: a read pump that fails while the guard is still up has its reconnect dropped, and
      then nobody reads from the connection or ever will. */
  lemma ReconnectCanBeDropped()
    ensures exists actions, i: nat, s :: DropsForGood(actions, i, s)
  {
    var s := AboutToBeDropped();
    var before :| Runs(before, s);
    var t, u, v := DroppedThenDone(s);
    hide Apply, Enabled;
    var drop, leave := Go(19, Ok), Go(8, Ok);
    OneMoreAction(before, s, drop);
    OneMoreAction(before + [drop], t, leave);
    OneMoreAction(before + [drop] + [leave], u, leave);
    var actions := before + [drop] + [leave] + [leave];
    var i := |before|;
    assert actions[..i] == before && actions[i] == drop;
    EveryReachableStateIsSafe(actions, v);
    LostAndReading(v);
    hide Loses, Runs, Lost;
    assert LosesAt(actions, i) by {
      assert Execute(before) == Some(s) by {
        RunsMeans(before, s);
      }
    }
    RunsMeans(before, s);
    assert DropsForGood(actions, i, v);
  }

  lemma RunsMeans(actions: seq<Action>, s: State)
    requires Runs(actions, s)
    ensures Execute(actions) == Some(s)
  {
  }
}
