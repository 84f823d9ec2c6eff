/** Which steps close a connection, when a full send buffer forces a reconnect, and what the forced
    reconnect then closes, all told from the actions of the run. */
module ReconnectForced {

  import opened Common
  import opened ReconnectProtocol

  // ---------- What the steps close and launch ----------

  /** The connection that is current when it happens is closed by the heartbeat, by Stop, by a
      reconnect that replaces the channel or fails to register, and by a read pump that ends. */
  predicate ClosesCurrent(s: State, a: Action) {
    || a.Heartbeat? || a.Stop?
    || (a.Go? && a.p < |s.procs| && (s.procs[a.p].Swapping? || s.procs[a.p].RegisterFailed? || s.procs[a.p].ReadExiting?))
  }

  /** A write pump that ends and a forced reconnect close the connection they have read before. */
  predicate ClosesRead(s: State, a: Action, k: nat) {
    a.Go? && a.p < |s.procs| && (s.procs[a.p].WriteClosing? || s.procs[a.p].ForceClosing?) && s.procs[a.p].conn == k
  }

  lemma ClosesExactly(s: State, a: Action, k: nat)
    requires Enabled(s, a)
    ensures k in Apply(s, a).c.closedConns <==>
      k in s.c.closedConns || (ClosesCurrent(s, a) && s.c.conn == Some(k)) || ClosesRead(s, a, k)
    ensures Apply(s, a).c.stopped <==> s.c.stopped || a.Stop?
  {
    if a.Go? {
      StepCloses(s.c, s.procs[a.p], a.choice, k);
      hide Step, CanStep;
    }
  }

  lemma StepCloses(c: Client, x: Proc, choice: Choice, k: nat)
    ensures var o := Step(c, x, choice);
      && (k in o.c.closedConns <==>
            || k in c.closedConns
            || ((x.Swapping? || x.RegisterFailed? || x.ReadExiting?) && c.conn == Some(k))
            || ((x.WriteClosing? || x.ForceClosing?) && x.conn == k))
      && o.c.stopped == c.stopped
  {
  }

  /** A failed read closes the current connection, and asks for a reconnect first exactly if the
      pump's channel is still open. */
  lemma FailedRead(s: State, p: nat)
    requires p < |s.procs| && s.procs[p].Receiving?
    ensures var t := Steps(Apply(s, Go(p, Fail)), p, 2);
      && t.procs[p] == Finished && t.c == CloseCurrent(s.c)
      && (s.c.conn.Some? ==> s.c.conn.value in t.c.closedConns)
      && |t.procs| == |s.procs| + 3
      && t.procs[|s.procs| + 1] == if Open(s.c, s.procs[p].done) then Entering else Finished
  {
  }

  /** So does a failed write, without asking. */
  lemma FailedWrite(s: State, p: nat)
    requires p < |s.procs| && s.procs[p].Writing?
    ensures var t := Steps(Apply(s, Go(p, Fail)), p, 2);
      && t.procs[p] == Finished && (s.c.conn.Some? ==> s.c.conn.value in t.c.closedConns)
      && forall k :: 0 <= k < |t.procs| && k != p ==> t.procs[k] == if k < |s.procs| then s.procs[k] else Finished
  {
  }

  /** A goroutine that has connected launches one read pump and one write pump, both on the channel
      that is current when it looks. */
  lemma LaunchesBothPumps(s: State, p: nat)
    requires p < |s.procs| && s.procs[p].ReadingDone?
    ensures var t := Steps(s, p, 3);
      && t.c == s.c && |t.procs| == |s.procs| + 3
      && t.procs[|s.procs| + 1] == Reading(s.c.pumpDone) && t.procs[|s.procs| + 2] == Writing(s.c.pumpDone)
      && t.procs[p] == if s.procs[p].who == Starter then Finished else Registering
  {
  }

  /** A pump hears of Stop and of its channel's replacement at its next select: the read pump then
      leaves at once, the write pump may; both close the current connection. In a reachable state
      that is exactly when the client is stopped or another channel is current. */
  lemma PumpsHear(actions: seq<Action>, s: State, p: nat, choice: Choice)
    requires Runs(actions, s) && p < |s.procs| && (s.procs[p].Reading? || s.procs[p].Writing?)
    ensures var told := s.c.stopped || s.procs[p].done != s.c.pumpDone;
      && (s.procs[p].Reading? ==> (Enabled(s, Go(p, choice)) <==> choice == if told then Quit else Ok))
      && (s.procs[p].Writing? ==> (Enabled(s, Go(p, choice)) <==> choice == Fail || (choice == Quit && told)))
    ensures Enabled(s, Go(p, Quit)) ==>
      var t := Steps(Apply(s, Go(p, Quit)), p, 2);
      t.procs[p] == Finished && (s.c.conn.Some? ==> s.c.conn.value in t.c.closedConns)
  {
    EveryReachableStateIsSafe(actions, s);
    OpenIsCurrent(s, p);
    hide Runs, Inv, Safe, Open;
    if Enabled(s, Go(p, Quit)) {
      ToldPumpCloses(s, p);
    }
    hide Steps, Apply;
  }

  lemma ToldPumpCloses(s: State, p: nat)
    requires p < |s.procs| && (s.procs[p].Reading? || s.procs[p].Writing?) && Enabled(s, Go(p, Quit))
    ensures var t := Steps(Apply(s, Go(p, Quit)), p, 2);
      t.procs[p] == Finished && (s.c.conn.Some? ==> s.c.conn.value in t.c.closedConns)
  {
    if s.procs[p].Reading? {
      assert Steps(Apply(s, Go(p, Quit)), p, 2).c == CloseCurrent(s.c);
    }
  }

  lemma OpenIsCurrent(s: State, p: nat)
    requires Inv(s) && p < |s.procs| && HasDone(s.procs[p])
    ensures Open(s.c, s.procs[p].done) <==> s.procs[p].done == s.c.pumpDone
  {
  }

  /** Every goroutine that has not ended can take a step, and a reconnect can give up dialing exactly
      when the client is stopped. */
  lemma NobodyIsStuck(s: State, p: nat)
    requires p < |s.procs|
    ensures s.procs[p] != Finished <==> exists choice :: Enabled(s, Go(p, choice))
    ensures Enabled(s, Track) && Enabled(s, SendSucceeds) && Enabled(s, Heartbeat) && Enabled(s, Stop)
    ensures s.procs[p].Dialing? ==>
      (Enabled(s, Go(p, Quit)) <==> s.procs[p].who == Reconnector && s.c.stopped)
    ensures s.procs[p].Dialing? && Enabled(s, Go(p, Quit)) ==>
      Steps(Apply(s, Go(p, Quit)), p, 1) == Apply(Apply(s, Go(p, Quit)), Go(p, Ok))
      && !Steps(Apply(s, Go(p, Quit)), p, 1).c.reconnecting
  {
    var x := s.procs[p];
    if x != Finished {
      assert Enabled(s, Go(p, Ok)) || Enabled(s, Go(p, Fail)) || Enabled(s, Go(p, Quit));
    }
  }

  // ---------- Counting along a run ----------

  /** The goroutine that the i-th action of the run is a step of, as it stands then. */
  function MoverAt(actions: seq<Action>, i: nat): (x: Proc)
    ensures x != Finished ==>
      && i < |actions| && Execute(actions[..i]).Some? && actions[i].Go?
      && actions[i].p < |Execute(actions[..i]).value.procs| && Execute(actions[..i]).value.procs[actions[i].p] == x
  {
    if i < |actions| && Execute(actions[..i]).Some? && actions[i].Go?
       && actions[i].p < |Execute(actions[..i]).value.procs|
    then Execute(actions[..i]).value.procs[actions[i].p]
    else Finished
  }

  /** A failure to queue a message is counted. */
  predicate CountsAt(actions: seq<Action>, i: nat) {
    i < |actions| && MoverAt(actions, i).Counting?
  }

  /** A message was queued, or a reconnect starts afresh. */
  predicate ClearsAt(actions: seq<Action>, i: nat) {
    i < |actions| && (actions[i].SendSucceeds? || MoverAt(actions, i).Resetting?)
  }

  /** A reconnect replaces the done channel and raises the generation. */
  predicate ReplacesAt(actions: seq<Action>, i: nat) {
    i < |actions| && MoverAt(actions, i).Swapping?
  }

  lemma SameInPrefix(actions: seq<Action>, n: nat, i: nat)
    requires i < n <= |actions|
    ensures MoverAt(actions[..n], i) == MoverAt(actions, i) && actions[..n][..i] == actions[..i]
  {
    assert actions[..n][..i] == actions[..i];
  }

  /** Some failure, and two of them, were counted since the last clearing. */
  ghost predicate OnceSince(actions: seq<Action>) {
    exists i: nat :: CountsAt(actions, i) && forall k: nat :: i < k < |actions| ==> !ClearsAt(actions, k)
  }

  ghost predicate TwiceSince(actions: seq<Action>) {
    exists i: nat, j: nat :: i < j && CountsAt(actions, i) && CountsAt(actions, j)
      && forall k: nat :: i < k < |actions| ==> !ClearsAt(actions, k)
  }

  lemma OnceStep(actions: seq<Action>)
    requires actions != []
    ensures var n := |actions| - 1;
      OnceSince(actions) <==> CountsAt(actions, n) || (OnceSince(actions[..n]) && !ClearsAt(actions, n))
  {
    hide MoverAt;
    var n := |actions| - 1;
    var before := actions[..n];
    forall i: nat | i < n
      ensures CountsAt(before, i) == CountsAt(actions, i) && ClearsAt(before, i) == ClearsAt(actions, i)
    {
      SameInPrefix(actions, n, i);
    }
    if OnceSince(actions) && !CountsAt(actions, n) {
      var i: nat :| CountsAt(actions, i) && forall k: nat :: i < k < |actions| ==> !ClearsAt(actions, k);
      assert CountsAt(before, i);
    }
    if CountsAt(actions, n) {
      assert OnceSince(actions);
    } else if OnceSince(before) && !ClearsAt(actions, n) {
      var i: nat :| CountsAt(before, i) && forall k: nat :: i < k < n ==> !ClearsAt(before, k);
      assert CountsAt(actions, i);
    }
  }

  lemma TwiceStep(actions: seq<Action>)
    requires actions != []
    ensures var n := |actions| - 1; var before := actions[..n];
      TwiceSince(actions) <==>
        if CountsAt(actions, n) then OnceSince(before) else TwiceSince(before) && !ClearsAt(actions, n)
  {
    var n := |actions| - 1;
    var before := actions[..n];
    if TwiceSince(actions) {
      TwiceBefore(actions);
    }
    hide MoverAt, TwiceSince;
    assert CountsAt(actions, n) ==> !ClearsAt(actions, n);
    if OnceSince(before) && CountsAt(actions, n) {
      var i: nat :| CountsAt(before, i) && forall k: nat :: i < k < n ==> !ClearsAt(before, k);
      TwiceNow(actions, before, i, n);
    }
    if TwiceSince(before) && !ClearsAt(actions, n) {
      var i, j := TwoCounted(before);
      TwiceNow(actions, before, i, j);
    }
  }

  lemma TwoCounted(actions: seq<Action>) returns (i: nat, j: nat)
    requires TwiceSince(actions)
    ensures i < j && CountsAt(actions, i) && CountsAt(actions, j)
    ensures forall k: nat :: i < k < |actions| ==> !ClearsAt(actions, k)
  {
    i, j :| i < j && CountsAt(actions, i) && CountsAt(actions, j)
      && forall k: nat :: i < k < |actions| ==> !ClearsAt(actions, k);
  }

  lemma TwiceBefore(actions: seq<Action>)
    requires actions != [] && TwiceSince(actions)
    ensures var n := |actions| - 1; var before := actions[..n];
      if CountsAt(actions, n) then OnceSince(before) else TwiceSince(before) && !ClearsAt(actions, n)
  {
    var n := |actions| - 1;
    var before := actions[..n];
    var i, j := TwoCounted(actions);
    hide MoverAt;
    forall k: nat | k < n
      ensures CountsAt(before, k) == CountsAt(actions, k) && ClearsAt(before, k) == ClearsAt(actions, k)
    {
      SameInPrefix(actions, n, k);
    }
    assert CountsAt(before, i) && (j < n ==> CountsAt(before, j));
  }

  lemma TwiceNow(actions: seq<Action>, before: seq<Action>, i: nat, j: nat)
    requires actions != [] && before == actions[..|actions| - 1] && i < j && CountsAt(before, i)
    requires CountsAt(before, j) || (j == |before| && CountsAt(actions, j))
    requires !ClearsAt(actions, |before|)
    requires forall k: nat :: i < k < |before| ==> !ClearsAt(before, k)
    ensures TwiceSince(actions)
  {
    hide MoverAt;
    forall k: nat | k < |before|
      ensures CountsAt(before, k) == CountsAt(actions, k) && ClearsAt(before, k) == ClearsAt(actions, k)
    {
      SameInPrefix(actions, |before|, k);
    }
    assert CountsAt(actions, i) && CountsAt(actions, j);
  }

  /** What a step does to the counter. */
  lemma CounterStep(s: State, a: Action)
    requires Enabled(s, a)
    ensures var n := Apply(s, a).c.sendFailures;
      && (a.SendSucceeds? || (a.Go? && s.procs[a.p].Resetting?) ==> n == 0)
      && (a.Go? && s.procs[a.p].Counting? ==> n == s.c.sendFailures + 1)
      && (!a.SendSucceeds? && !(a.Go? && (s.procs[a.p].Resetting? || s.procs[a.p].Counting?)) ==> n == s.c.sendFailures)
  {
  }

  /** Over every run the failure counter is the number of failures since the last message queued or
      reconnect, as far as the limit of three can tell. */
  lemma {:induction false} FailuresSinceCleared(actions: seq<Action>, s: State)
    requires Runs(actions, s)
    ensures s.c.sendFailures >= 1 <==> OnceSince(actions)
    ensures s.c.sendFailures >= 2 <==> TwiceSince(actions)
    decreases |actions|
  {
    hide Apply, Enabled, OnceSince, TwiceSince;
    if actions == [] {
      NothingYet();
    } else {
      var n := |actions| - 1;
      var before := Execute(actions[..n]).value;
      FailuresSinceCleared(actions[..n], before);
      OnceStep(actions);
      TwiceStep(actions);
      CounterStep(before, actions[n]);
      GoIsMover(actions, before);
    }
  }

  lemma NothingYet()
    ensures !OnceSince([]) && !TwiceSince([])
  {
  }

  lemma GoIsMover(actions: seq<Action>, before: State)
    requires actions != [] && Execute(actions[..|actions| - 1]) == Some(before)
    requires Enabled(before, actions[|actions| - 1])
    ensures var n := |actions| - 1;
      MoverAt(actions, n) == if actions[n].Go? then before.procs[actions[n].p] else Finished
  {
  }

  /** A tracker goes on to force a reconnect if and only if its failure is at least the third since
      the last message was queued or a reconnect started afresh. */
  lemma ForcesIff(actions: seq<Action>, s: State, p: nat)
    requires Runs(actions, s) && p < |s.procs| && s.procs[p].Counting?
    ensures Enabled(s, Go(p, Ok))
    ensures var x := Apply(s, Go(p, Ok)).procs[p];
      && (x == Forcing(s.procs[p].gen, s.procs[p].round) <==> TwiceSince(actions))
      && (x == Finished <==> !TwiceSince(actions))
  {
    hide Runs, TwiceSince, OnceSince;
    FailuresSinceCleared(actions, s);
  }

  // ---------- The forced close ----------

  /** In every reachable state, a forced reconnect that runs now closes the current connection, if
      there is one and no reconnect came between; otherwise it changes nothing. */
  lemma ForcedReconnect(actions: seq<Action>, s: State, p: nat)
    requires Runs(actions, s) && p < |s.procs| && s.procs[p].Forcing?
    ensures var t, round := Steps(s, p, 2), s.procs[p].round;
      && t.procs[p] == Finished
      && (s.c.conn.Some? && round == s.c.rounds ==>
            && s.c.conn.value in t.c.closedConns && (s.c.conn.value, round) in t.c.forced
            && t.c == s.c.(closedConns := s.c.closedConns + {s.c.conn.value},
                           forced := s.c.forced + {(s.c.conn.value, round)}))
      && (s.c.conn.None? || round != s.c.rounds ==> t.c == s.c)
  {
    EveryReachableStateIsSafe(actions, s);
    assert s.procs[p].gen == s.procs[p].round && s.c.generation == s.c.rounds by {
      hide Runs, Safe;
      assert TrackerInv(s.c, s.procs[p]);
    }
    hide Runs, Inv, Safe;
    ForcedSteps(s, p);
  }

  lemma ForcedSteps(s: State, p: nat)
    requires p < |s.procs| && s.procs[p].Forcing?
    ensures var t := Steps(s, p, 2);
      && t.procs[p] == Finished
      && t.c == if s.c.conn.Some? && s.procs[p].gen == s.c.generation
                then s.c.(closedConns := s.c.closedConns + {s.c.conn.value},
                          forced := s.c.forced + {(s.c.conn.value, s.procs[p].round)})
                else s.c
  {
    var t := Apply(s, Go(p, Ok));
    assert t.c == s.c;
    assert t.procs[p] == if s.c.conn.Some? && s.procs[p].gen == s.c.generation
                         then ForceClosing(s.c.conn.value, s.procs[p].round) else Finished;
    assert Steps(s, p, 2) == Steps(t, p, 1);
  }

  lemma RoundsStep(s: State, a: Action)
    requires Enabled(s, a)
    ensures Apply(s, a).c.rounds == s.c.rounds + if a.Go? && s.procs[a.p].Swapping? then 1 else 0
  {
  }

  /** The goroutine p read the generation by the i-th action of the run. */
  predicate ReadsAt(actions: seq<Action>, i: nat, p: nat) {
    i < |actions| && actions[i].Go? && actions[i].p == p && MoverAt(actions, i).Tracking?
  }

  ghost predicate NoneReplacesAfter(actions: seq<Action>, i: nat) {
    forall k: nat :: i < k < |actions| ==> !ReplacesAt(actions, k)
  }

  /** The round of a tracker is the one in which it read the generation, and it is still that round
      if and only if no reconnect has replaced the channel since. */
  ghost predicate RoundTold(actions: seq<Action>, s: State, p: nat, round: nat) {
    exists i: nat :: ReadsAt(actions, i, p) && round <= s.c.rounds
      && (round == s.c.rounds <==> NoneReplacesAfter(actions, i))
  }

  lemma ToldStep(actions: seq<Action>, before: State, s: State, p: nat, round: nat)
    requires actions != [] && Execute(actions[..|actions| - 1]) == Some(before)
    requires Runs(actions, s) && Enabled(before, actions[|actions| - 1]) && s == Apply(before, actions[|actions| - 1])
    requires RoundTold(actions[..|actions| - 1], before, p, round)
    ensures RoundTold(actions, s, p, round)
  {
    var n := |actions| - 1;
    var prior := actions[..n];
    var i: nat :| ReadsAt(prior, i, p) && round <= before.c.rounds
      && (round == before.c.rounds <==> NoneReplacesAfter(prior, i));
    hide MoverAt, Execute, Apply, Enabled;
    forall k: nat | k < n
      ensures MoverAt(prior, k) == MoverAt(actions, k) && ReplacesAt(prior, k) == ReplacesAt(actions, k)
    {
      SameInPrefix(actions, n, k);
    }
    RoundsStep(before, actions[n]);
    GoIsMover(actions, before);
    assert NoneReplacesAfter(actions, i) <==> NoneReplacesAfter(prior, i) && !ReplacesAt(actions, n);
    assert ReadsAt(actions, i, p);
  }

  lemma TrackerStep(s: State, a: Action, p: nat)
    requires Enabled(s, a) && p < |Apply(s, a).procs|
    requires Apply(s, a).procs[p].Counting? || Apply(s, a).procs[p].Forcing?
    ensures p < |s.procs|
    ensures var x, y := s.procs[p], Apply(s, a).procs[p];
      || ((x.Counting? || x.Forcing?) && x.round == y.round)
      || (a == Go(p, Ok) && x.Tracking? && y.round == s.c.rounds == Apply(s, a).c.rounds)
  {
  }

  lemma {:induction false} RoundIsTold(actions: seq<Action>, s: State, p: nat)
    requires Runs(actions, s) && p < |s.procs| && (s.procs[p].Counting? || s.procs[p].Forcing?)
    ensures RoundTold(actions, s, p, s.procs[p].round)
    decreases |actions|
  {
    hide Apply, Enabled, RoundTold;
    if actions != [] {
      var n := |actions| - 1;
      var before := Execute(actions[..n]).value;
      TrackerStep(before, actions[n], p);
      if before.procs[p].Tracking? {
        GoIsMover(actions, before);
        ToldNow(actions, s, p);
      } else {
        RoundIsTold(actions[..n], before, p);
        ToldStep(actions, before, s, p, s.procs[p].round);
      }
    }
  }

  lemma ToldNow(actions: seq<Action>, s: State, p: nat)
    requires actions != [] && ReadsAt(actions, |actions| - 1, p)
    ensures RoundTold(actions, s, p, s.c.rounds)
  {
    assert NoneReplacesAfter(actions, |actions| - 1);
  }

  /** So, over every run: a forced reconnect closes the current connection if and only if there is
      one and no reconnect has replaced the channel since the tracker read the generation. */
  lemma ForcedClosesIff(actions: seq<Action>, s: State, p: nat)
    requires Runs(actions, s) && p < |s.procs| && s.procs[p].Forcing?
    ensures exists i: nat :: ReadsAt(actions, i, p) && ClosesUnlessReplaced(actions, i, s, p)
  {
    RoundIsTold(actions, s, p);
    ForcedReconnect(actions, s, p);
    hide Steps, Runs, NoneReplacesAfter, ReadsAt;
  }

  ghost predicate ClosesUnlessReplaced(actions: seq<Action>, i: nat, s: State, p: nat)
    requires p < |s.procs|
  {
    var t := Steps(s, p, 2);
    if s.c.conn.Some? && NoneReplacesAfter(actions, i)
    then s.c.conn.value in t.c.closedConns && (s.c.conn.value, s.c.rounds) in t.c.forced
    else t.c == s.c
  }

  // ---------- What the histories record ----------

  /** The run was in a state with connection k in round r. */
  predicate WasCurrent(actions: seq<Action>, i: nat, k: nat, r: nat) {
    && i <= |actions| && Execute(actions[..i]).Some?
    && Execute(actions[..i]).value.c.conn == Some(k) && Execute(actions[..i]).value.c.rounds == r
  }

  lemma CurrentStep(s: State, a: Action, k: nat, r: nat)
    requires HistoryInv(s.c) && Enabled(s, a)
    ensures var c := Apply(s, a).c;
      (k, r) in c.current <==> (k, r) in s.c.current || (c.conn == Some(k) && c.rounds == r)
  {
    hide ReplaceDone;
    if a.Go? {
      CurrentAfter(s.c, s.procs[a.p], a.choice, k, r);
    }
  }

  lemma CurrentAfter(c: Client, x: Proc, choice: Choice, k: nat, r: nat)
    requires c.conn.Some? ==> (c.conn.value, c.rounds) in c.current
    ensures var o := Step(c, x, choice);
      (k, r) in o.c.current <==> (k, r) in c.current || (o.c.conn == Some(k) && o.c.rounds == r)
  {
  }

  /** The history of current connections holds exactly the connections that the run's states had, with
      their rounds. */
  lemma {:induction false} CurrentIsHistory(actions: seq<Action>, s: State, k: nat, r: nat)
    requires Runs(actions, s)
    ensures (k, r) in s.c.current <==> exists i: nat :: WasCurrent(actions, i, k, r)
    decreases |actions|
  {
    hide Apply, Enabled, Inv, Safe;
    var n := |actions|;
    assert actions[..n] == actions;
    assert WasCurrent(actions, n, k, r) <==> s.c.conn == Some(k) && s.c.rounds == r;
    if actions != [] {
      var earlier := actions[..n - 1];
      var before := Execute(earlier).value;
      CurrentIsHistory(earlier, before, k, r);
      assert HistoryInv(before.c) by {
        EveryReachableStateIsSafe(earlier, before);
        InvMeans(before);
      }
      CurrentStep(before, actions[n - 1], k, r);
      forall i: nat | i < n
        ensures WasCurrent(earlier, i, k, r) == WasCurrent(actions, i, k, r)
      {
        assert earlier[..i] == actions[..i];
      }
    }
  }

  lemma InvMeans(s: State)
    requires Inv(s)
    ensures HistoryInv(s.c)
  {
  }
}
