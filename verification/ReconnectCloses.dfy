/** Which connection the deferred close of a pump hits. */
module ReconnectCloses {

  import opened Common
  import opened ReconnectProtocol
  import opened ReconnectRuns

  /** Has replaced the done channel and not yet installed a connection. */
  predicate Awaits(x: Proc) {
    x.Resetting? || x == Dialing(Reconnector)
  }

  ghost predicate SomeAwait(s: State) {
    exists p :: 0 <= p < |s.procs| && Awaits(s.procs[p])
  }

  /** Which done channel the current connection was installed under. */
  ghost predicate FreshClient(c: Client, waiting: bool) {
    && |c.under| == |c.installed|
    && (forall k :: 0 <= k < |c.under| ==> c.under[k] <= c.pumpDone)
    && (forall j, k :: 0 <= j < k < |c.under| ==> c.under[j] <= c.under[k])
    && (c.conn.Some? ==>
          var k := c.conn.value;
          && k + 1 == |c.under|
          && (c.under[k] == c.pumpDone || k in c.closedConns)
          && (waiting ==> c.under[k] < c.pumpDone && (!c.stopped ==> c.under[k] + 1 == c.pumpDone))
          && (!waiting && !c.stopped ==> c.under[k] == c.pumpDone))
  }

  /** Closing connection k does no harm for a pump of channel d: k is closed already, or was
      installed after d was replaced (then the close is late), or belongs to d still. */
  predicate Accounted(c: Client, d: nat, k: nat) {
    k in c.closedConns || (k < |c.under| && c.under[k] > d) || (d == c.pumpDone && c.conn == Some(k))
  }

  ghost predicate ClosersInv(s: State) {
    forall p :: 0 <= p < |s.procs| && s.procs[p].WriteClosing? ==> Accounted(s.c, s.procs[p].done, s.procs[p].conn)
  }

  lemma StepKeepsFresh(c: Client, x: Proc, choice: Choice, waiting: bool)
    requires ChannelsInv(c) && FreshClient(c, waiting) && CanStep(c, x, choice)
    requires InBody(x) ==> waiting == Awaits(x)
    requires StartPending(x) ==> !waiting
    ensures var o := Step(c, x, choice);
      && FreshClient(o.c, if InBody(x) then Awaits(o.next) else waiting)
      && !Awaits(o.launched) && (!InBody(x) ==> !Awaits(o.next))
  {
    hide HistoryInv;
  }

  lemma StepKeepsAccounted(c: Client, x: Proc, choice: Choice, waiting: bool, d: nat, k: nat)
    requires FreshClient(c, waiting) && CanStep(c, x, choice) && d <= c.pumpDone < |c.closes|
    requires Awaits(x) ==> waiting
    requires !StartPending(x)
    ensures Accounted(c, d, k) ==> Accounted(Step(c, x, choice).c, d, k)
    ensures c.conn == Some(k) ==> Accounted(c, d, k)
  {
  }

  ghost predicate FreshInv(s: State) {
    FreshClient(s.c, SomeAwait(s)) && ClosersInv(s)
  }

  /** The role of awaiting an installation moves with the reconnect body. */
  lemma AwaitMoves(s: State, p: nat, choice: Choice)
    requires Inv(s) && Enabled(s, Go(p, choice))
    ensures InBody(s.procs[p]) ==> SomeAwait(s) == Awaits(s.procs[p])
    ensures StartPending(s.procs[p]) ==> !SomeAwait(s)
    ensures Awaits(s.procs[p]) ==> SomeAwait(s)
    ensures var o := Step(s.c, s.procs[p], choice);
      !Awaits(o.launched) && (!InBody(s.procs[p]) ==> !Awaits(o.next)) ==>
        SomeAwait(Apply(s, Go(p, choice))) == if InBody(s.procs[p]) then Awaits(o.next) else SomeAwait(s)
  {
    hide Step, CanStep;
    var o := Step(s.c, s.procs[p], choice);
    var t := Apply(s, Go(p, choice));
    forall q | 0 <= q < |s.procs| && q != p && Awaits(s.procs[q])
      ensures !InBody(s.procs[p]) && !StartPending(s.procs[p])
    {
      assert Body()(s.procs[p]) == InBody(s.procs[p]) && Body()(s.procs[q]) == InBody(s.procs[q]);
    }
    assert t.procs[p] == o.next && t.procs[|s.procs|] == o.launched;
    assert forall q :: 0 <= q < |s.procs| && q != p ==> t.procs[q] == s.procs[q];
    if SomeAwait(s) {
      var q :| 0 <= q < |s.procs| && Awaits(s.procs[q]);
      assert q != p ==> Awaits(t.procs[q]);
    }
    if SomeAwait(t) {
      var q :| 0 <= q < |t.procs| && Awaits(t.procs[q]);
      assert q < |s.procs| && q != p ==> Awaits(s.procs[q]);
    }
  }

  lemma GoKeepsFresh(s: State, p: nat, choice: Choice)
    requires Inv(s) && FreshInv(s) && Enabled(s, Go(p, choice))
    ensures FreshInv(Apply(s, Go(p, choice)))
  {
    AwaitMoves(s, p, choice);
    StepKeepsFresh(s.c, s.procs[p], choice, SomeAwait(s));
    GoKeepsClosers(s, p, choice);
  }

  lemma GoKeepsClosers(s: State, p: nat, choice: Choice)
    requires Inv(s) && FreshInv(s) && Enabled(s, Go(p, choice))
    ensures ClosersInv(Apply(s, Go(p, choice)))
  {
    AwaitMoves(s, p, choice);
    hide Step, CanStep, FreshClient, Accounted, SomeAwait;
    var x := s.procs[p];
    var o := Step(s.c, x, choice);
    forall q | 0 <= q < |s.procs| && q != p && s.procs[q].WriteClosing?
      ensures Accounted(o.c, s.procs[q].done, s.procs[q].conn)
    {
      assert !StartPending(x);
      StepKeepsAccounted(s.c, x, choice, SomeAwait(s), s.procs[q].done, s.procs[q].conn);
    }
    CloserStarts(s.c, x, choice, SomeAwait(s));
  }

  lemma CloserStarts(c: Client, x: Proc, choice: Choice, waiting: bool)
    requires FreshClient(c, waiting) && CanStep(c, x, choice) && (HasDone(x) ==> x.done <= c.pumpDone)
    ensures var o := Step(c, x, choice);
      && !o.launched.WriteClosing?
      && (o.next.WriteClosing? ==> Accounted(o.c, o.next.done, o.next.conn))
  {
    hide HistoryInv;
  }

  lemma OthersKeepFresh(s: State, a: Action)
    requires FreshInv(s) && !a.Go?
    ensures FreshInv(Apply(s, a))
  {
    var t := Apply(s, a);
    assert forall p :: 0 <= p < |s.procs| ==> t.procs[p] == s.procs[p];
    if SomeAwait(s) {
      var p :| 0 <= p < |s.procs| && Awaits(s.procs[p]);
      assert Awaits(t.procs[p]);
    }
    assert SomeAwait(t) ==> SomeAwait(s) by {
      if SomeAwait(t) {
        var p :| 0 <= p < |t.procs| && Awaits(t.procs[p]);
        assert Awaits(s.procs[p]);
      }
    }
  }

  lemma {:induction false} EveryReachableStateIsFresh(actions: seq<Action>, s: State)
    requires Runs(actions, s)
    ensures FreshInv(s)
    decreases |actions|
  {
    hide Apply, Enabled;
    if actions != [] {
      hide FreshInv;
      var last := actions[|actions| - 1];
      var before := Execute(actions[..|actions| - 1]).value;
      EveryReachableStateIsFresh(actions[..|actions| - 1], before);
      EveryReachableStateIsSafe(actions[..|actions| - 1], before);
      if last.Go? {
        GoKeepsFresh(before, last.p, last.choice);
      } else {
        OthersKeepFresh(before, last);
      }
    }
  }

  /** A connection was installed after channel d was replaced. */
  predicate InstalledAfter(c: Client, d: nat) {
    exists k :: 0 <= k < |c.under| && c.under[k] > d
  }

  /** The same by where the goroutines stand: the channel after d was replaced too, or nobody is
      between replacing and installing. */
  ghost predicate PastInstall(s: State, d: nat) {
    d < s.c.pumpDone && (d + 1 < s.c.pumpDone || !SomeAwait(s))
  }

  /** In every reachable state, for a pump of a replaced channel about to run its deferred close
      (or, for a write pump, to read the connection that it then closes): the connection it hits
      was installed after that channel was replaced if and only if the reconnect that replaced it
      is past its installation, which is so, unless the client is stopped, exactly when a later
      channel was replaced or nobody is between replacing and installing. Any other connection
      that it hits is closed already. */
  lemma DeferredCloseHits(actions: seq<Action>, s: State, p: nat)
    requires Runs(actions, s) && p < |s.procs| && (s.procs[p].ReadExiting? || s.procs[p].WriteExiting?)
    requires s.c.conn.Some? && s.procs[p].done < s.c.pumpDone
    ensures var k, d := s.c.conn.value, s.procs[p].done;
      && k < |s.c.under|
      && (s.c.under[k] > d <==> InstalledAfter(s.c, d))
      && (!s.c.stopped ==> (InstalledAfter(s.c, d) <==> PastInstall(s, d)))
      && (s.c.under[k] <= d ==> k in s.c.closedConns)
  {
    EveryReachableStateIsFresh(actions, s);
    EveryReachableStateIsSafe(actions, s);
  }

  /** And a write pump that has read the connection closes one that is closed already, or one
      installed after its channel was replaced, or its own. */
  lemma WriteCloseHits(actions: seq<Action>, s: State, p: nat)
    requires Runs(actions, s) && p < |s.procs| && s.procs[p].WriteClosing?
    ensures Accounted(s.c, s.procs[p].done, s.procs[p].conn)
  {
    EveryReachableStateIsFresh(actions, s);
  }

  /** A read pump whose channel was replaced is about to close a connection that is not closed and
      was installed after that. */
  predicate HitsFresh(s: State, p: nat) {
    && !s.c.stopped && p < |s.procs| && s.procs[p].ReadExiting? && s.procs[p].done < s.c.pumpDone
    && s.c.conn.Some? && s.c.conn.value !in s.c.closedConns
    && s.c.conn.value < |s.c.under| && s.c.under[s.c.conn.value] > s.procs[p].done
  }

  /** The deferred close is not generation-checked: a state that is reached, and from which the step
      of an old read pump closes the connection that a later reconnect has installed. */
  lemma OldPumpCanCloseFreshConnection()
    ensures exists s, p: nat ::
      Reachable(s) && HitsFresh(s, p) && s.c.conn.value in Apply(s, Go(p, Ok)).c.closedConns
  {
    var s := Reconnected();
    assert HitsFresh(s, 3);
    assert s.c.conn.value in Apply(s, Go(3, Ok)).c.closedConns;
  }
}
