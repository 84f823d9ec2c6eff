/** Which goroutines read from the same connection. A read pump looks at its done channel before it
    reads the field c.conn, so it can pick up a connection installed after its channel was
    replaced. */
module ReconnectReaders {

  import opened Common
  import opened ReconnectProtocol
  import opened ReconnectCover
  import opened ReconnectCloses
  import opened ReconnectRuns

  // ---------- Where pumps get their connections ----------

  /** A launcher or read pump goes with the connections installed under its channel or later. */
  predicate Rooted(c: Client, x: Proc) {
    && (x.ReadingDone? ==> c.conn.Some? && c.conn.value < |c.under| && c.under[c.conn.value] == c.pumpDone)
    && (x.SpawningRead? ==> x.done == c.pumpDone)
    && (x.SpawningRead? || ReadPump(x) ==>
          c.conn.Some? && c.conn.value < |c.under| && c.under[c.conn.value] >= x.done)
    && (x.Receiving? ==> x.conn < |c.under| && c.under[x.conn] >= x.done)
  }

  /** No channel has two read pumps. */
  ghost predicate OnePumpEach(s: State) {
    forall p, q :: 0 <= p < q < |s.procs| && ReadPump(s.procs[p]) && ReadPump(s.procs[q]) ==>
      s.procs[p].done != s.procs[q].done
  }

  ghost predicate RootedInv(s: State) {
    && (forall p :: 0 <= p < |s.procs| ==> Rooted(s.c, s.procs[p]))
    && OnePumpEach(s)
  }

  lemma StepKeepsRooted(c: Client, x: Proc, choice: Choice, waiting: bool)
    requires ChannelsInv(c) && FreshClient(c, waiting) && CanStep(c, x, choice) && Rooted(c, x)
    ensures var o := Step(c, x, choice); Rooted(o.c, o.next) && Rooted(o.c, o.launched)
  {
    hide HistoryInv, AtMostOne;
  }

  /** What a step of another goroutine leaves of a pump's roots. */
  lemma OtherKeepsRooted(c: Client, x: Proc, choice: Choice, waiting: bool, y: Proc)
    requires ChannelsInv(c) && FreshClient(c, waiting) && CanStep(c, x, choice) && Rooted(c, y)
    requires y.ReadingDone? || y.SpawningRead? ==> !InBody(x) && !StartPending(x)
    ensures Rooted(Step(c, x, choice).c, y)
  {
    hide HistoryInv;
  }

  /** While one goroutine is launching, no other can replace the channel or the connection. */
  lemma LaunchersAreAlone(s: State, p: nat, q: nat)
    requires Inv(s) && p < |s.procs| && q < |s.procs| && p != q
    requires s.procs[q].ReadingDone? || s.procs[q].SpawningRead?
    ensures !InBody(s.procs[p]) && !StartPending(s.procs[p])
  {
    assert Body()(s.procs[p]) == InBody(s.procs[p]) && Body()(s.procs[q]) == InBody(s.procs[q]);
  }

  /** A goroutine becomes a read pump only by being launched for the current channel. */
  lemma StepMakesPump(c: Client, x: Proc, choice: Choice)
    requires CanStep(c, x, choice) && Rooted(c, x)
    ensures var o := Step(c, x, choice);
      && (ReadPump(o.next) ==> ReadPump(x) && o.next.done == x.done)
      && (ReadPump(o.launched) ==> x.SpawningRead? && o.launched.done == x.done == c.pumpDone && !ReadPump(o.next))
  {
  }

  lemma NoOtherReader(s: State, p: nat, q: nat)
    requires Inv(s) && p < |s.procs| && q < |s.procs| && p != q
    requires s.procs[p].SpawningRead? && s.procs[p].done == s.c.pumpDone && ReadPump(s.procs[q])
    ensures s.procs[q].done != s.c.pumpDone
  {
    var f := ReadClaims(s.c.pumpDone);
    assert f(s.procs[p]) && f(s.procs[q]) == ReadClaim(s.procs[q], s.c.pumpDone);
  }

  lemma GoKeepsRooted(s: State, p: nat, choice: Choice)
    requires Inv(s) && FreshInv(s) && RootedInv(s) && Enabled(s, Go(p, choice))
    ensures RootedInv(Apply(s, Go(p, choice)))
  {
    hide Step, CanStep, FreshClient, Rooted, InBody, StartPending;
    var x := s.procs[p];
    var o := Step(s.c, x, choice);
    StepKeepsRooted(s.c, x, choice, SomeAwait(s));
    StepMakesPump(s.c, x, choice);
    forall q | 0 <= q < |s.procs| && q != p
      ensures Rooted(o.c, s.procs[q])
      ensures ReadPump(o.launched) && ReadPump(s.procs[q]) ==> o.launched.done != s.procs[q].done
    {
      if s.procs[q].ReadingDone? || s.procs[q].SpawningRead? {
        LaunchersAreAlone(s, p, q);
      }
      OtherKeepsRooted(s.c, x, choice, SomeAwait(s), s.procs[q]);
      if ReadPump(o.launched) && ReadPump(s.procs[q]) {
        NoOtherReader(s, p, q);
      }
    }
  }

  lemma OthersKeepRooted(s: State, a: Action)
    requires RootedInv(s) && !a.Go?
    ensures RootedInv(Apply(s, a))
  {
    var t := Apply(s, a);
    assert forall p :: 0 <= p < |s.procs| ==> Rooted(s.c, s.procs[p]) && t.procs[p] == s.procs[p];
  }

  lemma {:induction false} EveryReachableStateIsRooted(actions: seq<Action>, s: State)
    requires Runs(actions, s)
    ensures RootedInv(s)
    decreases |actions|
  {
    hide Apply, Enabled;
    if actions != [] {
      hide RootedInv, FreshInv;
      var last := actions[|actions| - 1];
      var before := Execute(actions[..|actions| - 1]).value;
      EveryReachableStateIsRooted(actions[..|actions| - 1], before);
      EveryReachableStateIsFresh(actions[..|actions| - 1], before);
      EveryReachableStateIsSafe(actions[..|actions| - 1], before);
      if last.Go? {
        GoKeepsRooted(before, last.p, last.choice);
      } else {
        OthersKeepRooted(before, last);
      }
    }
  }

  // ---------- Readers of one connection ----------

  /** Reads from a connection that was installed after its channel was replaced. */
  predicate Strays(c: Client, x: Proc) {
    x.Receiving? && x.conn < |c.under| && c.under[x.conn] > x.done
  }

  /** In every reachable state, of the goroutines that read from one connection at most one is the
      pump of the channel it was installed under; all others are strays. And a pump about to read
      c.conn finds a connection there. */
  lemma OneReaderButStrays(actions: seq<Action>, s: State, p: nat, q: nat)
    requires Runs(actions, s) && p < q < |s.procs|
    ensures s.procs[p].Receiving? && s.procs[q].Receiving? && s.procs[p].conn == s.procs[q].conn ==>
      Strays(s.c, s.procs[p]) || Strays(s.c, s.procs[q])
    ensures s.procs[p].Fetching? ==> s.c.conn.Some?
  {
    EveryReachableStateIsRooted(actions, s);
    assert Rooted(s.c, s.procs[p]) && Rooted(s.c, s.procs[q]);
  }

  /** In every reachable state, a read pump past its select goes astray with its next step if and
      only if its channel has been replaced and the reconnect that replaced it is past its
      installation; told by where the goroutines stand, unless the client is stopped. */
  lemma GoesAstrayIff(actions: seq<Action>, s: State, p: nat)
    requires Runs(actions, s) && p < |s.procs| && s.procs[p].Fetching?
    ensures var x := s.procs[p]; var next := Step(s.c, x, Ok).next;
      && next.Receiving?
      && (Strays(s.c, next) <==> InstalledAfter(s.c, x.done))
      && (!s.c.stopped ==> (Strays(s.c, next) <==> PastInstall(s, x.done)))
  {
    EveryReachableStateIsRooted(actions, s);
    EveryReachableStateIsFresh(actions, s);
    EveryReachableStateIsSafe(actions, s);
    assert Rooted(s.c, s.procs[p]);
  }

  // ---------- Only a failed registration makes strays ----------

  function Bringers(c: Client): Proc -> bool { x => Brings(c, x) }

  /** One goroutine at most reads or is on the way to, and only from the current channel's
      connection. */
  ghost predicate Calm(s: State) {
    && AtMostOne(s.procs, Bringers(s.c))
    && (forall p :: 0 <= p < |s.procs| && ReadPump(s.procs[p]) ==> s.procs[p].done == s.c.pumpDone)
  }

  lemma StepHandsBringing(c: Client, x: Proc, choice: Choice)
    requires ChannelsInv(c) && CanStep(c, x, choice) && Rooted(c, x)
    requires ReadPump(x) ==> x.done == c.pumpDone
    requires !(x.Registering? && choice == Fail)
    ensures var o := Step(c, x, choice);
      && (Brings(o.c, o.next) || Brings(o.c, o.launched) ==> Brings(c, x))
      && !(Brings(o.c, o.next) && Brings(o.c, o.launched))
      && (o.c.pumpDone != c.pumpDone ==> Brings(c, x) && o.c.pumpDone > c.pumpDone)
      && (ReadPump(o.next) ==> o.next.done == o.c.pumpDone)
      && (ReadPump(o.launched) ==> o.launched.done == o.c.pumpDone)
  {
    hide HistoryInv;
  }

  lemma OtherBrings(c: Client, o: Client, y: Proc)
    requires Brings(o, y) && c.pumpDone <= o.pumpDone
    requires (ReadPump(y) || y.SpawningRead?) ==> y.done <= c.pumpDone
    ensures Brings(c, y)
  {
  }

  lemma GoStaysCalm(s: State, p: nat, choice: Choice)
    requires Inv(s) && RootedInv(s) && Calm(s) && Enabled(s, Go(p, choice)) && !Regains(s, Go(p, choice))
    ensures Calm(Apply(s, Go(p, choice)))
  {
    hide Step, CanStep, Brings, Rooted;
    var x := s.procs[p];
    var o := Step(s.c, x, choice);
    assert Rooted(s.c, x);
    StepHandsBringing(s.c, x, choice);
    forall q | 0 <= q < |s.procs| && q != p
      ensures Bringers(o.c)(s.procs[q]) ==> Bringers(s.c)(s.procs[q])
      ensures o.c.pumpDone != s.c.pumpDone ==> !ReadPump(s.procs[q])
    {
      assert Bringers(s.c)(s.procs[q]) == Brings(s.c, s.procs[q]) && Bringers(s.c)(x) == Brings(s.c, x);
      if Brings(o.c, s.procs[q]) {
        OtherBrings(s.c, o.c, s.procs[q]);
      }
      if o.c.pumpDone != s.c.pumpDone && ReadPump(s.procs[q]) {
        CurrentPumpBrings(s.c, s.procs[q]);
        assert false;
      }
    }
    assert Bringers(o.c)(o.next) == Brings(o.c, o.next) && Bringers(o.c)(o.launched) == Brings(o.c, o.launched);
    RoleMoves(s.procs, p, o.next, o.launched, Bringers(s.c), Bringers(o.c));
  }

  lemma CurrentPumpBrings(c: Client, x: Proc)
    requires ReadPump(x) && x.done == c.pumpDone
    ensures Brings(c, x)
  {
  }

  lemma OthersStayCalm(s: State, a: Action)
    requires Calm(s) && !a.Go?
    ensures Calm(Apply(s, a))
  {
    var t := Apply(s, a);
    forall p, q | 0 <= p < |t.procs| && 0 <= q < |t.procs| && Bringers(t.c)(t.procs[p]) && Bringers(t.c)(t.procs[q])
      ensures p == q
    {
      assert p < |s.procs| && q < |s.procs|;
      assert Bringers(s.c)(s.procs[p]) && Bringers(s.c)(s.procs[q]);
    }
  }

  lemma CalmAtStart()
    ensures Calm(INIT)
  {
  }

  lemma {:induction false} StaysCalm(actions: seq<Action>, s: State)
    requires Runs(actions, s) && forall i: nat :: !RegainsAt(actions, i)
    ensures Calm(s)
    decreases |actions|
  {
    hide Apply, Enabled, Calm, Regains;
    if actions == [] {
      CalmAtStart();
    } else {
      hide RootedInv;
      var n := |actions| - 1;
      var before := Execute(actions[..n]).value;
      forall i: nat
        ensures !RegainsAt(actions[..n], i)
      {
        if i < n {
          assert actions[..n][..i] == actions[..i];
          assert !RegainsAt(actions, i);
        }
      }
      StaysCalm(actions[..n], before);
      EveryReachableStateIsRooted(actions[..n], before);
      EveryReachableStateIsSafe(actions[..n], before);
      assert !RegainsAt(actions, n);
      if actions[n].Go? {
        GoStaysCalm(before, actions[n].p, actions[n].choice);
      } else {
        OthersStayCalm(before, actions[n]);
      }
    }
  }

  /** Over every run in which no registration has failed, there is one read pump at most, whatever
      connection it reads from. */
  lemma OneReadPumpUntilRegistrationFails(actions: seq<Action>, s: State, p: nat, q: nat)
    requires Runs(actions, s) && (forall i: nat :: !RegainsAt(actions, i)) && p < q < |s.procs|
    ensures !(ReadPump(s.procs[p]) && ReadPump(s.procs[q]))
  {
    StaysCalm(actions, s);
    assert Bringers(s.c)(s.procs[p]) == Brings(s.c, s.procs[p]);
    assert Bringers(s.c)(s.procs[q]) == Brings(s.c, s.procs[q]);
  }

  // ---------- A run in which two goroutines read from one connection ----------

  /** Two goroutines are inside ReadMessage on the current connection, which is open. */
  predicate Shares(s: State, p: nat, q: nat) {
    && !s.c.stopped && p < q < |s.procs| && s.procs[p].Receiving? && s.procs[q].Receiving?
    && s.c.conn == Some(s.procs[p].conn) == Some(s.procs[q].conn) && s.procs[p].conn !in s.c.closedConns
    && Strays(s.c, s.procs[p])
  }

  /** The first reconnect's read pump is past its select when its registration fails. */
  lemma RegistrationFailed() returns (s: State)
    ensures Reachable(s) && |s.procs| == 18 && !s.c.stopped
    ensures s.procs[8] == RegisterFailed && s.procs[14] == Fetching(1)
    ensures s.c == RECONNECTED
  {
    s := PumpsLaunched();
    Extend(s, Go(14, Ok));
    s := Apply(s, Go(14, Ok));
    Extend(s, Go(8, Fail));
    s := Apply(s, Go(8, Fail));
  }

  /** The same body has replaced the channel once more and installed connection 2. */
  lemma InstalledAgain() returns (s: State)
    ensures Reachable(s) && |s.procs| == 20 && !s.c.stopped
    ensures s.procs[8] == ReadingDone(Reconnector) && s.procs[14] == Fetching(1)
    ensures s.c.conn == Some(2) && s.c.pumpDone == 2 && s.c.under == [0, 1, 2] && s.c.closedConns == {0, 1}
    ensures Open(s.c, 2)
  {
    s := RegistrationFailed();
    ExtendBySteps(s, 8, 2);
    s := Steps(s, 8, 2);
  }

  /** Both read pumps are about to read c.conn. */
  lemma BothFetch() returns (s: State)
    ensures Reachable(s) && |s.procs| == 23 && !s.c.stopped
    ensures s.procs[14] == Fetching(1) && s.procs[21] == Fetching(2)
    ensures s.c.conn == Some(2) && s.c.under == [0, 1, 2] && s.c.closedConns == {0, 1}
  {
    s := InstalledAgain();
    ExtendBySteps(s, 8, 2);
    s := Steps(s, 8, 2);
    Extend(s, Go(21, Ok));
    s := Apply(s, Go(21, Ok));
  }

  /** After a failed registration two goroutines can read from one connection. */
  lemma TwoCanReadFromOne()
    ensures exists s, p: nat, q: nat :: Reachable(s) && Shares(s, p, q)
  {
    var s := BothFetch();
    Extend(s, Go(14, Ok));
    s := Apply(s, Go(14, Ok));
    Extend(s, Go(21, Ok));
    s := Apply(s, Go(21, Ok));
    assert Shares(s, 14, 21);
  }
}
