/** Runs of the reconnect protocol, built up step by step, that other modules end in what they show. */
module ReconnectRuns {

  import opened Common
  import opened ReconnectProtocol

  /** Start has connected and launched both pumps (goroutines 3 and 4). */
  lemma Connected() returns (s: State)
    ensures Reachable(s) && s.procs == [Finished, Finished, Finished, Reading(0), Writing(0)]
    ensures s.c == Client(Some(0), 0, [0], 0, false, 0, false, {}, 0, [0], [0], {(0, 0)}, {})
  {
    assert Runs([], INIT);
    ExtendBySteps(INIT, 0, 4);
    s := Steps(INIT, 0, 4);
  }

  /** The read pump is inside ReadMessage. */
  lemma Listening() returns (s: State)
    ensures Reachable(s) && |s.procs| == 7 && s.procs[3] == Receiving(0, 0) && s.procs[4] == Writing(0)
    ensures forall p :: 0 <= p < 7 && p != 3 && p != 4 ==> s.procs[p] == Finished
    ensures s.c == Client(Some(0), 0, [0], 0, false, 0, false, {}, 0, [0], [0], {(0, 0)}, {})
  {
    s := Connected();
    ExtendBySteps(s, 3, 2);
    s := Steps(s, 3, 2);
  }

  /** The read pump failed and launched a reconnect (goroutine 8). */
  lemma ConnectionLost() returns (s: State)
    ensures Reachable(s) && |s.procs| == 9 && s.procs[3] == ReadExiting(0) && s.procs[4] == Writing(0)
    ensures s.procs[8] == Entering
    ensures forall p :: 0 <= p < 8 && p != 3 && p != 4 ==> s.procs[p] == Finished
    ensures s.c == Client(Some(0), 0, [0], 0, false, 0, false, {}, 0, [0], [0], {(0, 0)}, {})
  {
    s := Listening();
    Extend(s, Go(3, Fail));
    s := Apply(s, Go(3, Fail));
    Extend(s, Go(3, Ok));
    s := Apply(s, Go(3, Ok));
  }

  lemma DoneReplaced() returns (s: State)
    ensures Reachable(s) && |s.procs| == 11 && s.procs[3] == ReadExiting(0) && s.procs[4] == Writing(0)
    ensures s.procs[8] == Resetting
    ensures forall p :: 0 <= p < 11 && p !in {3, 4, 8} ==> s.procs[p] == Finished
    ensures s.c == Client(Some(0), 1, [1, 0], 1, true, 0, false, {0}, 1, [0], [0], {(0, 0), (0, 1)}, {})
  {
    s := ConnectionLost();
    ExtendBySteps(s, 8, 2);
    s := Steps(s, 8, 2);
  }

  /** The client after the first reconnect has installed its connection. */
  const RECONNECTED := Client(
    Some(1), 1, [1, 0], 1, true, 0, false, {0}, 1, [0, 1], [0, 1], {(0, 0), (0, 1), (1, 1)}, {})

  /** The reconnect has installed connection 1; the first read pump has not ended yet. */
  lemma Reconnected() returns (s: State)
    ensures Reachable(s) && |s.procs| == 13
    ensures s.procs[3] == ReadExiting(0) && s.procs[4] == Writing(0) && s.procs[8] == ReadingDone(Reconnector)
    ensures forall p :: 0 <= p < 13 && p !in {3, 4, 8} ==> s.procs[p] == Finished
    ensures s.c == RECONNECTED
  {
    s := DoneReplaced();
    ExtendBySteps(s, 8, 2);
    s := Steps(s, 8, 2);
  }

  /** The reconnect has launched the new read pump (goroutine 14). */
  lemma ReadPumpLaunched() returns (s: State)
    ensures Reachable(s) && |s.procs| == 15 && s.c == RECONNECTED
    ensures s.procs[8] == SpawningWrite(Reconnector, 1) && s.procs[14] == Reading(1)
    ensures forall p :: 0 <= p < 14 && p != 8 ==> !KeepsReading(s.procs[p])
  {
    s := Reconnected();
    ExtendBySteps(s, 8, 2);
    s := Steps(s, 8, 2);
  }

  /** And the new write pump; it is about to register. */
  lemma PumpsLaunched() returns (s: State)
    ensures Reachable(s) && |s.procs| == 16 && s.c == RECONNECTED
    ensures s.procs[8] == Registering && s.procs[14] == Reading(1)
    ensures forall p :: 0 <= p < 16 && p != 8 && p != 14 ==> !KeepsReading(s.procs[p])
  {
    s := ReadPumpLaunched();
    Extend(s, Go(8, Ok));
    s := Apply(s, Go(8, Ok));
  }

  /** The new read pump is inside ReadMessage. */
  lemma ListeningAgain() returns (s: State)
    ensures Reachable(s) && |s.procs| == 18 && s.c == RECONNECTED
    ensures s.procs[8] == Registering && s.procs[14] == Receiving(1, 1)
    ensures forall p :: 0 <= p < 18 && p != 8 && p != 14 ==> !KeepsReading(s.procs[p])
  {
    s := PumpsLaunched();
    Extend(s, Go(14, Ok));
    s := Apply(s, Go(14, Ok));
    Extend(s, Go(14, Ok));
    s := Apply(s, Go(14, Ok));
  }

  lemma FailingEarly() returns (s: State)
    ensures Reachable(s) && |s.procs| == 19 && s.c == RECONNECTED
    ensures s.procs[8] == Registering && s.procs[14] == ReadFailed(1)
    ensures forall p :: 0 <= p < 19 && p != 8 && p != 14 ==> !KeepsReading(s.procs[p])
  {
    s := ListeningAgain();
    Extend(s, Go(14, Fail));
    s := Apply(s, Go(14, Fail));
  }

  /** The new read pump has failed and asked for a reconnect (goroutine 19) while the guard is up. */
  lemma FailedEarly() returns (s: State)
    ensures Reachable(s) && |s.procs| == 20 && s.c == RECONNECTED
    ensures s.procs[8] == Registering && s.procs[19] == Entering
    ensures forall p :: 0 <= p < 19 && p != 8 ==> !KeepsReading(s.procs[p])
  {
    s := FailingEarly();
    Extend(s, Go(14, Ok));
    s := Apply(s, Go(14, Ok));
  }
}
