/** The connection protocol of the inference client: Start, the reconnect goroutines, the read and
    write pumps, the send-failure tracker, the heartbeat and Stop run concurrently. Every step of a
    goroutine is one critical section of a mutex, one channel operation or one launch; a run is any
    interleaving of such steps. */
module ReconnectProtocol {

  import opened Common

  datatype Launcher = Starter | Reconnector

  /** Where a goroutine stands. Done channels, connections and generations are numbered. */
  datatype Proc =
    | Dialing(who: Launcher)                    // about to call connect
    | ReadingDone(who: Launcher)                // connected, about to read c.pumpDone
    | SpawningRead(who: Launcher, done: nat)
    | SpawningWrite(who: Launcher, done: nat)
    | Entering                                  // reconnect, before the guard
    | Swapping                                  // past the guard, about to replace c.pumpDone
    | Resetting                                 // about to reset the failure counter
    | Registering
    | RegisterFailed                            // about to stop the pumps it launched
    | Leaving                                   // about to clear the guard
    | Reading(done: nat)                        // at the select on stopCh and done
    | Fetching(done: nat)                       // past the select, about to read c.conn
    | Receiving(done: nat, conn: nat)           // inside ReadMessage
    | ReadFailed(done: nat)                     // ReadMessage failed, about to look at done again
    | ReadExiting(done: nat)                    // about to run the deferred close
    | Writing(done: nat)
    | WriteExiting(done: nat)                   // about to read c.conn in the deferred close
    | WriteClosing(done: nat, conn: nat)        // has read c.conn, about to close it
    | Tracking                                  // trackSendFailure, about to read the generation
    | Counting(gen: nat, round: nat)            // round: history, the round when gen was read
    | Forcing(gen: nat, round: nat)             // forceReconnect, before its check
    | ForceClosing(conn: nat, round: nat)       // past the check, about to close
    | Finished

  /** The fields of the client. */
  datatype Client = Client(
    conn: Option<nat>,
    pumpDone: nat,
    closes: seq<nat>,               // how often each done channel was closed
    generation: nat,
    reconnecting: bool,
    sendFailures: nat,
    stopped: bool,
    closedConns: set<nat>,
    rounds: nat,                    // history: how many reconnects have replaced the done channel
    installed: seq<nat>,            // history: the round in which each connection was installed
    under: seq<nat>,                // history: the done channel in place when it was installed
    current: set<(nat, nat)>,       // history: connections and the rounds they were current in
    forced: set<(nat, nat)>)        // history: connections closed by forceReconnect, with the
                                    // round in which its caller read the generation

  datatype State = State(c: Client, procs: seq<Proc>)

  const INIT := State(Client(None, 0, [0], 0, false, 0, false, {}, 0, [], [], {}, {}), [Dialing(Starter)])

  predicate Open(c: Client, done: nat) {
    done < |c.closes| && c.closes[done] == 0
  }

  /** if c.conn != nil { c.conn.Close() } */
  function CloseCurrent(c: Client): Client {
    if c.conn.Some? then c.(closedConns := c.closedConns + {c.conn.value}) else c
  }

  /** close(c.pumpDone); c.pumpDone = make(chan struct{}) */
  function ReplaceDone(c: Client): Client {
    if c.pumpDone < |c.closes|
    then c.(closes := c.closes[c.pumpDone := c.closes[c.pumpDone] + 1] + [0], pumpDone := |c.closes|)
    else c
  }

  /** Records which connection is current in which round. */
  function Noted(c: Client): Client {
    if c.conn.Some? then c.(current := c.current + {(c.conn.value, c.rounds)}) else c
  }

  /** c.conn = conn */
  function Install(c: Client): Client {
    Noted(c.(conn := Some(|c.installed|), installed := c.installed + [c.rounds], under := c.under + [c.pumpDone]))
  }

  /** How the outside answers: a dial, a registration, a read or a write can fail. */
  datatype Choice = Ok | Fail | Quit

  predicate CanStep(c: Client, x: Proc, choice: Choice) {
    match x
    case Dialing(who) => choice != Quit || (who == Reconnector && c.stopped)
    case Registering => choice != Quit
    case Reading(done) => choice == if c.stopped || !Open(c, done) then Quit else Ok
    case Receiving(_, _) => choice != Quit
    case Writing(done) => choice == Fail || (choice == Quit && (c.stopped || !Open(c, done)))
    case Finished => false
    case _ => choice == Ok
  }

  /** The client and the goroutine after a step, and the goroutine it launched (or an ended one). */
  datatype Outcome = Outcome(c: Client, next: Proc, launched: Proc)

  function Step(c: Client, x: Proc, choice: Choice): Outcome {
    match x
    case Dialing(who) =>
      if choice == Quit then Outcome(c, Leaving, Finished)
      else if choice == Ok then Outcome(Install(c), ReadingDone(who), Finished)
      else Outcome(c, if who == Starter then Finished else Dialing(Reconnector), Finished)
    case ReadingDone(who) => Outcome(c, SpawningRead(who, c.pumpDone), Finished)
    case SpawningRead(who, done) => Outcome(c, SpawningWrite(who, done), Reading(done))
    case SpawningWrite(who, done) =>
      Outcome(c, if who == Starter then Finished else Registering, Writing(done))
    case Entering =>
      if c.reconnecting then Outcome(c, Finished, Finished)
      else Outcome(c.(reconnecting := true), Swapping, Finished)
    case Swapping =>
      Outcome(CloseCurrent(Noted(ReplaceDone(c).(generation := c.generation + 1, rounds := c.rounds + 1))),
              Resetting, Finished)
    case Resetting => Outcome(c.(sendFailures := 0), Dialing(Reconnector), Finished)
    case Registering => Outcome(c, if choice == Ok then Leaving else RegisterFailed, Finished)
    case RegisterFailed => Outcome(CloseCurrent(ReplaceDone(c)), Dialing(Reconnector), Finished)
    case Leaving => Outcome(c.(reconnecting := false), Finished, Finished)
    case Reading(done) => Outcome(c, if choice == Ok then Fetching(done) else ReadExiting(done), Finished)
    case Fetching(done) =>
      // there is a connection whenever a read pump gets here
      Outcome(c, if c.conn.Some? then Receiving(done, c.conn.value) else Fetching(done), Finished)
    case Receiving(done, _) => Outcome(c, if choice == Ok then Reading(done) else ReadFailed(done), Finished)
    case ReadFailed(done) => Outcome(c, ReadExiting(done), if Open(c, done) then Entering else Finished)
    case ReadExiting(_) => Outcome(CloseCurrent(c), Finished, Finished)
    case Writing(done) => Outcome(c, WriteExiting(done), Finished)
    case WriteExiting(done) =>
      Outcome(c, if c.conn.Some? then WriteClosing(done, c.conn.value) else Finished, Finished)
    case WriteClosing(_, conn) => Outcome(c.(closedConns := c.closedConns + {conn}), Finished, Finished)
    case Tracking => Outcome(c, Counting(c.generation, c.rounds), Finished)
    case Counting(gen, round) =>
      Outcome(c.(sendFailures := c.sendFailures + 1),
              if c.sendFailures + 1 >= 3 then Forcing(gen, round) else Finished, Finished)
    case Forcing(gen, round) =>
      Outcome(c, if c.generation == gen && c.conn.Some? then ForceClosing(c.conn.value, round) else Finished, Finished)
    case ForceClosing(conn, round) =>
      Outcome(c.(closedConns := c.closedConns + {conn}, forced := c.forced + {(conn, round)}), Finished, Finished)
    case Finished => Outcome(c, Finished, Finished)
  }

  datatype Action =
    | Go(p: nat, choice: Choice)   // goroutine p takes a step
    | Track                        // a full send buffer starts trackSendFailure
    | SendSucceeds
    | Heartbeat                    // three missed acks close the connection
    | Stop

  predicate Enabled(s: State, a: Action) {
    match a
    case Go(p, choice) => p < |s.procs| && CanStep(s.c, s.procs[p], choice)
    case _ => true
  }

  function Apply(s: State, a: Action): State
    requires Enabled(s, a)
  {
    match a
    case Go(p, choice) =>
      var o := Step(s.c, s.procs[p], choice);
      State(o.c, s.procs[p := o.next] + [o.launched])
    case Track => s.(procs := s.procs + [Tracking])
    case SendSucceeds => s.(c := s.c.(sendFailures := 0))
    case Heartbeat => s.(c := CloseCurrent(s.c))
    case Stop => s.(c := CloseCurrent(s.c.(stopped := true)))
  }

  predicate IsLaunching(x: Proc) {
    x.Dialing? || x.ReadingDone? || x.SpawningRead? || x.SpawningWrite?
  }

  /** The reconnect body: past the guard, guard not yet cleared. */
  predicate InBody(x: Proc) {
    || x.Swapping? || x.Resetting? || x.Registering? || x.RegisterFailed? || x.Leaving?
    || (IsLaunching(x) && x.who == Reconnector)
  }

  /** Start before it has launched the read pump. */
  predicate StartPending(x: Proc) {
    (x.Dialing? || x.ReadingDone? || x.SpawningRead?) && x.who == Starter
  }

  predicate IsTracker(x: Proc) {
    x.Tracking? || x.Counting? || x.Forcing? || x.ForceClosing? || x.Finished?
  }

  predicate ReadPump(x: Proc) {
    x.Reading? || x.Fetching? || x.Receiving? || x.ReadFailed?
  }

  predicate HasDone(x: Proc) {
    || ReadPump(x) || x.Writing? || x.SpawningRead? || x.SpawningWrite?
    || x.ReadExiting? || x.WriteExiting? || x.WriteClosing?
  }

  /** Will launch pumps on whatever channel is current. */
  predicate WillLaunch(x: Proc) {
    x.Resetting? || x.Dialing? || x.ReadingDone?
  }

  /** Is the read pump of channel d, or will launch it. */
  predicate ReadClaim(x: Proc, d: nat) {
    WillLaunch(x) || ((ReadPump(x) || x.SpawningRead?) && x.done == d)
  }

  /** Is the write pump of channel d, or will launch it. */
  predicate WriteClaim(x: Proc, d: nat) {
    WillLaunch(x) || ((x.Writing? || x.SpawningRead? || x.SpawningWrite?) && x.done == d)
  }

  ghost predicate AtMostOne(procs: seq<Proc>, f: Proc -> bool) {
    forall p, q :: 0 <= p < |procs| && 0 <= q < |procs| && f(procs[p]) && f(procs[q]) ==> p == q
  }

  function Body(): Proc -> bool { x => InBody(x) }

  function ReadClaims(d: nat): Proc -> bool { x => ReadClaim(x, d) }

  function WriteClaims(d: nat): Proc -> bool { x => WriteClaim(x, d) }

  /** Exactly the current done channel is open, and every older one was closed once. */
  ghost predicate ChannelsInv(c: Client) {
    && c.pumpDone + 1 == |c.closes|
    && forall d :: 0 <= d < |c.closes| ==> c.closes[d] == if d == c.pumpDone then 0 else 1
  }

  /** Done channels of running goroutines exist, and Start is alone until it launches. */
  ghost predicate ProcsInv(s: State) {
    && (forall p :: 0 <= p < |s.procs| && HasDone(s.procs[p]) ==> s.procs[p].done <= s.c.pumpDone)
    && (forall p :: 0 < p < |s.procs| ==> !StartPending(s.procs[p]))
    && (|s.procs| > 0 && StartPending(s.procs[0]) ==>
          forall p :: 0 < p < |s.procs| ==> IsTracker(s.procs[p]))
  }

  /** The guard is up exactly while one goroutine is inside the reconnect body. */
  ghost predicate GuardInv(s: State) {
    && AtMostOne(s.procs, Body())
    && (s.c.reconnecting <==> exists p :: 0 <= p < |s.procs| && InBody(s.procs[p]))
  }

  ghost predicate ClaimsInv(s: State) {
    AtMostOne(s.procs, ReadClaims(s.c.pumpDone)) && AtMostOne(s.procs, WriteClaims(s.c.pumpDone))
  }

  ghost predicate HistoryInv(c: Client) {
    && c.generation == c.rounds
    && (c.conn.Some? ==> (c.conn.value, c.rounds) in c.current)
    && (forall k, r :: (k, r) in c.current ==> k < |c.installed| && c.installed[k] <= r)
    && c.forced <= c.current
  }

  /** A tracker's generation is the round it was read in; a connection it is about to close
      was current in that round. */
  predicate TrackerInv(c: Client, x: Proc) {
    && (x.Counting? || x.Forcing? ==> x.gen == x.round)
    && (x.ForceClosing? ==> (x.conn, x.round) in c.current)
  }

  ghost predicate ForcersInv(s: State) {
    forall p :: 0 <= p < |s.procs| ==> TrackerInv(s.c, s.procs[p])
  }

  ghost predicate Inv(s: State) {
    ChannelsInv(s.c) && ProcsInv(s) && GuardInv(s) && ClaimsInv(s) && HistoryInv(s.c) && ForcersInv(s)
  }

  /** What the protocol promises of every reachable state. */
  ghost predicate Safe(s: State) {
    // one goroutine at a time is inside the reconnect body, and exactly then the guard is up
    && (forall p, q :: 0 <= p < q < |s.procs| ==> !(InBody(s.procs[p]) && InBody(s.procs[q])))
    && (s.c.reconnecting <==> exists p :: 0 <= p < |s.procs| && InBody(s.procs[p]))
    // no done channel was closed twice, and the current one is the only open one
    && (forall d :: 0 <= d < |s.c.closes| ==> s.c.closes[d] <= 1 && (Open(s.c, d) <==> d == s.c.pumpDone))
    && Open(s.c, s.c.pumpDone)
    // an open done channel has one read pump and one write pump at most
    && (forall p, q :: 0 <= p < q < |s.procs| && ReadPump(s.procs[p]) && ReadPump(s.procs[q]) ==>
          s.procs[p].done == s.procs[q].done ==> !Open(s.c, s.procs[p].done))
    && (forall p, q :: 0 <= p < q < |s.procs| && s.procs[p].Writing? && s.procs[q].Writing? ==>
          s.procs[p].done == s.procs[q].done ==> !Open(s.c, s.procs[p].done))
    // forceReconnect closed only connections that were current in the round in which its caller
    // read the generation, hence none that a later reconnect installed
    && (forall k, r :: (k, r) in s.c.forced ==> (k, r) in s.c.current && k < |s.c.installed| && s.c.installed[k] <= r)
  }

  lemma InvIsSafe(s: State)
    requires Inv(s)
    ensures Safe(s)
  {
    forall p, q | 0 <= p < q < |s.procs|
      ensures !(InBody(s.procs[p]) && InBody(s.procs[q]))
      ensures !(ReadClaim(s.procs[p], s.c.pumpDone) && ReadClaim(s.procs[q], s.c.pumpDone))
      ensures !(WriteClaim(s.procs[p], s.c.pumpDone) && WriteClaim(s.procs[q], s.c.pumpDone))
    {
      assert Body()(s.procs[p]) == InBody(s.procs[p]);
      assert ReadClaims(s.c.pumpDone)(s.procs[p]) == ReadClaim(s.procs[p], s.c.pumpDone);
      assert WriteClaims(s.c.pumpDone)(s.procs[p]) == WriteClaim(s.procs[p], s.c.pumpDone);
    }
  }

  /** A role f held by at most one goroutine is handed over to the role g. */
  lemma RoleMoves(t: seq<Proc>, p: nat, next: Proc, launched: Proc, f: Proc -> bool, g: Proc -> bool)
    requires p < |t| && AtMostOne(t, f)
    requires forall k :: 0 <= k < |t| && k != p && g(t[k]) ==> f(t[k])
    requires g(next) || g(launched) ==> f(t[p]) || forall k :: 0 <= k < |t| && k != p ==> !g(t[k])
    requires !(g(next) && g(launched))
    ensures AtMostOne(t[p := next] + [launched], g)
  {
  }

  lemma StepKeepsChannels(c: Client, x: Proc, choice: Choice)
    requires ChannelsInv(c) && CanStep(c, x, choice)
    ensures var o := Step(c, x, choice); ChannelsInv(o.c) && c.pumpDone <= o.c.pumpDone
  {
    hide HistoryInv, TrackerInv;
  }

  lemma StepKeepsHistory(c: Client, x: Proc, choice: Choice)
    requires c.pumpDone < |c.closes| && HistoryInv(c) && CanStep(c, x, choice)
    requires x.ForceClosing? ==> (x.conn, x.round) in c.current
    ensures var o := Step(c, x, choice); HistoryInv(o.c) && c.current <= o.c.current
  {
    hide ChannelsInv, TrackerInv;
  }

  lemma StepKeepsTracker(c: Client, x: Proc, choice: Choice)
    requires c.generation == c.rounds && CanStep(c, x, choice) && TrackerInv(c, x)
    requires c.conn.Some? ==> (c.conn.value, c.rounds) in c.current
    ensures var o := Step(c, x, choice); TrackerInv(o.c, o.next) && TrackerInv(o.c, o.launched)
  {
    hide ChannelsInv, HistoryInv, ReplaceDone, CloseCurrent, Install;
  }

  /** A step replaces the channel by the next one or keeps it. */
  lemma StepTurnsChannel(c: Client, x: Proc, choice: Choice)
    requires ChannelsInv(c) && CanStep(c, x, choice)
    ensures var d := Step(c, x, choice).c.pumpDone;
      d != c.pumpDone ==> d == c.pumpDone + 1 && InBody(x)
  {
    hide HistoryInv;
  }

  lemma StepHandsRead(c: Client, x: Proc, choice: Choice)
    requires ChannelsInv(c) && CanStep(c, x, choice)
    ensures var o := Step(c, x, choice); var d := o.c.pumpDone;
      && (d == c.pumpDone ==> (ReadClaim(o.next, d) || ReadClaim(o.launched, d) ==> ReadClaim(x, d)))
      && !(ReadClaim(o.next, d) && ReadClaim(o.launched, d))
  {
    hide WriteClaim, HistoryInv;
  }

  lemma StepHandsWrite(c: Client, x: Proc, choice: Choice)
    requires ChannelsInv(c) && CanStep(c, x, choice)
    ensures var o := Step(c, x, choice); var d := o.c.pumpDone;
      && (d == c.pumpDone ==> (WriteClaim(o.next, d) || WriteClaim(o.launched, d) ==> WriteClaim(x, d)))
      && !(WriteClaim(o.next, d) && WriteClaim(o.launched, d))
  {
    hide ReadClaim, HistoryInv;
  }

  /** How a step hands over the roles, when the channel stays and when it is replaced. */
  lemma StepHandsOver(c: Client, x: Proc, choice: Choice)
    requires ChannelsInv(c) && CanStep(c, x, choice)
    ensures var o := Step(c, x, choice); var d := o.c.pumpDone;
      && (d == c.pumpDone ==>
            && (ReadClaim(o.next, d) || ReadClaim(o.launched, d) ==> ReadClaim(x, d))
            && (WriteClaim(o.next, d) || WriteClaim(o.launched, d) ==> WriteClaim(x, d)))
      && (d != c.pumpDone ==> d == c.pumpDone + 1 && InBody(x))
      && !(ReadClaim(o.next, d) && ReadClaim(o.launched, d))
      && !(WriteClaim(o.next, d) && WriteClaim(o.launched, d))
  {
    hide Step, CanStep, ReadClaim, WriteClaim, ChannelsInv;
    StepTurnsChannel(c, x, choice);
    StepHandsRead(c, x, choice);
    StepHandsWrite(c, x, choice);
  }

  lemma StepTurnsGuard(c: Client, x: Proc, choice: Choice)
    requires CanStep(c, x, choice) && (InBody(x) ==> c.reconnecting)
    ensures var o := Step(c, x, choice);
      && !InBody(o.launched)
      && (InBody(o.next) && !InBody(x) ==> !c.reconnecting && o.c.reconnecting)
      && (InBody(x) && !InBody(o.next) ==> !o.c.reconnecting)
      && (InBody(x) == InBody(o.next) ==> o.c.reconnecting == c.reconnecting)
  {
  }

  lemma StepKeepsPlace(c: Client, x: Proc, choice: Choice)
    requires CanStep(c, x, choice) && (HasDone(x) ==> x.done <= c.pumpDone)
    ensures var o := Step(c, x, choice);
      && (StartPending(o.next) ==> StartPending(x)) && !StartPending(o.launched)
      && (IsTracker(x) ==> IsTracker(o.next) && IsTracker(o.launched))
      && (StartPending(o.next) ==> IsTracker(o.launched))
      && (HasDone(o.next) ==> o.next.done <= c.pumpDone)
      && (HasDone(o.launched) ==> o.launched.done <= c.pumpDone)
  {
  }

  lemma GoKeepsGuard(s: State, p: nat, choice: Choice)
    requires Inv(s) && Enabled(s, Go(p, choice))
    ensures GuardInv(Apply(s, Go(p, choice)))
  {
    hide Step, CanStep, InBody;
    StepTurnsGuard(s.c, s.procs[p], choice);
    var o := Step(s.c, s.procs[p], choice);
    var t := s.procs[p := o.next] + [o.launched];
    RoleMoves(s.procs, p, o.next, o.launched, Body(), Body());
    if o.c.reconnecting {
      if InBody(o.next) {
        assert InBody(t[p]);
      } else {
        var k :| 0 <= k < |s.procs| && InBody(s.procs[k]);
        assert InBody(t[k]);
      }
    } else {
      forall k | 0 <= k < |t| ensures !InBody(t[k]) {
        if k < |s.procs| && k != p {
          assert Body()(s.procs[k]) == InBody(s.procs[k]) && Body()(s.procs[p]) == InBody(s.procs[p]);
        }
      }
    }
  }

  lemma GoKeepsClaims(s: State, p: nat, choice: Choice)
    requires Inv(s) && Enabled(s, Go(p, choice))
    ensures ClaimsInv(Apply(s, Go(p, choice)))
  {
    hide Step, CanStep;
    StepHandsOver(s.c, s.procs[p], choice);
    var o := Step(s.c, s.procs[p], choice);
    if o.c.pumpDone != s.c.pumpDone {
      forall k | 0 <= k < |s.procs| && k != p
        ensures !ReadClaim(s.procs[k], o.c.pumpDone) && !WriteClaim(s.procs[k], o.c.pumpDone)
      {
        NoOtherClaim(s, p, k);
      }
    }
    RoleMoves(s.procs, p, o.next, o.launched, ReadClaims(s.c.pumpDone), ReadClaims(o.c.pumpDone));
    RoleMoves(s.procs, p, o.next, o.launched, WriteClaims(s.c.pumpDone), WriteClaims(o.c.pumpDone));
  }

  /** When a reconnect replaces the done channel, nobody else has a claim on the new one. */
  lemma NoOtherClaim(s: State, p: nat, k: nat)
    requires ProcsInv(s) && GuardInv(s) && p < |s.procs| && k < |s.procs| && k != p && InBody(s.procs[p])
    ensures !ReadClaim(s.procs[k], s.c.pumpDone + 1) && !WriteClaim(s.procs[k], s.c.pumpDone + 1)
  {
    assert Body()(s.procs[p]) && Body()(s.procs[k]) == InBody(s.procs[k]);
  }

  lemma GoKeepsProcs(s: State, p: nat, choice: Choice)
    requires Inv(s) && Enabled(s, Go(p, choice))
    ensures ProcsInv(Apply(s, Go(p, choice))) && ForcersInv(Apply(s, Go(p, choice)))
    ensures ChannelsInv(Apply(s, Go(p, choice)).c) && HistoryInv(Apply(s, Go(p, choice)).c)
  {
    hide Step, CanStep, StartPending, IsTracker;
    StepKeepsChannels(s.c, s.procs[p], choice);
    StepKeepsHistory(s.c, s.procs[p], choice);
    StepKeepsTracker(s.c, s.procs[p], choice);
    StepKeepsPlace(s.c, s.procs[p], choice);
  }

  lemma StepKeepsInv(s: State, a: Action)
    requires Inv(s) && Enabled(s, a)
    ensures Inv(Apply(s, a))
  {
    if a.Go? {
      GoKeepsProcs(s, a.p, a.choice);
      GoKeepsGuard(s, a.p, a.choice);
      GoKeepsClaims(s, a.p, a.choice);
    } else {
      OthersKeepInv(s, a);
    }
  }

  lemma OthersKeepInv(s: State, a: Action)
    requires Inv(s) && !a.Go?
    ensures Inv(Apply(s, a))
  {
    if a.Track? {
      TrackKeepsInv(s);
    }
  }

  lemma IdleLaunch(t: seq<Proc>, x: Proc, f: Proc -> bool)
    requires AtMostOne(t, f) && !f(x)
    ensures AtMostOne(t + [x], f)
  {
  }

  lemma TrackKeepsInv(s: State)
    requires Inv(s)
    ensures Inv(Apply(s, Track))
  {
    hide AtMostOne;
    var t := s.procs + [Tracking];
    IdleLaunch(s.procs, Tracking, Body());
    IdleLaunch(s.procs, Tracking, ReadClaims(s.c.pumpDone));
    IdleLaunch(s.procs, Tracking, WriteClaims(s.c.pumpDone));
    assert !InBody(Tracking);
    if s.c.reconnecting {
      var k :| 0 <= k < |s.procs| && InBody(s.procs[k]);
      assert InBody(t[k]);
    }
  }

  /** The state after a run from the initial state, if each action is enabled where it happens. */
  function Execute(actions: seq<Action>): Option<State>
    decreases |actions|
  {
    if actions == [] then Some(INIT)
    else match Execute(actions[..|actions| - 1])
      case None => None
      case Some(before) =>
        if Enabled(before, actions[|actions| - 1]) then Some(Apply(before, actions[|actions| - 1])) else None
  }

  predicate Runs(actions: seq<Action>, s: State) {
    Execute(actions) == Some(s)
  }

  /** Safety over every interleaving. */
  lemma {:induction false} EveryReachableStateIsSafe(actions: seq<Action>, s: State)
    requires Runs(actions, s)
    ensures Inv(s) && Safe(s)
    decreases |actions|
  {
    hide Apply, Enabled;
    if actions == [] {
      assert Inv(INIT);
    } else {
      var last := actions[|actions| - 1];
      var before := Execute(actions[..|actions| - 1]).value;
      EveryReachableStateIsSafe(actions[..|actions| - 1], before);
      StepKeepsInv(before, last);
    }
    InvIsSafe(s);
  }

  ghost predicate Reachable(s: State) {
    exists actions :: Runs(actions, s)
  }

  lemma Extend(s: State, a: Action)
    requires Reachable(s) && Enabled(s, a)
    ensures Reachable(Apply(s, a))
  {
    var actions :| Runs(actions, s);
    var extended := actions + [a];
    assert extended[..|extended| - 1] == actions && extended[|extended| - 1] == a;
    assert Runs(extended, Apply(s, a));
  }

  /** The steps of one goroutine, in a row. */
  function Steps(s: State, p: nat, n: nat): State
    requires p < |s.procs|
    decreases n
  {
    if n == 0 || !Enabled(s, Go(p, Ok)) then s else Steps(Apply(s, Go(p, Ok)), p, n - 1)
  }

  lemma {:induction false} ExtendBySteps(s: State, p: nat, n: nat)
    requires Reachable(s) && p < |s.procs|
    ensures Reachable(Steps(s, p, n))
    decreases n
  {
    if n > 0 && Enabled(s, Go(p, Ok)) {
      Extend(s, Go(p, Ok));
      ExtendBySteps(Apply(s, Go(p, Ok)), p, n - 1);
    }
  }

  /** The goroutine reads from a connection or can still lead to somebody reading from one. */
  predicate KeepsReading(x: Proc) {
    ReadPump(x) || InBody(x) || x.Entering? || IsLaunching(x)
  }
}
