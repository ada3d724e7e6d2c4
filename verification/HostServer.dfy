/** The run-once, close-once server of src/causure/openai_quota_host.py and its
    twin in src/causure/team_host.py: the steps a run or close call takes
    between threads, and the invariant every interleaving keeps. */
module HostServer {
  import opened Vocabulary

  type Tid = nat

  /** The quota runtime's close cannot raise; the Team runtime's can. */
  datatype Kind = QuotaHost | TeamHost

  /** What the server was built with: the dispatcher and socket map are optional. */
  datatype Setup = Setup(kind: Kind, hasDispatcher: bool, hasMap: bool)

  /** How often each shutdown has been called, and which of them took effect. */
  datatype Shutdowns = Shutdowns(
    listener: nat, dispatcher: nat, closeAll: nat, runtime: nat, listenerClosed: bool, runtimeClosed: bool)

  datatype Host = Host(
    setup: Setup, closed: bool, runStarted: bool, lifecycleLock: Option<Tid>, listenerRuns: nat, done: Shutdowns)

  function NewHost(setup: Setup): Host {
    Host(setup, false, false, None, 0, Shutdowns(0, 0, 0, 0, false, false))
  }

  /** Where a close call stands; all points but Entry are inside the lock. */
  datatype ClosePoint = Entry | Locked | AtListener | AtDispatcher | AtMap | AtRuntime | AtRelease

  /** Where one call of run or close stands. pending: the body of run raised;
      failed: some shutdown step raised. */
  datatype Call =
    | NoCall
    | RunEntry | RunLocked | RunReady | Listening | RunCatch(expected: bool)
    | Closing(point: ClosePoint, pending: bool, failed: bool)
    | Refused
    | Returned(raised: bool)

  function CloseCall(): Call { Closing(Entry, false, false) }

  /** How the library call made by a step ends. */
  datatype Choice = Normal | Raise | OsError(expected: bool)

  /** The shutdown a close call makes when it leaves this point, and whether it raises. */
  function Shut(setup: Setup, done: Shutdowns, point: ClosePoint, raised: bool): (Shutdowns, bool) {
    match point
    case AtListener => (done.(listener := done.listener + 1, listenerClosed := !raised), raised)
    case AtDispatcher => if setup.hasDispatcher then (done.(dispatcher := done.dispatcher + 1), raised) else (done, false)
    case AtMap => if setup.hasMap then (done.(closeAll := done.closeAll + 1), raised) else (done, false)
    case AtRuntime =>
      var raises := raised && setup.kind == TeamHost;
      (done.(runtime := done.runtime + 1, runtimeClosed := !raises), raises)
    case _ => (done, false)
  }

  function After(point: ClosePoint): ClosePoint {
    match point
    case Entry => Locked
    case Locked => AtListener
    case AtListener => AtDispatcher
    case AtDispatcher => AtMap
    case AtMap => AtRuntime
    case AtRuntime => AtRelease
    case AtRelease => AtRelease
  }

  /** One step of close for a thread that is not blocked at the lock. */
  function CloseStep(h: Host, t: Tid, point: ClosePoint, pending: bool, failed: bool, raised: bool): (Host, Call) {
    match point
    case Entry => (h.(lifecycleLock := Some(t)), Closing(Locked, pending, failed))
    case Locked =>
      if h.closed then (h.(lifecycleLock := None), Returned(pending))
      else (h.(closed := true), Closing(AtListener, pending, failed))
    case AtRelease => (h.(lifecycleLock := None), Returned(pending || failed))
    case _ =>
      var (done, raises) := Shut(h.setup, h.done, point, raised);
      (h.(done := done), Closing(After(point), pending, failed || raises))
  }

  /** One step of thread t; None when it is blocked or finished. */
  function Step(h: Host, t: Tid, c: Call, choice: Choice): Option<(Host, Call)> {
    var raised := choice != Normal;
    match c
    case NoCall | Refused | Returned(_) => None
    case RunEntry => if h.lifecycleLock == None then Some((h.(lifecycleLock := Some(t)), RunLocked)) else None
    case RunLocked =>
      if h.closed || h.runStarted then Some((h.(lifecycleLock := None), Refused))
      else Some((h.(runStarted := true, lifecycleLock := None), RunReady))
    case RunReady => Some((h.(listenerRuns := h.listenerRuns + 1), Listening))
    case Listening =>
      (match choice
       case Normal => Some((h, Closing(Entry, false, false)))
       case Raise => Some((h, Closing(Entry, true, false)))
       case OsError(expected) => Some((h, RunCatch(expected))))
    case RunCatch(expected) =>
      if h.lifecycleLock == None then Some((h, Closing(Entry, !(h.closed && expected), false))) else None
    case Closing(point, pending, failed) =>
      if point == Entry && h.lifecycleLock != None then None
      else Some(CloseStep(h, t, point, pending, failed, raised))
  }

  predicate Holds(c: Call) {
    c == RunLocked || (c.Closing? && c.point != Entry)
  }

  /** Past the point where closed was set by this very call. */
  predicate ShuttingDown(c: Call) {
    c.Closing? && c.point != Entry && c.point != Locked
  }

  predicate InRun(c: Call) {
    c == RunReady || c == Listening || c.RunCatch?
  }

  function Once(b: bool): nat { if b then 1 else 0 }

  /** The state of the shutdowns while a close call stands at this point. */
  predicate DoneAt(setup: Setup, done: Shutdowns, point: ClosePoint) {
    match point
    case Entry | Locked | AtListener => done == Shutdowns(0, 0, 0, 0, false, false)
    case AtDispatcher => done == Shutdowns(1, 0, 0, 0, done.listenerClosed, false)
    case AtMap => done == Shutdowns(1, Once(setup.hasDispatcher), 0, 0, done.listenerClosed, false)
    case AtRuntime => done == Shutdowns(1, Once(setup.hasDispatcher), Once(setup.hasMap), 0, done.listenerClosed, false)
    case AtRelease =>
      && done == Shutdowns(1, Once(setup.hasDispatcher), Once(setup.hasMap), 1, done.listenerClosed, done.runtimeClosed)
      && (setup.kind == QuotaHost ==> done.runtimeClosed)
  }

  /** A call that could not close the listener carries the failure with it. */
  predicate Noted(h: Host, c: Call) {
    c.Closing? && c.point in {AtDispatcher, AtMap, AtRuntime, AtRelease} ==> c.failed || h.done.listenerClosed
  }

  /** Every shutdown step has happened exactly once. */
  predicate Settled(h: Host) {
    h.closed && DoneAt(h.setup, h.done, AtRelease)
  }

  // ---------------------------------------------------------------- the invariant

  /** No call is inside its shutdown. */
  ghost predicate NobodyShutting(calls: seq<Call>) {
    forall t :: 0 <= t < |calls| ==> !ShuttingDown(calls[t])
  }

  ghost predicate LockHeld(h: Host, calls: seq<Call>) {
    && (forall t :: 0 <= t < |calls| ==> (Holds(calls[t]) <==> h.lifecycleLock == Some(t)))
    && (h.lifecycleLock.Some? ==> h.lifecycleLock.value < |calls|)
  }

  ghost predicate ClosesOnce(h: Host, calls: seq<Call>) {
    && (forall t :: 0 <= t < |calls| && ShuttingDown(calls[t]) ==>
          h.closed && DoneAt(h.setup, h.done, calls[t].point) && Noted(h, calls[t]))
    && (!h.closed ==> DoneAt(h.setup, h.done, Entry))
    && (h.closed && NobodyShutting(calls) ==> Settled(h))
    && (forall t :: 0 <= t < |calls| && calls[t].Returned? ==> h.closed)
  }

  ghost predicate RunsOnce(h: Host, calls: seq<Call>) {
    && (forall t, u :: 0 <= t < u < |calls| ==> !(InRun(calls[t]) && InRun(calls[u])))
    && (forall t :: 0 <= t < |calls| && InRun(calls[t]) ==> h.runStarted)
    && (forall t :: 0 <= t < |calls| && calls[t] == RunReady ==> h.listenerRuns == 0)
    && h.listenerRuns <= Once(h.runStarted)
  }

  ghost predicate Inv(h: Host, calls: seq<Call>) {
    LockHeld(h, calls) && ClosesOnce(h, calls) && RunsOnce(h, calls)
  }

  /** No thread is shutting down while another holds the lock. */
  lemma OneHolder(h: Host, calls: seq<Call>, t: Tid)
    requires LockHeld(h, calls) && t < |calls| && (Holds(calls[t]) || h.lifecycleLock == None)
    ensures forall u :: 0 <= u < |calls| && u != t ==> !ShuttingDown(calls[u])
  {
  }

  // -- what one step does, thread by thread

  ghost predicate LockMoves(h: Host, h': Host, t: Tid, c: Call, c': Call) {
    && (Holds(c) || Holds(c') ==> h.lifecycleLock in {None, Some(t)} && h'.lifecycleLock == if Holds(c') then Some(t) else None)
    && (!Holds(c) && !Holds(c') ==> h'.lifecycleLock == h.lifecycleLock)
  }

  lemma CloseMovesLock(h: Host, t: Tid, point: ClosePoint, pending: bool, failed: bool, raised: bool)
    requires h.lifecycleLock == if point == Entry then None else Some(t)
    ensures var (h', c') := CloseStep(h, t, point, pending, failed, raised);
            h'.lifecycleLock == if Holds(c') then Some(t) else None
  {
    match point
    case Entry =>
    case Locked =>
    case AtListener =>
    case AtDispatcher =>
    case AtMap =>
    case AtRuntime =>
    case AtRelease =>
  }

  lemma StepMovesLock(h: Host, t: Tid, c: Call, choice: Choice)
    requires Step(h, t, c, choice).Some? && (Holds(c) <==> h.lifecycleLock == Some(t))
    ensures var (h', c') := Step(h, t, c, choice).value; LockMoves(h, h', t, c, c')
  {
    if c.Closing? {
      CloseMovesLock(h, t, c.point, c.pending, c.failed, choice != Normal);
    }
  }

  lemma LockStaysHeld(h: Host, h': Host, calls: seq<Call>, t: Tid, c': Call)
    requires LockHeld(h, calls) && t < |calls| && LockMoves(h, h', t, calls[t], c')
    ensures LockHeld(h', calls[t := c'])
  {
  }

  ghost predicate RunMoves(h: Host, h': Host, c: Call, c': Call) {
    && (InRun(c') ==> InRun(c) || !h.runStarted)
    && h'.runStarted == (h.runStarted || InRun(c'))
    && (c' == RunReady ==> !h.runStarted && h'.listenerRuns == h.listenerRuns)
    && h'.listenerRuns == h.listenerRuns + Once(c == RunReady)
  }

  lemma CloseLeavesRun(h: Host, t: Tid, point: ClosePoint, pending: bool, failed: bool, raised: bool)
    ensures var (h', c') := CloseStep(h, t, point, pending, failed, raised);
            h'.runStarted == h.runStarted && h'.listenerRuns == h.listenerRuns && (c'.Closing? || c'.Returned?)
  {
    match point
    case Entry =>
    case Locked =>
    case AtListener =>
    case AtDispatcher =>
    case AtMap =>
    case AtRuntime =>
    case AtRelease =>
  }

  lemma StepMovesRun(h: Host, t: Tid, c: Call, choice: Choice)
    requires Step(h, t, c, choice).Some? && (InRun(c) ==> h.runStarted)
    ensures var (h', c') := Step(h, t, c, choice).value; RunMoves(h, h', c, c')
  {
    if c.Closing? {
      CloseLeavesRun(h, t, c.point, c.pending, c.failed, choice != Normal);
    }
  }

  lemma RunsStayOnce(h: Host, h': Host, calls: seq<Call>, t: Tid, c': Call)
    requires RunsOnce(h, calls) && t < |calls| && RunMoves(h, h', calls[t], c')
    ensures RunsOnce(h', calls[t := c'])
  {
    var calls' := calls[t := c'];
    forall u, v | 0 <= u < v < |calls'| ensures !(InRun(calls'[u]) && InRun(calls'[v])) {
      if InRun(c') && !InRun(calls[t]) {
        assert !h.runStarted;
      }
    }
    forall u | 0 <= u < |calls'| && calls'[u] == RunReady ensures h'.listenerRuns == 0 {
      if u != t {
        assert !InRun(calls[t]) by { if InRun(calls[t]) { assert InRun(calls[u]); } }
      }
    }
  }

  /** A shutdown begins at the test of closed and then moves point by point. */
  ghost predicate CloseMoves(h: Host, h': Host, c: Call, c': Call) {
    && h'.setup == h.setup
    && (h.closed ==> h'.closed)
    && (ShuttingDown(c') ==> h'.closed && DoneAt(h'.setup, h'.done, c'.point) && Noted(h', c'))
    && (ShuttingDown(c) && !ShuttingDown(c') ==> Settled(h') && (c' == Returned(true) || h'.done.listenerClosed))
    && (!ShuttingDown(c) && !ShuttingDown(c') ==> h'.closed == h.closed && h'.done == h.done)
    && (ShuttingDown(c') && !ShuttingDown(c) ==> !h.closed)
    && (c'.Returned? ==> h'.closed)
  }

  lemma CloseStepMoves(h: Host, t: Tid, point: ClosePoint, pending: bool, failed: bool, raised: bool)
    requires ShuttingDown(Closing(point, pending, failed)) ==>
               h.closed && DoneAt(h.setup, h.done, point) && Noted(h, Closing(point, pending, failed))
    requires !h.closed ==> DoneAt(h.setup, h.done, Entry)
    ensures var (h', c') := CloseStep(h, t, point, pending, failed, raised);
            CloseMoves(h, h', Closing(point, pending, failed), c')
  {
    match point
    case Entry =>
    case Locked =>
    case AtListener =>
    case AtDispatcher =>
    case AtMap =>
    case AtRuntime =>
    case AtRelease =>
  }

  lemma StepMovesClose(h: Host, t: Tid, c: Call, choice: Choice)
    requires Step(h, t, c, choice).Some?
    requires ShuttingDown(c) ==> h.closed && DoneAt(h.setup, h.done, c.point) && Noted(h, c)
    requires !h.closed ==> DoneAt(h.setup, h.done, Entry)
    ensures var (h', c') := Step(h, t, c, choice).value; CloseMoves(h, h', c, c')
  {
    match c
    case Closing(point, pending, failed) => CloseStepMoves(h, t, point, pending, failed, choice != Normal);
    case RunEntry =>
    case RunLocked =>
    case RunReady =>
    case Listening =>
    case RunCatch(expected) =>
  }

  lemma ClosesStayOnce(h: Host, h': Host, calls: seq<Call>, t: Tid, c': Call)
    requires ClosesOnce(h, calls) && t < |calls| && CloseMoves(h, h', calls[t], c')
    requires ShuttingDown(calls[t]) || ShuttingDown(c') ==> forall u :: 0 <= u < |calls| && u != t ==> !ShuttingDown(calls[u])
    ensures ClosesOnce(h', calls[t := c'])
  {
    var calls' := calls[t := c'];
    forall u | 0 <= u < |calls'| && ShuttingDown(calls'[u])
      ensures h'.closed && DoneAt(h'.setup, h'.done, calls'[u].point) && Noted(h', calls'[u])
    {
      assert u != t ==> calls'[u] == calls[u];
    }
    if h'.closed && NobodyShutting(calls') {
      assert !ShuttingDown(calls'[t]);
      if !ShuttingDown(calls[t]) {
        assert forall u :: 0 <= u < |calls| && u != t ==> calls'[u] == calls[u];
        assert NobodyShutting(calls);
      }
    }
  }

  /** Every step of every thread keeps the invariant. */
  lemma StepKeepsInv(h: Host, calls: seq<Call>, t: Tid, choice: Choice)
    requires Inv(h, calls) && t < |calls| && Step(h, t, calls[t], choice).Some?
    ensures var (h', c') := Step(h, t, calls[t], choice).value; Inv(h', calls[t := c'])
  {
    var (h', c') := Step(h, t, calls[t], choice).value;
    StepMovesLock(h, t, calls[t], choice);
    StepMovesRun(h, t, calls[t], choice);
    StepMovesClose(h, t, calls[t], choice);
    LockStaysHeld(h, h', calls, t, c');
    RunsStayOnce(h, h', calls, t, c');
    assert ShuttingDown(calls[t]) || ShuttingDown(c') ==> Holds(calls[t]);
    if ShuttingDown(calls[t]) || ShuttingDown(c') {
      OneHolder(h, calls, t);
    }
    ClosesStayOnce(h, h', calls, t, c');
  }

  // ---------------------------------------------------------------- whole runs

  datatype System = System(host: Host, calls: seq<Call>)

  /** Any number of threads, each about to call run or close once. */
  ghost predicate Initial(s: System) {
    && s.host == NewHost(s.host.setup)
    && forall t :: 0 <= t < |s.calls| ==> s.calls[t] == RunEntry || s.calls[t] == CloseCall()
  }

  ghost predicate Next(s: System, s': System) {
    exists t: Tid, choice :: t < |s.calls| && Step(s.host, t, s.calls[t], choice).Some?
      && var (h, c) := Step(s.host, t, s.calls[t], choice).value; s' == System(h, s.calls[t := c])
  }

  ghost predicate IsRun(run: seq<System>) {
    run != [] && Initial(run[0]) && forall i :: 0 <= i < |run| - 1 ==> StepAt(run, i)
  }

  ghost predicate StepAt(run: seq<System>, i: nat)
    requires i + 1 < |run|
  {
    Next(run[i], run[i + 1])
  }

  lemma NextKeepsInv(s: System, s': System)
    requires Inv(s.host, s.calls) && Next(s, s')
    ensures Inv(s'.host, s'.calls) && (s.host.closed ==> s'.host.closed)
  {
    var t: Tid, choice :| t < |s.calls| && Step(s.host, t, s.calls[t], choice).Some?
      && var (h, c) := Step(s.host, t, s.calls[t], choice).value; s' == System(h, s.calls[t := c]);
    StepKeepsInv(s.host, s.calls, t, choice);
    StepMovesClose(s.host, t, s.calls[t], choice);
  }

  lemma {:induction false} RunKeepsInv(run: seq<System>, i: nat)
    requires IsRun(run) && i < |run|
    ensures Inv(run[i].host, run[i].calls)
  {
    if i > 0 {
      RunKeepsInv(run, i - 1);
      assert StepAt(run, i - 1);
      NextKeepsInv(run[i - 1], run[i]);
    }
  }

  predicate ShutdownsAtMostOnce(h: Host) {
    && h.done.listener <= 1 && h.done.dispatcher <= 1 && h.done.closeAll <= 1 && h.done.runtime <= 1
    && h.listenerRuns <= 1
  }

  /** Whatever the threads do and whichever shutdown steps raise: the listener
      runs at most once, every shutdown happens at most once, and once any
      close has returned the host is closed and, with nobody still inside the
      shutdown, every shutdown has happened; the quota runtime is then closed. */
  lemma ShutdownIsSafe(run: seq<System>, i: nat)
    requires IsRun(run) && i < |run|
    ensures ShutdownsAtMostOnce(run[i].host)
    ensures forall t :: 0 <= t < |run[i].calls| && run[i].calls[t].Returned? ==> run[i].host.closed
    ensures run[i].host.closed && run[i].host.lifecycleLock == None ==>
              Settled(run[i].host) && (run[i].host.setup.kind == QuotaHost ==> run[i].host.done.runtimeClosed)
  {
    RunKeepsInv(run, i);
    var h, calls := run[i].host, run[i].calls;
    if h.closed && !NobodyShutting(calls) {
      var t :| 0 <= t < |calls| && ShuttingDown(calls[t]);
      assert DoneAt(h.setup, h.done, calls[t].point);
    }
    if h.lifecycleLock == None {
      forall t | 0 <= t < |calls| ensures !ShuttingDown(calls[t]) {
        assert !Holds(calls[t]);
      }
    }
  }

  /** A call that returns has seen the whole shutdown: at the moment a close
      returns, the host is closed and settled. */
  lemma ReturnMeansSettled(s: System, t: Tid, choice: Choice)
    requires Inv(s.host, s.calls) && t < |s.calls| && Step(s.host, t, s.calls[t], choice).Some?
    requires Step(s.host, t, s.calls[t], choice).value.1.Returned?
    ensures Settled(Step(s.host, t, s.calls[t], choice).value.0)
    ensures var h := Step(s.host, t, s.calls[t], choice).value.0; h.setup.kind == QuotaHost ==> h.done.runtimeClosed
  {
    OneHolder(s.host, s.calls, t);
    StepMovesClose(s.host, t, s.calls[t], choice);
    if !ShuttingDown(s.calls[t]) {
      assert NobodyShutting(s.calls);
      assert s.calls[t].Closing? && s.calls[t].point == Locked;
    }
  }

  lemma StepKeepsClosed(run: seq<System>, i: nat)
    requires IsRun(run) && i + 1 < |run|
    ensures run[i].host.closed ==> run[i + 1].host.closed
  {
    RunKeepsInv(run, i);
    assert StepAt(run, i);
    NextKeepsInv(run[i], run[i + 1]);
  }

  lemma {:induction false} ClosedNeverReverts(run: seq<System>, i: nat, j: nat)
    requires IsRun(run) && i <= j < |run| && run[i].host.closed
    ensures run[j].host.closed
    decreases j
  {
    if i < j {
      ClosedNeverReverts(run, i, j - 1);
      StepKeepsClosed(run, j - 1);
    }
  }

  // ---------------------------------------------------------------- progress

  predicate Finished(c: Call) {
    c == NoCall || c == Refused || c.Returned?
  }

  /** A bound on the steps a call still has to take. */
  function StepsLeft(c: Call): nat {
    match c
    case RunEntry => 12
    case RunLocked => 11
    case RunReady => 10
    case Listening => 9
    case RunCatch(_) => 8
    case Closing(Entry, _, _) => 7
    case Closing(Locked, _, _) => 6
    case Closing(AtListener, _, _) => 5
    case Closing(AtDispatcher, _, _) => 4
    case Closing(AtMap, _, _) => 3
    case Closing(AtRuntime, _, _) => 2
    case Closing(AtRelease, _, _) => 1
    case _ => 0
  }

  lemma StepsRunOut(h: Host, t: Tid, c: Call, choice: Choice)
    requires Step(h, t, c, choice).Some?
    ensures StepsLeft(Step(h, t, c, choice).value.1) < StepsLeft(c)
  {
    match c
    case Closing(point, pending, failed) =>
      match point {
        case Entry =>
        case Locked =>
        case AtListener =>
        case AtDispatcher =>
        case AtMap =>
        case AtRuntime =>
        case AtRelease =>
      }
    case RunEntry =>
    case RunLocked =>
    case RunReady =>
    case Listening =>
    case RunCatch(expected) =>
  }

  /** Only the lock blocks a call, and never the call that holds it. */
  lemma OnlyTheLockBlocks(h: Host, t: Tid, c: Call, choice: Choice)
    requires !Finished(c) && (h.lifecycleLock == None || Holds(c))
    ensures Step(h, t, c, choice).Some?
  {
  }

  /** The lifecycle lock alone never deadlocks: while any call is unfinished,
      some thread can step. */
  lemma SomeoneCanStep(h: Host, calls: seq<Call>, waiting: Tid, choice: Choice)
    requires Inv(h, calls) && waiting < |calls| && !Finished(calls[waiting])
    ensures var t := if h.lifecycleLock.Some? then h.lifecycleLock.value else waiting;
            t < |calls| && Step(h, t, calls[t], choice).Some?
  {
    var t := if h.lifecycleLock.Some? then h.lifecycleLock.value else waiting;
    if h.lifecycleLock.Some? {
      assert Holds(calls[t]);
    }
    OnlyTheLockBlocks(h, t, calls[t], choice);
  }

  // ---------------------------------------------------------------- the object

  /** Which of the shutdowns raise when a close call makes them. */
  datatype Raises = Raises(listener: bool, dispatcher: bool, closeAll: bool, runtime: bool)

  /** What a close call leaves behind, and whether it raises: one more of every
      shutdown the server has, whichever of them raised. */
  function ClosedBy(h: Host, raises: Raises): (Host, bool) {
    if h.closed then (h, false) else
    var runtimeRaises := raises.runtime && h.setup.kind == TeamHost;
    (h.(closed := true, done := Shutdowns(
          h.done.listener + 1, h.done.dispatcher + Once(h.setup.hasDispatcher), h.done.closeAll + Once(h.setup.hasMap),
          h.done.runtime + 1, !raises.listener, !runtimeRaises)),
     raises.listener || (h.setup.hasDispatcher && raises.dispatcher) || (h.setup.hasMap && raises.closeAll) || runtimeRaises)
  }

  function RunBy(h: Host, raised: bool, raises: Raises): (Host, Call) {
    if h.closed || h.runStarted then (h, Refused) else
    var (h', failed) := ClosedBy(h.(runStarted := true, listenerRuns := h.listenerRuns + 1), raises);
    (h', Returned(raised || failed))
  }

  /** The server object used by one thread. */
  class Server {
    const setup: Setup
    var closed: bool
    var runStarted: bool
    var listenerRuns: nat
    var done: Shutdowns

    ghost function View(): Host
      reads this
    {
      Host(setup, closed, runStarted, None, listenerRuns, done)
    }

    constructor (setup: Setup)
      ensures View() == NewHost(setup)
    {
      this.setup := setup;
      closed, runStarted, listenerRuns, done := false, false, 0, Shutdowns(0, 0, 0, 0, false, false);
    }

    /** Every shutdown is tried, whichever of the earlier ones raised. */
    method Close(raises: Raises) returns (failed: bool)
      modifies this
      ensures (View(), failed) == ClosedBy(old(View()), raises)
    {
      failed := false;
      if closed {
        return;
      }
      closed := true;
      done := done.(listener := done.listener + 1, listenerClosed := !raises.listener);
      failed := raises.listener;
      if setup.hasDispatcher {
        done := done.(dispatcher := done.dispatcher + 1);
        failed := failed || raises.dispatcher;
      }
      if setup.hasMap {
        done := done.(closeAll := done.closeAll + 1);
        failed := failed || raises.closeAll;
      }
      var runtimeRaises := raises.runtime && setup.kind == TeamHost;
      done := done.(runtime := done.runtime + 1, runtimeClosed := !runtimeRaises);
      failed := failed || runtimeRaises;
    }

    /** listenerRaised: the listener's own run raised while nobody had closed it. */
    method Run(listenerRaised: bool, raises: Raises) returns (outcome: Call)
      modifies this
      ensures (View(), outcome) == RunBy(old(View()), listenerRaised, raises)
    {
      if closed || runStarted {
        return Refused;
      }
      runStarted := true;
      listenerRuns := listenerRuns + 1;
      var failed := Close(raises);
      return Returned(listenerRaised || failed);
    }
  }

  /** A thread that makes all these steps with nobody in between. */
  function Alone(h: Host, t: Tid, c: Call, choices: seq<Choice>): Option<(Host, Call)>
    decreases |choices|
  {
    if choices == [] then Some((h, c)) else
    match Step(h, t, c, choices[0])
    case None => None
    case Some((h', c')) => Alone(h', t, c', choices[1..])
  }

  function Failing(raised: bool): Choice { if raised then Raise else Normal }

  /** How the four shutdowns end, then the rest. */
  function ShutdownEnds(raises: Raises, rest: seq<Choice>): seq<Choice> {
    [Failing(raises.listener)] + ([Failing(raises.dispatcher)] + ([Failing(raises.closeAll)]
      + ([Failing(raises.runtime)] + rest)))
  }

  function ShutdownChoices(raises: Raises): seq<Choice> {
    [Normal] + ([Normal] + ShutdownEnds(raises, [Normal]))
  }

  lemma OneStep(h: Host, t: Tid, c: Call, choice: Choice, rest: seq<Choice>)
    requires Step(h, t, c, choice).Some?
    ensures var (h', c') := Step(h, t, c, choice).value; Alone(h, t, c, [choice] + rest) == Alone(h', t, c', rest)
  {
    assert ([choice] + rest)[1..] == rest;
  }

  lemma OneShutdown(h: Host, t: Tid, point: ClosePoint, pending: bool, failed: bool, raised: bool, rest: seq<Choice>)
    requires point in {AtListener, AtDispatcher, AtMap, AtRuntime}
    ensures var (done, raises) := Shut(h.setup, h.done, point, raised);
            Alone(h, t, Closing(point, pending, failed), [Failing(raised)] + rest)
            == Alone(h.(done := done), t, Closing(After(point), pending, failed || raises), rest)
  {
    OneStep(h, t, Closing(point, pending, failed), Failing(raised), rest);
  }

  /** The four shutdowns as close makes them, one after the other. */
  function AllShut(setup: Setup, done: Shutdowns, raises: Raises): (Shutdowns, bool) {
    var shut1 := Shut(setup, done, AtListener, raises.listener);
    var shut2 := Shut(setup, shut1.0, AtDispatcher, raises.dispatcher);
    var shut3 := Shut(setup, shut2.0, AtMap, raises.closeAll);
    var shut4 := Shut(setup, shut3.0, AtRuntime, raises.runtime);
    (shut4.0, shut1.1 || shut2.1 || shut3.1 || shut4.1)
  }

  lemma AllShutIsClosed(h: Host, raises: Raises)
    requires !h.closed
    ensures var shut := AllShut(h.setup, h.done, raises); ClosedBy(h, raises) == (h.(closed := true, done := shut.0), shut.1)
  {
  }

  lemma FourShutdowns(h: Host, t: Tid, pending: bool, raises: Raises, rest: seq<Choice>)
    ensures var shut := AllShut(h.setup, h.done, raises);
            Alone(h, t, Closing(AtListener, pending, false), ShutdownEnds(raises, rest))
            == Alone(h.(done := shut.0), t, Closing(AtRelease, pending, shut.1), rest)
  {
    var tail3 := [Failing(raises.runtime)] + rest;
    var tail2 := [Failing(raises.closeAll)] + tail3;
    var tail1 := [Failing(raises.dispatcher)] + tail2;
    var shut1 := Shut(h.setup, h.done, AtListener, raises.listener);
    var shut2 := Shut(h.setup, shut1.0, AtDispatcher, raises.dispatcher);
    var shut3 := Shut(h.setup, shut2.0, AtMap, raises.closeAll);
    OneShutdown(h, t, AtListener, pending, false, raises.listener, tail1);
    OneShutdown(h.(done := shut1.0), t, AtDispatcher, pending, shut1.1, raises.dispatcher, tail2);
    OneShutdown(h.(done := shut2.0), t, AtMap, pending, shut1.1 || shut2.1, raises.closeAll, tail3);
    OneShutdown(h.(done := shut3.0), t, AtRuntime, pending, shut1.1 || shut2.1 || shut3.1, raises.runtime, rest);
  }

  lemma LastStep(h: Host, t: Tid, pending: bool, failed: bool)
    ensures Alone(h, t, Closing(AtRelease, pending, failed), [Normal])
            == Some((h.(lifecycleLock := None), Returned(pending || failed)))
  {
    assert Alone(h.(lifecycleLock := None), t, Returned(pending || failed), [Normal][1..])
        == Some((h.(lifecycleLock := None), Returned(pending || failed)));
  }

  /** The choices of a close call: a closed host is left at the test of closed. */
  function CloseChoices(h: Host, raises: Raises): seq<Choice> {
    if h.closed then [Normal] + [Normal] else ShutdownChoices(raises)
  }

  lemma LastRefusal(h: Host, t: Tid, c: Call)
    requires h.lifecycleLock == Some(t)
    requires if c == RunLocked then h.closed || h.runStarted else c.Closing? && c.point == Locked && h.closed
    ensures Alone(h, t, c, [Normal])
            == Some((h.(lifecycleLock := None), if c == RunLocked then Refused else Returned(c.pending)))
  {
    var ended := if c == RunLocked then Refused else Returned(c.pending);
    assert Alone(h.(lifecycleLock := None), t, ended, [Normal][1..]) == Some((h.(lifecycleLock := None), ended));
  }

  /** What the step machine does when one thread closes a host undisturbed, open
      or closed already, is what the object's method does. */
  lemma CloseIsTheSteps(h: Host, t: Tid, pending: bool, raises: Raises)
    requires h.lifecycleLock == None
    ensures var (h', failed) := ClosedBy(h, raises);
            Alone(h, t, Closing(Entry, pending, false), CloseChoices(h, raises)) == Some((h', Returned(pending || failed)))
  {
    var locked := h.(lifecycleLock := Some(t));
    if h.closed {
      OneStep(h, t, Closing(Entry, pending, false), Normal, [Normal]);
      LastRefusal(locked, t, Closing(Locked, pending, false));
    } else {
      var (h', failed) := ClosedBy(locked, raises);
      OneStep(h, t, Closing(Entry, pending, false), Normal, [Normal] + ShutdownEnds(raises, [Normal]));
      OneStep(locked, t, Closing(Locked, pending, false), Normal, ShutdownEnds(raises, [Normal]));
      AllShutIsClosed(locked, raises);
      FourShutdowns(locked.(closed := true), t, pending, raises, [Normal]);
      LastStep(h', t, pending, failed);
    }
  }

  /** The choices of a run call: a closed or already run host refuses it. */
  function RunChoices(h: Host, listenerRaised: bool, raises: Raises): seq<Choice> {
    if h.closed || h.runStarted then [Normal] + [Normal]
    else [Normal] + ([Normal] + ([Normal] + ([Failing(listenerRaised)] + ShutdownChoices(raises))))
  }

  /** The same for run, in every state of the host. */
  lemma RunIsTheSteps(h: Host, t: Tid, listenerRaised: bool, raises: Raises)
    requires h.lifecycleLock == None
    ensures Alone(h, t, RunEntry, RunChoices(h, listenerRaised, raises)) == Some(RunBy(h, listenerRaised, raises))
  {
    var locked := h.(lifecycleLock := Some(t));
    if h.closed || h.runStarted {
      OneStep(h, t, RunEntry, Normal, [Normal]);
      LastRefusal(locked, t, RunLocked);
    } else {
      var started := h.(runStarted := true);
      var serving := started.(listenerRuns := h.listenerRuns + 1);
      var closing := ShutdownChoices(raises);
      OneStep(h, t, RunEntry, Normal, [Normal] + ([Normal] + ([Failing(listenerRaised)] + closing)));
      OneStep(locked, t, RunLocked, Normal, [Normal] + ([Failing(listenerRaised)] + closing));
      OneStep(started, t, RunReady, Normal, [Failing(listenerRaised)] + closing);
      OneStep(serving, t, Listening, Failing(listenerRaised), closing);
      CloseIsTheSteps(serving, t, listenerRaised, raises);
    }
  }

  /** An object between calls: not used yet, or closed with every shutdown made once. */
  predicate UsedOnce(h: Host) {
    if h.closed then Settled(h) && h.listenerRuns == Once(h.runStarted)
    else h == NewHost(h.setup)
  }

  lemma FirstCloseSettles(h: Host, raises: Raises)
    requires !h.closed && DoneAt(h.setup, h.done, Entry)
    ensures var after := ClosedBy(h, raises).0;
            Settled(after) && after.setup == h.setup && after.runStarted == h.runStarted && after.listenerRuns == h.listenerRuns
  {
  }

  /** On one object nothing is made twice: once closed it stays as it is, a
      second close raises nothing, and a run is refused exactly when the host is
      closed already. */
  lemma CallsKeepUsedOnce(h: Host, listenerRaised: bool, raises: Raises)
    requires UsedOnce(h)
    ensures var closed, run := ClosedBy(h, raises).0, RunBy(h, listenerRaised, raises);
            && UsedOnce(closed) && UsedOnce(run.0) && closed.closed && run.0.closed
            && ClosedBy(closed, raises) == (closed, false) && RunBy(run.0, listenerRaised, raises) == (run.0, Refused)
            && (run.1 == Refused <==> h.closed)
  {
    if !h.closed {
      FirstCloseSettles(h, raises);
      FirstCloseSettles(h.(runStarted := true, listenerRuns := 1), raises);
      hide ClosedBy, DoneAt;
    }
  }
}
