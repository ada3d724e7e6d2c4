/** SvcDoRun and any number of SvcStop calls of
    src/causure/team_windows_service_entry.py, interleaved: a stop flag, the
    controller lock, the controller field, and the host of HostServer below it. */
module ServiceShutdown {
  import opened Vocabulary
  import opened HostServer

  /** Where SvcDoRun stands. Publishing, Testing and Clearing hold the
      controller lock; stop is the value of the flag that SvcDoRun read. */
  datatype Main =
    | Starting | Created | Publishing | Testing
    | Calling(stop: bool, call: Call)
    | Finishing(failed: bool) | Clearing(failed: bool)
    | FinalClose(call: Call, failed: bool, controlFailed: bool)
    | Ended(failed: bool)

  /** Where one SvcStop stands. InControl, StopClosing and Leaving hold the lock. */
  datatype Stop = Idle | Flagged | InControl | StopClosing(call: Call) | Leaving | Stopped

  datatype Service = Service(
    flag: bool, controllerLock: Option<Tid>, created: bool, published: bool, controlFailure: bool,
    host: Host, main: Main, stops: seq<Stop>)

  predicate Failed(c: Call) {
    c == Refused || c == Returned(true)
  }

  function MainCall(m: Main): Call {
    if m.Calling? || m.FinalClose? then m.call else NoCall
  }

  function StopCall(s: Stop): Call {
    if s.StopClosing? then s.call else NoCall
  }

  /** Thread 0 is SvcDoRun, thread i + 1 the i-th stop. */
  function Calls(s: Service): (calls: seq<Call>)
    ensures |calls| == 1 + |s.stops| && calls[0] == MainCall(s.main)
    ensures forall i :: 0 <= i < |s.stops| ==> calls[i + 1] == StopCall(s.stops[i])
  {
    [MainCall(s.main)] + seq(|s.stops|, i requires 0 <= i < |s.stops| => StopCall(s.stops[i]))
  }

  function MainStep(s: Service, choice: Choice): Option<Service> {
    match s.main
    case Starting => Some(if choice == Normal then s.(created := true, main := Created) else s.(main := Finishing(true)))
    case Created => if s.controllerLock == None then Some(s.(controllerLock := Some(0), main := Publishing)) else None
    case Publishing => Some(s.(published := true, main := Testing))
    case Testing =>
      Some(s.(controllerLock := None, main := Calling(s.flag, if s.flag then CloseCall() else RunEntry)))
    case Calling(stop, call) =>
      if Finished(call) then Some(s.(main := Finishing(Failed(call))))
      else (match Step(s.host, 0, call, choice)
            case None => None
            case Some((host, next)) => Some(s.(host := host, main := Calling(stop, next))))
    case Finishing(failed) =>
      if s.controllerLock == None then Some(s.(controllerLock := Some(0), main := Clearing(failed))) else None
    case Clearing(failed) =>
      Some(s.(controllerLock := None, published := false,
              main := if s.created then FinalClose(CloseCall(), failed, s.controlFailure)
                      else Ended(failed || s.controlFailure)))
    case FinalClose(call, failed, controlFailed) =>
      if Finished(call) then Some(s.(main := Ended(failed || Failed(call) || controlFailed)))
      else (match Step(s.host, 0, call, choice)
            case None => None
            case Some((host, next)) => Some(s.(host := host, main := FinalClose(next, failed, controlFailed))))
    case Ended(_) => None
  }

  function StopStep(s: Service, i: nat, choice: Choice): Option<Service>
    requires i < |s.stops|
  {
    match s.stops[i]
    case Idle => Some(s.(flag := true, stops := s.stops[i := Flagged]))
    case Flagged =>
      if s.controllerLock == None then Some(s.(controllerLock := Some(i + 1), stops := s.stops[i := InControl])) else None
    case InControl => Some(s.(stops := s.stops[i := if s.published then StopClosing(CloseCall()) else Leaving]))
    case StopClosing(call) =>
      if Finished(call)
      then Some(s.(controlFailure := s.controlFailure || Failed(call), stops := s.stops[i := Leaving]))
      else (match Step(s.host, i + 1, call, choice)
            case None => None
            case Some((host, next)) => Some(s.(host := host, stops := s.stops[i := StopClosing(next)])))
    case Leaving => Some(s.(controllerLock := None, stops := s.stops[i := Stopped]))
    case Stopped => None
  }

  function ServiceStep(s: Service, t: Tid, choice: Choice): Option<Service>
    requires t <= |s.stops|
  {
    if t == 0 then MainStep(s, choice) else StopStep(s, t - 1, choice)
  }

  // ---------------------------------------------------------------- the invariant

  predicate MainHolds(m: Main) { m == Publishing || m == Testing || m.Clearing? }

  predicate StopHolds(s: Stop) { s == InControl || s.StopClosing? || s == Leaving }

  ghost predicate ControllerLockHeld(s: Service) {
    && (MainHolds(s.main) <==> s.controllerLock == Some(0))
    && (forall i :: 0 <= i < |s.stops| ==> (StopHolds(s.stops[i]) <==> s.controllerLock == Some(i + 1)))
    && (s.controllerLock.Some? ==> s.controllerLock.value <= |s.stops|)
  }

  /** Which calls each phase makes, when the controller is visible, and what
      the host has been through. Leaving Calling, the host is closed. */
  predicate MainPhase(s: Service) {
    match s.main
    case Starting => !s.created && !s.published && s.host == NewHost(s.host.setup)
    case Created | Publishing => s.created && !s.published && s.host == NewHost(s.host.setup)
    case Testing => s.created && s.published && s.host == NewHost(s.host.setup)
    case Calling(stop, call) =>
      && s.created && s.published && call != NoCall
      && (stop ==> (call.Closing? || call.Returned?) && !s.host.runStarted)
      && (call == RunEntry || call == RunLocked ==> !s.host.runStarted)
      && (call == Refused ==> s.host.closed)
    case Finishing(_) | Clearing(_) =>
      s.published == s.created && if s.created then s.host.closed else s.host == NewHost(s.host.setup)
    case FinalClose(call, failed, controlFailed) =>
      && s.created && !s.published && (call.Closing? || call.Returned?) && s.host.closed
      && (s.controlFailure ==> controlFailed)
    case Ended(failed) =>
      && !s.published && (s.controlFailure ==> failed)
      && if s.created then s.host.closed else s.host == NewHost(s.host.setup)
  }

  ghost predicate StopPhases(s: Service) {
    && (forall i :: 0 <= i < |s.stops| && s.stops[i] != Idle ==> s.flag)
    && (forall i :: 0 <= i < |s.stops| && s.stops[i].StopClosing? ==>
          s.published && (s.stops[i].call.Closing? || s.stops[i].call.Returned?))
  }

  predicate Done(s: Stop) { s == Leaving || s == Stopped }

  /** A stop that has done its work has closed a host that SvcDoRun is running. */
  ghost predicate StopSeen(s: Service) {
    s.main.Calling? && !s.main.stop ==> forall i :: 0 <= i < |s.stops| && Done(s.stops[i]) ==> s.host.closed
  }

  /** The call of the stop that holds the controller lock. */
  function HolderCall(s: Service): Call {
    if s.controllerLock.Some? && 0 < s.controllerLock.value <= |s.stops| then StopCall(s.stops[s.controllerLock.value - 1])
    else NoCall
  }

  /** If the host is closed under a running SvcDoRun, its listener is closed, or
      the failure to close it is recorded or about to be. */
  predicate FailureSeen(s: Service) {
    s.main.Calling? && (InRun(s.main.call) || s.main.call in {RunEntry, RunLocked}) && s.host.closed ==>
      s.host.done.listenerClosed || s.controlFailure || ShuttingDown(HolderCall(s)) || HolderCall(s) == Returned(true)
  }

  ghost predicate ServiceInv(s: Service) {
    Inv(s.host, Calls(s)) && ControllerLockHeld(s) && MainPhase(s) && StopPhases(s) && StopSeen(s) && FailureSeen(s)
  }

  // -- how the host's invariant follows

  /** Starting a call, or forgetting one that has ended, touches no host state. */
  lemma CallChanges(h: Host, calls: seq<Call>, t: Tid, c: Call)
    requires Inv(h, calls) && t < |calls|
    requires Finished(calls[t]) && (c == NoCall || c == RunEntry || c == CloseCall())
    ensures Inv(h, calls[t := c])
  {
    var calls' := calls[t := c];
    assert LockHeld(h, calls');
    assert RunsOnce(h, calls');
    if h.closed && NobodyShutting(calls') {
      assert forall u :: 0 <= u < |calls| && u != t ==> calls'[u] == calls[u];
      assert NobodyShutting(calls);
    }
    assert ClosesOnce(h, calls');
  }

  lemma MainCallMoves(s: Service, choice: Choice)
    requires MainStep(s, choice).Some?
    ensures var s' := MainStep(s, choice).value; Calls(s') == Calls(s)[0 := MainCall(s'.main)]
  {
    hide MainStep;
    MainFrame(s, choice);
    var s' := MainStep(s, choice).value;
    var moved := Calls(s)[0 := MainCall(s'.main)];
    forall t | 0 <= t < |moved| ensures Calls(s')[t] == moved[t] {
      if t > 0 {
        assert Calls(s')[t - 1 + 1] == StopCall(s.stops[t - 1]);
        assert Calls(s)[t - 1 + 1] == StopCall(s.stops[t - 1]);
      }
    }
  }

  predicate MainSteps(m: Main) {
    (m.Calling? || m.FinalClose?) && !Finished(m.call)
  }

  lemma MainFrame(s: Service, choice: Choice)
    requires MainStep(s, choice).Some?
    ensures var s' := MainStep(s, choice).value;
            && s'.stops == s.stops && s'.flag == s.flag && s'.controlFailure == s.controlFailure
            && (if MainSteps(s.main) then Step(s.host, 0, MainCall(s.main), choice) == Some((s'.host, MainCall(s'.main)))
                else s'.host == s.host && Finished(MainCall(s.main))
                     && MainCall(s'.main) in {NoCall, RunEntry, CloseCall()})
  {
    hide Step;
    match s.main
    case Starting =>
    case Created =>
    case Publishing =>
    case Testing =>
    case Calling(stop, call) =>
    case Finishing(failed) =>
    case Clearing(failed) =>
    case FinalClose(call, failed, controlFailed) =>
  }

  lemma MainStepKeepsHostInv(s: Service, choice: Choice)
    requires Inv(s.host, Calls(s)) && MainStep(s, choice).Some?
    ensures var s' := MainStep(s, choice).value; Inv(s'.host, Calls(s'))
  {
    hide Inv, Step, MainStep;
    var s' := MainStep(s, choice).value;
    MainFrame(s, choice);
    MainCallMoves(s, choice);
    if MainSteps(s.main) {
      StepKeepsInv(s.host, Calls(s), 0, choice);
    } else {
      CallChanges(s.host, Calls(s), 0, MainCall(s'.main));
    }
  }

  /** Calls after one stop has moved. */
  lemma StopCallMoves(s: Service, s': Service, i: nat)
    requires i < |s.stops| && |s'.stops| == |s.stops| && s'.stops == s.stops[i := s'.stops[i]]
    requires MainCall(s'.main) == MainCall(s.main)
    ensures Calls(s') == Calls(s)[i + 1 := StopCall(s'.stops[i])]
  {
    var moved := Calls(s)[i + 1 := StopCall(s'.stops[i])];
    forall t | 0 <= t < |moved| ensures Calls(s')[t] == moved[t] {
      if t > 0 {
        assert Calls(s')[t - 1 + 1] == StopCall(s'.stops[t - 1]);
        assert Calls(s)[t - 1 + 1] == StopCall(s.stops[t - 1]);
      }
    }
  }

  lemma StopFrame(s: Service, i: nat, choice: Choice)
    requires i < |s.stops| && StopStep(s, i, choice).Some?
    ensures var s' := StopStep(s, i, choice).value;
            && |s'.stops| == |s.stops| && s'.stops == s.stops[i := s'.stops[i]]
            && s'.main == s.main && s'.created == s.created && s'.published == s.published
            && (s.flag ==> s'.flag)
  {
    hide Step;
  }

  predicate StopSteps(stop: Stop) {
    stop.StopClosing? && !Finished(stop.call)
  }

  lemma StopCalls(s: Service, i: nat, choice: Choice)
    requires i < |s.stops| && StopStep(s, i, choice).Some?
    ensures var s' := StopStep(s, i, choice).value;
            && |s'.stops| == |s.stops|
            && (if StopSteps(s.stops[i]) then Step(s.host, i + 1, StopCall(s.stops[i]), choice) == Some((s'.host, StopCall(s'.stops[i])))
                else s'.host == s.host && Finished(StopCall(s.stops[i])) && StopCall(s'.stops[i]) in {NoCall, CloseCall()})
  {
    hide Step;
  }

  lemma StopStepKeepsHostInv(s: Service, i: nat, choice: Choice)
    requires Inv(s.host, Calls(s)) && i < |s.stops| && StopStep(s, i, choice).Some?
    ensures var s' := StopStep(s, i, choice).value; Inv(s'.host, Calls(s'))
  {
    hide Inv, Step, StopStep;
    var s' := StopStep(s, i, choice).value;
    StopFrame(s, i, choice);
    StopCallMoves(s, s', i);
    StopCalls(s, i, choice);
    assert Calls(s)[i + 1] == StopCall(s.stops[i]);
    if StopSteps(s.stops[i]) {
      StepKeepsInv(s.host, Calls(s), i + 1, choice);
    } else {
      CallChanges(s.host, Calls(s), i + 1, StopCall(s'.stops[i]));
    }
  }

  // -- what the callers see of the host

  lemma HostStepFacts(h: Host, calls: seq<Call>, t: Tid, choice: Choice)
    requires Inv(h, calls) && t < |calls| && Step(h, t, calls[t], choice).Some?
    ensures var (h', c') := Step(h, t, calls[t], choice).value;
            && (h.closed ==> h'.closed) && c' != NoCall && (calls[t].Closing? ==> c'.Closing? || c'.Returned?)
            && (h.listenerRuns <= h'.listenerRuns) && (calls[t].Closing? ==> h'.runStarted == h.runStarted)
            && (c' == RunEntry || c' == RunLocked ==> calls[t] == RunEntry && h'.runStarted == h.runStarted)
            && (c' == Refused ==> h.closed || h.runStarted)
            && (c' == Refused ==> calls[t] == RunLocked)
            && h'.setup == h.setup
  {
    StepMovesClose(h, t, calls[t], choice);
    StepMovesRun(h, t, calls[t], choice);
    if calls[t].Closing? {
      CloseLeavesRun(h, t, calls[t].point, calls[t].pending, calls[t].failed, choice != Normal);
    }
  }

  lemma ReturnedMeansClosed(h: Host, calls: seq<Call>, t: Tid)
    requires Inv(h, calls) && t < |calls| && calls[t].Returned?
    ensures h.closed
  {
  }

  // -- the other invariants

  /** Thread t's step takes the lock only when it is free and gives it up when it leaves. */
  predicate SectionMoves(before: Option<Tid>, after: Option<Tid>, t: Tid, held: bool, holds: bool) {
    if held == holds then after == before
    else if holds then before == None && after == Some(t)
    else after == None
  }

  lemma MainMovesLock(s: Service, choice: Choice)
    requires MainStep(s, choice).Some?
    ensures var s' := MainStep(s, choice).value;
            SectionMoves(s.controllerLock, s'.controllerLock, 0, MainHolds(s.main), MainHolds(s'.main))
  {
    hide Step;
  }

  lemma StopMovesLock(s: Service, i: nat, choice: Choice)
    requires i < |s.stops| && StopStep(s, i, choice).Some?
    ensures var s' := StopStep(s, i, choice).value;
            |s'.stops| == |s.stops|
            && SectionMoves(s.controllerLock, s'.controllerLock, i + 1, StopHolds(s.stops[i]), StopHolds(s'.stops[i]))
  {
    hide Step;
  }

  lemma MainKeepsLock(s: Service, choice: Choice)
    requires ControllerLockHeld(s) && MainStep(s, choice).Some?
    ensures ControllerLockHeld(MainStep(s, choice).value)
  {
    hide Step, MainStep;
    MainFrame(s, choice);
    MainMovesLock(s, choice);
  }

  lemma StopKeepsLock(s: Service, i: nat, choice: Choice)
    requires ControllerLockHeld(s) && i < |s.stops| && StopStep(s, i, choice).Some?
    ensures ControllerLockHeld(StopStep(s, i, choice).value)
  {
    hide Step, StopStep;
    StopFrame(s, i, choice);
    StopMovesLock(s, i, choice);
  }

  /** Nobody is inside a stop's critical section while SvcDoRun is in one of its own. */
  lemma SectionsExclude(s: Service, i: nat)
    requires ControllerLockHeld(s) && i < |s.stops|
    ensures !(MainHolds(s.main) && StopHolds(s.stops[i]))
    ensures s.controllerLock == None ==> !MainHolds(s.main) && !StopHolds(s.stops[i])
  {
  }

  lemma MainKeepsPhase(s: Service, choice: Choice)
    requires ServiceInv(s) && MainStep(s, choice).Some?
    ensures MainPhase(MainStep(s, choice).value)
  {
    hide Step, Inv, ControllerLockHeld, StopPhases, StopSeen;
    if MainSteps(s.main) {
      HostStepFacts(s.host, Calls(s), 0, choice);
    } else if MainCall(s.main).Returned? {
      ReturnedMeansClosed(s.host, Calls(s), 0);
    }
  }

  lemma StopKeepsPhase(s: Service, i: nat, choice: Choice)
    requires ServiceInv(s) && i < |s.stops| && StopStep(s, i, choice).Some?
    ensures MainPhase(StopStep(s, i, choice).value)
  {
    hide Step, Inv, ControllerLockHeld, StopSeen, FailureSeen;
    StopFrame(s, i, choice);
    SectionsExclude(s, i);
    if s.stops[i].StopClosing? {
      StopHostFacts(s, i, choice);
    }
  }

  lemma StopHostFacts(s: Service, i: nat, choice: Choice)
    requires Inv(s.host, Calls(s)) && i < |s.stops| && s.stops[i].StopClosing?
    ensures s.stops[i].call.Returned? ==> s.host.closed
    ensures Step(s.host, i + 1, s.stops[i].call, choice).Some? ==>
              var (h', c') := Step(s.host, i + 1, s.stops[i].call, choice).value;
              && (s.host.closed ==> h'.closed) && (s.stops[i].call.Closing? ==> c'.Closing? || c'.Returned?)
              && (s.stops[i].call.Closing? ==> h'.runStarted == s.host.runStarted)
  {
    hide Inv, Step;
    assert Calls(s)[i + 1] == s.stops[i].call;
    if s.stops[i].call.Returned? {
      ReturnedMeansClosed(s.host, Calls(s), i + 1);
    }
    if Step(s.host, i + 1, s.stops[i].call, choice).Some? {
      HostStepFacts(s.host, Calls(s), i + 1, choice);
    }
  }

  lemma MainKeepsStops(s: Service, choice: Choice)
    requires ServiceInv(s) && MainStep(s, choice).Some?
    ensures StopPhases(MainStep(s, choice).value)
  {
    hide Step, Inv, StopSeen;
    MainFrame(s, choice);
    var s' := MainStep(s, choice).value;
    forall i | 0 <= i < |s'.stops| && s'.stops[i].StopClosing?
      ensures s'.published && (s'.stops[i].call.Closing? || s'.stops[i].call.Returned?)
    {
      SectionsExclude(s, i);
    }
  }

  lemma StopKeepsStops(s: Service, i: nat, choice: Choice)
    requires ServiceInv(s) && i < |s.stops| && StopStep(s, i, choice).Some?
    ensures StopPhases(StopStep(s, i, choice).value)
  {
    hide Step, Inv, StopSeen, MainPhase, ControllerLockHeld;
    StopFrame(s, i, choice);
    if s.stops[i].StopClosing? {
      StopHostFacts(s, i, choice);
    }
    var s' := StopStep(s, i, choice).value;
    forall j | 0 <= j < |s'.stops| && s'.stops[j] != Idle ensures s'.flag {
      assert j != i ==> s'.stops[j] == s.stops[j];
    }
  }

  lemma MainKeepsSeen(s: Service, choice: Choice)
    requires ServiceInv(s) && MainStep(s, choice).Some?
    ensures StopSeen(MainStep(s, choice).value)
  {
    hide Step, Inv, ControllerLockHeld;
    MainFrame(s, choice);
    if MainSteps(s.main) {
      HostStepFacts(s.host, Calls(s), 0, choice);
    }
  }

  lemma StopKeepsSeen(s: Service, i: nat, choice: Choice)
    requires ServiceInv(s) && i < |s.stops| && StopStep(s, i, choice).Some?
    ensures StopSeen(StopStep(s, i, choice).value)
  {
    hide Step, Inv, ControllerLockHeld;
    StopFrame(s, i, choice);
    if s.stops[i].StopClosing? {
      StopHostFacts(s, i, choice);
    }
    var s' := StopStep(s, i, choice).value;
    if s'.main.Calling? && !s'.main.stop {
      forall j | 0 <= j < |s'.stops| && Done(s'.stops[j]) ensures s'.host.closed {
        assert j != i ==> s'.stops[j] == s.stops[j];
      }
    }
  }

  /** A thread that is not shutting the host down leaves its shutdowns alone. */
  lemma ShutdownFacts(h: Host, calls: seq<Call>, t: Tid, choice: Choice)
    requires Inv(h, calls) && t < |calls| && Step(h, t, calls[t], choice).Some?
    ensures var (h', c') := Step(h, t, calls[t], choice).value;
            && (!ShuttingDown(calls[t]) && !ShuttingDown(c') ==> h'.closed == h.closed && h'.done == h.done)
            && (ShuttingDown(calls[t]) ==> ShuttingDown(c') || c' == Returned(true) || h'.done.listenerClosed)
            && (InRun(calls[t]) || calls[t] in {RunEntry, RunLocked} ==> !ShuttingDown(c'))
            && (InRun(c') || c' in {RunEntry, RunLocked} ==> InRun(calls[t]) || calls[t] in {RunEntry, RunLocked})
  {
    StepMovesClose(h, t, calls[t], choice);
  }

  lemma MainKeepsFailure(s: Service, choice: Choice)
    requires ServiceInv(s) && MainStep(s, choice).Some?
    ensures FailureSeen(MainStep(s, choice).value)
  {
    hide Inv, Step, ControllerLockHeld, StopPhases, StopSeen;
    MainFrame(s, choice);
    if MainSteps(s.main) {
      ShutdownFacts(s.host, Calls(s), 0, choice);
    }
  }

  lemma StopKeepsFailure(s: Service, i: nat, choice: Choice)
    requires ServiceInv(s) && i < |s.stops| && StopStep(s, i, choice).Some?
    ensures FailureSeen(StopStep(s, i, choice).value)
  {
    hide Inv, Step, StopPhases, StopSeen;
    StopFrame(s, i, choice);
    StopCalls(s, i, choice);
    StopMovesLock(s, i, choice);
    if StopSteps(s.stops[i]) {
      assert Calls(s)[i + 1] == s.stops[i].call;
      ShutdownFacts(s.host, Calls(s), i + 1, choice);
    }
  }

  /** Every step of SvcDoRun and of every stop keeps the invariant. */
  lemma ServiceStepKeepsInv(s: Service, t: Tid, choice: Choice)
    requires ServiceInv(s) && t <= |s.stops| && ServiceStep(s, t, choice).Some?
    ensures ServiceInv(ServiceStep(s, t, choice).value)
  {
    hide Inv, ControllerLockHeld, MainPhase, StopPhases, StopSeen, FailureSeen, MainStep, StopStep;
    if t == 0 {
      MainStepKeepsHostInv(s, choice);
      MainKeepsLock(s, choice);
      MainKeepsPhase(s, choice);
      MainKeepsStops(s, choice);
      MainKeepsSeen(s, choice);
      MainKeepsFailure(s, choice);
    } else {
      StopStepKeepsHostInv(s, t - 1, choice);
      StopKeepsLock(s, t - 1, choice);
      StopKeepsPhase(s, t - 1, choice);
      StopKeepsStops(s, t - 1, choice);
      StopKeepsSeen(s, t - 1, choice);
      StopKeepsFailure(s, t - 1, choice);
    }
  }

  // ---------------------------------------------------------------- whole runs

  ghost predicate InitialService(s: Service) {
    && s == Service(false, None, false, false, false, NewHost(s.host.setup), Starting, s.stops)
    && forall i :: 0 <= i < |s.stops| ==> s.stops[i] == Idle
  }

  /** The moves of a run: which thread stepped, and how its library call ended. */
  datatype Move = Move(thread: Tid, choice: Choice)

  ghost predicate MoveAt(run: seq<Service>, moves: seq<Move>, i: nat)
    requires i + 1 < |run| && |moves| + 1 == |run|
  {
    moves[i].thread <= |run[i].stops| && ServiceStep(run[i], moves[i].thread, moves[i].choice) == Some(run[i + 1])
  }

  ghost predicate IsServiceRun(run: seq<Service>, moves: seq<Move>) {
    && |run| == |moves| + 1 && InitialService(run[0])
    && forall i :: 0 <= i < |moves| ==> MoveAt(run, moves, i)
  }

  lemma NewHostInv(h: Host, calls: seq<Call>)
    requires h == NewHost(h.setup) && forall t :: 0 <= t < |calls| ==> calls[t] == NoCall
    ensures Inv(h, calls)
  {
  }

  lemma InitialServiceInv(s: Service)
    requires InitialService(s)
    ensures ServiceInv(s)
  {
    hide Inv;
    forall t | 0 <= t < |Calls(s)| ensures Calls(s)[t] == NoCall {
      if t > 0 {
        assert Calls(s)[t - 1 + 1] == StopCall(s.stops[t - 1]);
      }
    }
    NewHostInv(s.host, Calls(s));
  }

  lemma {:induction false} ServiceRunKeepsInv(run: seq<Service>, moves: seq<Move>, i: nat)
    requires IsServiceRun(run, moves) && i < |run|
    ensures ServiceInv(run[i])
  {
    hide ServiceInv, ServiceStep, InitialService;
    if i == 0 {
      InitialServiceInv(run[0]);
    } else {
      ServiceRunKeepsInv(run, moves, i - 1);
      assert MoveAt(run, moves, i - 1);
      ServiceStepKeepsInv(run[i - 1], moves[i - 1].thread, moves[i - 1].choice);
    }
  }

  /** One move of a run never takes the run out of p. */
  ghost predicate Keeps(run: seq<Service>, k: nat, p: Service -> bool)
    requires k + 1 < |run|
  {
    p(run[k]) ==> p(run[k + 1])
  }

  lemma {:induction false} Stays(run: seq<Service>, i: nat, j: nat, p: Service -> bool)
    requires i <= j < |run| && p(run[i])
    requires forall k :: i <= k < j ==> Keeps(run, k, p)
    ensures p(run[j])
    decreases j
  {
    if i < j {
      Stays(run, i, j - 1, p);
      assert Keeps(run, j - 1, p);
    }
  }

  // ---------------------------------------------------------------- no stop is lost

  predicate Running(m: Main) {
    m.Calling? && !m.stop
  }

  /** The host is closed, or SvcDoRun has not started to run it and will see the flag. */
  predicate StopHeeded(s: Service) {
    s.host.closed || (s.flag && !Running(s.main))
  }

  lemma DoneMeansHeeded(s: Service, i: nat)
    requires ServiceInv(s) && i < |s.stops| && Done(s.stops[i])
    ensures StopHeeded(s)
  {
    hide Inv;
  }

  lemma MainKeepsHeeded(s: Service, choice: Choice)
    requires ServiceInv(s) && MainStep(s, choice).Some? && StopHeeded(s)
    ensures StopHeeded(MainStep(s, choice).value)
  {
    hide Inv, Step;
    if MainSteps(s.main) {
      HostStepFacts(s.host, Calls(s), 0, choice);
    }
  }

  lemma StopKeepsHeeded(s: Service, i: nat, choice: Choice)
    requires ServiceInv(s) && i < |s.stops| && StopStep(s, i, choice).Some? && StopHeeded(s)
    ensures StopHeeded(StopStep(s, i, choice).value)
  {
    hide Inv, Step;
    StopFrame(s, i, choice);
    if s.stops[i].StopClosing? {
      StopHostFacts(s, i, choice);
    }
  }

  lemma MoveKeepsHeeded(run: seq<Service>, moves: seq<Move>, k: nat)
    requires IsServiceRun(run, moves) && k + 1 < |run|
    ensures Keeps(run, k, StopHeeded)
  {
    hide ServiceInv, MainStep, StopStep, InitialService, StopHeeded;
    ServiceRunKeepsInv(run, moves, k);
    assert MoveAt(run, moves, k);
    if StopHeeded(run[k]) {
      if moves[k].thread == 0 {
        MainKeepsHeeded(run[k], moves[k].choice);
      } else {
        StopKeepsHeeded(run[k], moves[k].thread - 1, moves[k].choice);
      }
    }
  }

  lemma HeededMeansNotServing(s: Service)
    requires ServiceInv(s) && StopHeeded(s)
    ensures s.host.closed || (s.host.listenerRuns == 0 && !Running(s.main))
  {
    hide LockHeld, ClosesOnce, ControllerLockHeld;
  }

  /** A stop is never lost: from the moment SvcStop has left its critical
      section, the host is closed, or it has never been run and SvcDoRun is not
      on its way to run it. */
  lemma StopIsNeverLost(run: seq<Service>, moves: seq<Move>, i: nat, j: nat, k: nat)
    requires IsServiceRun(run, moves) && i <= j < |run| && k < |run[i].stops| && Done(run[i].stops[k])
    ensures run[j].host.closed || (run[j].host.listenerRuns == 0 && !Running(run[j].main))
  {
    hide ServiceInv, StopHeeded, IsServiceRun;
    ServiceRunKeepsInv(run, moves, i);
    ServiceRunKeepsInv(run, moves, j);
    DoneMeansHeeded(run[i], k);
    forall m | i <= m < j ensures Keeps(run, m, StopHeeded) {
      MoveKeepsHeeded(run, moves, m);
    }
    assert StopHeeded(run[i]);
    Stays(run, i, j, StopHeeded);
    HeededMeansNotServing(run[j]);
  }

  /** The flag is set and SvcDoRun has not read it as clear. */
  predicate Forewarned(s: Service) {
    s.flag && !Running(s.main) && !s.host.runStarted
  }

  lemma MoveKeepsForewarned(run: seq<Service>, moves: seq<Move>, k: nat)
    requires IsServiceRun(run, moves) && k + 1 < |run|
    ensures Keeps(run, k, Forewarned)
  {
    hide InitialService, LockHeld, ClosesOnce, RunsOnce, ControllerLockHeld, StopSeen, Step;
    ServiceRunKeepsInv(run, moves, k);
    assert MoveAt(run, moves, k);
    var s, t, choice := run[k], moves[k].thread, moves[k].choice;
    if Forewarned(s) {
      if t == 0 {
        MainFrame(s, choice);
        if MainSteps(s.main) {
          HostStepFacts(s.host, Calls(s), 0, choice);
        }
      } else {
        StopFrame(s, t - 1, choice);
        if s.stops[t - 1].StopClosing? {
          StopHostFacts(s, t - 1, choice);
        }
      }
    }
  }

  /** A stop that sets the flag before SvcDoRun reads it means that the
      listener never runs. */
  lemma EarlyStopNeverRuns(run: seq<Service>, moves: seq<Move>, i: nat, j: nat)
    requires IsServiceRun(run, moves) && i <= j < |run| && run[i].flag
    requires run[i].main in {Starting, Created, Publishing, Testing}
    ensures run[j].host.listenerRuns == 0
  {
    hide IsServiceRun, ControllerLockHeld, StopSeen, LockHeld, ClosesOnce;
    ServiceRunKeepsInv(run, moves, i);
    ServiceRunKeepsInv(run, moves, j);
    forall m | i <= m < j ensures Keeps(run, m, Forewarned) {
      MoveKeepsForewarned(run, moves, m);
    }
    assert Forewarned(run[i]);
    Stays(run, i, j, Forewarned);
  }

  /** When SvcDoRun has ended, any controller it created is closed with every
      shutdown made exactly once, no stop can reach it any more, and a shutdown
      failure seen by a stop is reported. */
  lemma EndedIsClosed(run: seq<Service>, moves: seq<Move>, i: nat)
    requires IsServiceRun(run, moves) && i < |run| && run[i].main.Ended?
    ensures run[i].created ==> Settled(run[i].host)
    ensures !run[i].published && forall k :: 0 <= k < |run[i].stops| ==> !run[i].stops[k].StopClosing?
    ensures run[i].controlFailure ==> run[i].main.failed
  {
    hide IsServiceRun, ControllerLockHeld, StopSeen, LockHeld, RunsOnce;
    ServiceRunKeepsInv(run, moves, i);
    var s := run[i];
    forall t | 0 <= t < |Calls(s)| ensures !ShuttingDown(Calls(s)[t]) {
      if t > 0 {
        assert Calls(s)[t - 1 + 1] == StopCall(s.stops[t - 1]);
      }
    }
    assert NobodyShutting(Calls(s));
  }

  // ---------------------------------------------------------------- what makes the service fail

  /** The host was closed after SvcDoRun had read the flag as clear and before
      run has claimed it. */
  predicate Late(s: Service) {
    s.main == Calling(false, RunEntry) && s.host.closed
  }

  /** The library call that close makes at this point can raise into close. */
  predicate CanRaise(setup: Setup, point: ClosePoint) {
    match point
    case AtListener => true
    case AtDispatcher => setup.hasDispatcher
    case AtMap => setup.hasMap
    case AtRuntime => setup.kind == TeamHost
    case _ => false
  }

  /** This step of a call raises something that nobody swallows: the listener
      raises, other than the expected error of a closed listener, or a shutdown
      does. */
  predicate HarmfulStep(h: Host, c: Call, choice: Choice) {
    match c
    case Listening => choice == Raise
    case RunCatch(expected) => !(h.closed && expected)
    case Closing(point, _, _) => choice != Normal && CanRaise(h.setup, point)
    case _ => false
  }

  /** The step raises: the controller cannot be created, or a call is harmed. */
  predicate Harms(s: Service, t: Tid, choice: Choice)
    requires t <= |s.stops|
  {
    || (t == 0 && s.main == Starting && choice != Normal)
    || HarmfulStep(s.host, if t == 0 then MainCall(s.main) else StopCall(s.stops[t - 1]), choice)
  }

  ghost predicate HarmAt(run: seq<Service>, moves: seq<Move>, i: nat)
    requires i + 1 < |run| && |moves| + 1 == |run|
  {
    moves[i].thread <= |run[i].stops| && Harms(run[i], moves[i].thread, moves[i].choice)
  }

  // -- a failure is never forgotten

  /** The call will raise, or has raised. */
  predicate FailingCall(c: Call) {
    match c
    case Closing(_, pending, failed) => pending || (failed && ShuttingDown(c))
    case Returned(raised) => raised
    case Refused => true
    case _ => false
  }

  /** SvcDoRun on its way to report a failure. */
  predicate FailingMain(s: Service) {
    match s.main
    case Calling(_, call) => FailingCall(call) || ((call == RunEntry || call == RunLocked) && s.host.closed)
    case Finishing(failed) => failed
    case Clearing(failed) => failed
    case FinalClose(call, failed, controlFailed) => FailingCall(call) || failed || controlFailed
    case Ended(failed) => failed
    case _ => false
  }

  predicate Failing(s: Service) {
    FailingMain(s) || s.controlFailure || exists i :: 0 <= i < |s.stops| && FailingCall(StopCall(s.stops[i]))
  }

  lemma CallKeepsFailing(h: Host, t: Tid, c: Call, choice: Choice)
    requires Step(h, t, c, choice).Some? && (FailingCall(c) || HarmfulStep(h, c, choice))
    ensures FailingCall(Step(h, t, c, choice).value.1)
  {
    if c.Closing? {
      ClosingKeepsFailing(h, t, c.point, c.pending, c.failed, choice);
    }
  }

  lemma ClosingKeepsFailing(h: Host, t: Tid, point: ClosePoint, pending: bool, failed: bool, choice: Choice)
    requires var c := Closing(point, pending, failed); FailingCall(c) || HarmfulStep(h, c, choice)
    ensures FailingCall(CloseStep(h, t, point, pending, failed, choice != Normal).1)
  {
    match point
    case Entry =>
    case Locked =>
    case AtListener =>
    case AtDispatcher =>
    case AtMap =>
    case AtRuntime =>
    case AtRelease =>
  }

  lemma ClosedIsRefused(h: Host, t: Tid, c: Call, choice: Choice)
    requires Step(h, t, c, choice).Some? && c in {RunEntry, RunLocked} && h.closed
    ensures Step(h, t, c, choice).value.0.closed && Step(h, t, c, choice).value.1 in {RunLocked, Refused}
  {
  }

  lemma MainCallKeepsFailing(s: Service, choice: Choice)
    requires MainStep(s, choice).Some? && MainSteps(s.main) && (FailingMain(s) || Harms(s, 0, choice))
    ensures FailingMain(MainStep(s, choice).value)
  {
    hide Step, HarmfulStep;
    MainFrame(s, choice);
    var call := MainCall(s.main);
    if FailingCall(call) || HarmfulStep(s.host, call, choice) {
      CallKeepsFailing(s.host, 0, call, choice);
    } else if s.main.Calling? {
      ClosedIsRefused(s.host, 0, call, choice);
    }
  }

  lemma MainKeepsFailing(s: Service, choice: Choice)
    requires MainStep(s, choice).Some? && (Failing(s) || Harms(s, 0, choice))
    ensures Failing(MainStep(s, choice).value)
  {
    hide Step;
    var s' := MainStep(s, choice).value;
    MainFrame(s, choice);
    if FailingMain(s) || Harms(s, 0, choice) {
      if MainSteps(s.main) { MainCallKeepsFailing(s, choice); }
      assert FailingMain(s');
    } else if !s.controlFailure {
      var i :| 0 <= i < |s.stops| && FailingCall(StopCall(s.stops[i]));
      assert FailingCall(StopCall(s'.stops[i]));
    }
  }

  lemma StopKeepsFailing(s: Service, i: nat, choice: Choice)
    requires ServiceInv(s) && i < |s.stops| && StopStep(s, i, choice).Some? && (Failing(s) || Harms(s, i + 1, choice))
    ensures Failing(StopStep(s, i, choice).value)
  {
    hide Inv, Step, ControllerLockHeld, StopSeen, MainPhase, FailureSeen, HarmfulStep;
    var s' := StopStep(s, i, choice).value;
    StopFrame(s, i, choice);
    StopCalls(s, i, choice);
    if s.stops[i].StopClosing? {
      StopHostFacts(s, i, choice);
    }
    if FailingMain(s) {
      assert FailingMain(s');
    } else if FailingCall(StopCall(s.stops[i])) || Harms(s, i + 1, choice) {
      StopFails(s, i, choice);
    } else if !s.controlFailure {
      var k :| 0 <= k < |s.stops| && FailingCall(StopCall(s.stops[k]));
      assert FailingCall(StopCall(s'.stops[k]));
    }
  }

  lemma StopFails(s: Service, i: nat, choice: Choice)
    requires i < |s.stops| && StopStep(s, i, choice).Some?
    requires FailingCall(StopCall(s.stops[i])) || Harms(s, i + 1, choice)
    requires s.stops[i].StopClosing? ==> s.stops[i].call.Closing? || s.stops[i].call.Returned?
    ensures var s' := StopStep(s, i, choice).value;
            s'.controlFailure || (|s'.stops| == |s.stops| && FailingCall(StopCall(s'.stops[i])))
  {
    if StopSteps(s.stops[i]) {
      CallKeepsFailing(s.host, i + 1, s.stops[i].call, choice);
      hide Step;
    }
  }

  lemma MoveKeepsFailing(run: seq<Service>, moves: seq<Move>, k: nat)
    requires IsServiceRun(run, moves) && k + 1 < |run|
    ensures Keeps(run, k, Failing)
    ensures HarmAt(run, moves, k) ==> Failing(run[k + 1])
  {
    hide InitialService, ServiceInv, MainStep, StopStep, Failing, Harms;
    ServiceRunKeepsInv(run, moves, k);
    assert MoveAt(run, moves, k);
    if Failing(run[k]) || HarmAt(run, moves, k) {
      if moves[k].thread == 0 {
        MainKeepsFailing(run[k], moves[k].choice);
      } else {
        StopKeepsFailing(run[k], moves[k].thread - 1, moves[k].choice);
      }
    }
  }

  lemma FailingEndsFailed(run: seq<Service>, moves: seq<Move>, i: nat, j: nat)
    requires IsServiceRun(run, moves) && i <= j < |run| && Failing(run[i]) && run[j].main.Ended?
    ensures run[j].main.failed
  {
    hide IsServiceRun, ServiceInv, FailingCall;
    forall m | i <= m < j ensures Keeps(run, m, Failing) {
      MoveKeepsFailing(run, moves, m);
    }
    Stays(run, i, j, Failing);
    EndedIsClosed(run, moves, j);
    NoCallIsClean();
  }

  lemma NoCallIsClean()
    ensures !FailingCall(NoCall)
  {
  }

  /** A stop that closes the host after SvcDoRun has read the flag as clear and
      before run has claimed it makes the service end as failed, even when no
      shutdown raised: run refuses a closed server. */
  lemma LateStopReportsFailure(run: seq<Service>, moves: seq<Move>, i: nat, j: nat)
    requires IsServiceRun(run, moves) && i <= j < |run|
    requires run[i].main == Calling(false, RunEntry) && run[i].host.closed && run[j].main.Ended?
    ensures run[j].main.failed
  {
    hide IsServiceRun;
    FailingEndsFailed(run, moves, i, j);
  }

  // -- nothing else fails

  /** Nothing that this call has done so far failed. */
  predicate CleanCall(c: Call) {
    c != Refused && (c.Closing? ==> !c.pending && !c.failed) && (c.Returned? ==> !c.raised)
  }

  predicate CleanMain(s: Service) {
    match s.main
    case Calling(_, call) => CleanCall(call) && (call == RunLocked ==> !s.host.closed)
    case Finishing(failed) => !failed
    case Clearing(failed) => !failed
    case FinalClose(call, failed, controlFailed) => CleanCall(call) && !failed && !controlFailed
    case Ended(failed) => !failed
    case _ => true
  }

  ghost predicate Clean(s: Service) {
    && CleanMain(s) && !s.controlFailure
    && forall i :: 0 <= i < |s.stops| ==> CleanCall(StopCall(s.stops[i]))
  }

  lemma CleanHostStep(h: Host, t: Tid, c: Call, choice: Choice)
    requires Step(h, t, c, choice).Some? && CleanCall(c) && (c == RunLocked ==> !h.closed && !h.runStarted)
    requires !HarmfulStep(h, c, choice)
    ensures CleanCall(Step(h, t, c, choice).value.1)
    ensures c == RunEntry ==> Step(h, t, c, choice).value.0.closed == h.closed
    ensures Step(h, t, c, choice).value.1 == RunLocked ==> c == RunEntry
  {
  }

  lemma MainKeepsClean(s: Service, choice: Choice)
    requires ServiceInv(s) && Clean(s) && !Late(s) && !Harms(s, 0, choice) && MainStep(s, choice).Some?
    ensures Clean(MainStep(s, choice).value)
  {
    hide Step, Inv, ControllerLockHeld, StopPhases, StopSeen, FailureSeen, HarmfulStep;
    MainFrame(s, choice);
    if MainSteps(s.main) {
      CleanHostStep(s.host, 0, MainCall(s.main), choice);
    }
  }

  /** While run is inside the host's lock, no stop closes the host. */
  lemma RunLockedExcludes(s: Service, i: nat, choice: Choice)
    requires ServiceInv(s) && i < |s.stops| && s.main.Calling? && s.main.call == RunLocked
    requires StopStep(s, i, choice).Some?
    ensures StopStep(s, i, choice).value.host.closed == s.host.closed
  {
    hide ControllerLockHeld, StopSeen, FailureSeen, ClosesOnce, RunsOnce, StopPhases;
    assert Holds(Calls(s)[0]);
    assert Calls(s)[i + 1] == StopCall(s.stops[i]);
    assert !Holds(StopCall(s.stops[i]));
  }

  lemma StopKeepsClean(s: Service, i: nat, choice: Choice)
    requires ServiceInv(s) && Clean(s) && i < |s.stops| && !Harms(s, i + 1, choice) && StopStep(s, i, choice).Some?
    ensures Clean(StopStep(s, i, choice).value)
  {
    hide Step, Inv, ControllerLockHeld, StopSeen, FailureSeen, MainPhase, HarmfulStep;
    StopFrame(s, i, choice);
    StopCalls(s, i, choice);
    assert CleanCall(StopCall(s.stops[i]));
    if StopSteps(s.stops[i]) {
      assert s.stops[i].call.Closing?;
      CleanHostStep(s.host, i + 1, s.stops[i].call, choice);
    }
    if s.main.Calling? && s.main.call == RunLocked {
      RunLockedExcludes(s, i, choice);
    }
  }

  lemma {:induction false} UnharmedIsClean(run: seq<Service>, moves: seq<Move>, j: nat)
    requires IsServiceRun(run, moves) && j < |run|
    requires forall i :: 0 <= i < j ==> !Late(run[i]) && !HarmAt(run, moves, i)
    ensures Clean(run[j])
  {
    hide ServiceInv, MainStep, StopStep, Late, Clean, Harms;
    if j == 0 {
      InitialIsClean(run[0]);
    } else {
      UnharmedIsClean(run, moves, j - 1);
      ServiceRunKeepsInv(run, moves, j - 1);
      assert MoveAt(run, moves, j - 1);
      assert !HarmAt(run, moves, j - 1);
      var choice := moves[j - 1].choice;
      if moves[j - 1].thread == 0 {
        MainKeepsClean(run[j - 1], choice);
      } else {
        StopKeepsClean(run[j - 1], moves[j - 1].thread - 1, choice);
      }
    }
  }

  lemma InitialIsClean(s: Service)
    requires InitialService(s)
    ensures Clean(s)
  {
  }

  /** Exactly when the service ends as failed, over every run: some stop was late,
      or something raised on the way that nobody swallows. */
  lemma FailureIsExact(run: seq<Service>, moves: seq<Move>, j: nat)
    requires IsServiceRun(run, moves) && j < |run| && run[j].main.Ended?
    ensures run[j].main.failed <==> exists i :: 0 <= i < j && (Late(run[i]) || HarmAt(run, moves, i))
  {
    assert |run| == |moves| + 1;
    hide IsServiceRun, HarmAt;
    if i :| 0 <= i < j && (Late(run[i]) || HarmAt(run, moves, i)) {
      if Late(run[i]) {
        LateStopReportsFailure(run, moves, i, j);
      } else {
        MoveKeepsFailing(run, moves, i);
        FailingEndsFailed(run, moves, i + 1, j);
      }
    } else {
      UnharmedIsClean(run, moves, j);
      assert CleanMain(run[j]);
    }
  }

  /** Nothing raises but, if anything, the listener that has been closed under
      its run, with the error expected of it. */
  ghost predicate QuietAt(run: seq<Service>, moves: seq<Move>, i: nat)
    requires i + 1 < |run| && |moves| + 1 == |run|
  {
    || moves[i].choice == Normal
    || (moves[i] == Move(0, OsError(true)) && MainCall(run[i].main) == Listening && run[i].host.closed)
  }

  ghost predicate AllQuiet(run: seq<Service>, moves: seq<Move>)
    requires |moves| + 1 == |run|
  {
    forall i :: 0 <= i < |moves| ==> QuietAt(run, moves, i)
  }

  /** What run has caught, if anything, is the expected error of a closed listener. */
  predicate Expected(s: Service) {
    s.main.Calling? && s.main.call.RunCatch? ==> s.main.call.expected && s.host.closed
  }

  lemma MoveKeepsExpected(s: Service, t: Tid, choice: Choice)
    requires ServiceInv(s) && Expected(s) && t <= |s.stops| && ServiceStep(s, t, choice).Some?
    requires choice == Normal || (t == 0 && choice == OsError(true) && MainCall(s.main) == Listening && s.host.closed)
    ensures Expected(ServiceStep(s, t, choice).value)
  {
    hide Inv, ControllerLockHeld, StopPhases, StopSeen, FailureSeen, Step;
    if t == 0 {
      MainFrame(s, choice);
      if MainSteps(s.main) { CatchesListening(s.host, MainCall(s.main), choice); }
    } else {
      StopFrame(s, t - 1, choice);
      if s.stops[t - 1].StopClosing? { StopHostFacts(s, t - 1, choice); }
    }
  }

  lemma CatchesListening(h: Host, c: Call, choice: Choice)
    requires Step(h, 0, c, choice).Some?
    ensures var (h', c') := Step(h, 0, c, choice).value;
            c'.RunCatch? ==> c == Listening && choice == OsError(c'.expected) && h' == h
  {
  }

  lemma {:induction false} QuietIsExpected(run: seq<Service>, moves: seq<Move>, i: nat)
    requires IsServiceRun(run, moves) && AllQuiet(run, moves) && i < |run|
    ensures Expected(run[i])
  {
    hide ServiceInv, ServiceStep, Expected;
    if i == 0 {
      InitialIsExpected(run[0]);
    } else {
      QuietIsExpected(run, moves, i - 1);
      ServiceRunKeepsInv(run, moves, i - 1);
      assert MoveAt(run, moves, i - 1) && QuietAt(run, moves, i - 1);
      MoveKeepsExpected(run[i - 1], moves[i - 1].thread, moves[i - 1].choice);
    }
  }

  lemma InitialIsExpected(s: Service)
    requires InitialService(s)
    ensures Expected(s)
  {
  }

  lemma QuietDoesNoHarm(run: seq<Service>, moves: seq<Move>, i: nat)
    requires IsServiceRun(run, moves) && AllQuiet(run, moves) && i < |moves|
    ensures !HarmAt(run, moves, i)
  {
    hide ServiceInv, ServiceStep, InitialService;
    QuietIsExpected(run, moves, i);
    assert QuietAt(run, moves, i);
    StopsDoNotCatch(run, moves, i);
  }

  lemma StopsDoNotCatch(run: seq<Service>, moves: seq<Move>, i: nat)
    requires IsServiceRun(run, moves) && i < |run|
    ensures forall k :: 0 <= k < |run[i].stops| ==> !StopCall(run[i].stops[k]).RunCatch? && StopCall(run[i].stops[k]) != Listening
    ensures run[i].main.FinalClose? ==> run[i].main.call.Closing? || run[i].main.call.Returned?
  {
    hide Inv, ControllerLockHeld, StopSeen, FailureSeen, IsServiceRun;
    ServiceRunKeepsInv(run, moves, i);
  }

  /** If nothing raises, or only the closed listener as expected, the service ends
      as failed exactly when a stop was late: a stop that closes a listening host
      ends it cleanly. */
  lemma OnlyLateStopsFail(run: seq<Service>, moves: seq<Move>, j: nat)
    requires IsServiceRun(run, moves) && AllQuiet(run, moves) && j < |run| && run[j].main.Ended?
    ensures run[j].main.failed <==>
              exists i :: 0 <= i <= j && run[i].main == Calling(false, RunEntry) && run[i].host.closed
  {
    assert |run| == |moves| + 1;
    hide IsServiceRun, HarmAt, AllQuiet;
    FailureIsExact(run, moves, j);
    forall i | 0 <= i < |moves| ensures !HarmAt(run, moves, i) { QuietDoesNoHarm(run, moves, i); }
    if run[j].main.failed {
      var i :| 0 <= i < j && (Late(run[i]) || HarmAt(run, moves, i));
      assert Late(run[i]);
    }
    if i :| 0 <= i <= j && run[i].main == Calling(false, RunEntry) && run[i].host.closed {
      assert i < j && Late(run[i]);
    }
  }

  ghost predicate AllNormal(moves: seq<Move>) {
    forall k :: 0 <= k < |moves| ==> moves[k].choice == Normal
  }

  // -- one late stop

  /** A service with one stop, while no control failure is recorded. */
  function WithOneStop(host: Host, lock: Option<Tid>, published: bool, main: Main, stop: Stop): Service {
    Service(stop != Idle, lock, main != Starting, published, false, host, main, [stop])
  }

  /** SvcDoRun starts, publishes the controller and reads the flag; then SvcStop
      sets it, takes the controller and closes the host before run begins. */
  function UntilLate(setup: Setup, i: nat): Service {
    var host, calling := NewHost(setup), Calling(false, RunEntry);
    match i
    case 0 => WithOneStop(host, None, false, Starting, Idle)
    case 1 => WithOneStop(host, None, false, Created, Idle)
    case 2 => WithOneStop(host, Some(0), false, Publishing, Idle)
    case 3 => WithOneStop(host, Some(0), true, Testing, Idle)
    case 4 => WithOneStop(host, None, true, calling, Idle)
    case 5 => WithOneStop(host, None, true, calling, Flagged)
    case 6 => WithOneStop(host, Some(1), true, calling, InControl)
    case 7 => WithOneStop(host, Some(1), true, calling, StopClosing(CloseCall()))
    case 8 => WithOneStop(host.(lifecycleLock := Some(1)), Some(1), true, calling, StopClosing(Closing(Locked, false, false)))
    case _ => WithOneStop(host.(lifecycleLock := Some(1), closed := true), Some(1), true, calling,
                          StopClosing(Closing(AtListener, false, false)))
  }

  /** The stop goes through its shutdowns and leaves. */
  function UntilStopped(setup: Setup, i: nat): Service {
    var calling, none := Calling(false, RunEntry), Shutdowns(0, 0, 0, 0, true, false);
    var one, two := Once(setup.hasDispatcher), Once(setup.hasMap);
    var settled := HostAt(setup, None, Shutdowns(1, one, two, 1, true, true));
    match i
    case 9 => UntilLate(setup, 9)
    case 10 => Shutting(setup, none.(listener := 1), AtDispatcher)
    case 11 => Shutting(setup, none.(listener := 1, dispatcher := one), AtMap)
    case 12 => Shutting(setup, none.(listener := 1, dispatcher := one, closeAll := two), AtRuntime)
    case 13 => Shutting(setup, settled.done, AtRelease)
    case 14 => WithOneStop(settled, Some(1), true, calling, StopClosing(Returned(false)))
    case 15 => WithOneStop(settled, Some(1), true, calling, Leaving)
    case _ => WithOneStop(settled, None, true, calling, Stopped)
  }

  function HostAt(setup: Setup, holder: Option<Tid>, done: Shutdowns): Host {
    Host(setup, true, false, holder, 0, done)
  }

  function Shutting(setup: Setup, done: Shutdowns, point: ClosePoint): Service {
    WithOneStop(HostAt(setup, Some(1), done), Some(1), true, Calling(false, RunEntry), StopClosing(Closing(point, false, false)))
  }

  /** Then run is refused, and SvcDoRun ends. */
  function UntilEnded(setup: Setup, i: nat): Service {
    var settled := HostAt(setup, None, Shutdowns(1, Once(setup.hasDispatcher), Once(setup.hasMap), 1, true, true));
    match i
    case 16 => UntilStopped(setup, 16)
    case 17 => WithOneStop(settled.(lifecycleLock := Some(0)), None, true, Calling(false, RunLocked), Stopped)
    case 18 => WithOneStop(settled, None, true, Calling(false, Refused), Stopped)
    case 19 => WithOneStop(settled, None, true, Finishing(true), Stopped)
    case 20 => WithOneStop(settled, Some(0), true, Clearing(true), Stopped)
    case 21 => WithOneStop(settled, None, false, FinalClose(CloseCall(), true, false), Stopped)
    case 22 => WithOneStop(settled.(lifecycleLock := Some(0)), None, false, FinalClose(Closing(Locked, false, false), true, false), Stopped)
    case 23 => WithOneStop(settled, None, false, FinalClose(Returned(false), true, false), Stopped)
    case _ => WithOneStop(settled, None, false, Ended(true), Stopped)
  }

  function LateState(setup: Setup, i: nat): Service {
    if i <= 9 then UntilLate(setup, i) else if i <= 16 then UntilStopped(setup, i) else UntilEnded(setup, i)
  }

  function LateRun(setup: Setup): seq<Service> {
    seq(25, (i: nat) => LateState(setup, i))
  }

  function LateMoves(): seq<Move> {
    seq(24, (i: nat) => Move(LateThread(i), Normal))
  }

  function LateThread(i: nat): Tid { if 4 <= i < 16 then 1 else 0 }

  lemma OneStopMoves()
    ensures forall a: Stop, b: Stop :: [a][0 := b] == [b]
  {
  }

  lemma MovesUntilLate(setup: Setup, i: nat)
    requires i < 9
    ensures ServiceStep(UntilLate(setup, i), LateThread(i), Normal) == Some(UntilLate(setup, i + 1))
  {
    OneStopMoves();
    match i
    case 0 =>
    case 1 =>
    case 2 =>
    case 3 =>
    case 4 =>
    case 5 =>
    case 6 =>
    case 7 =>
    case 8 =>
  }

  lemma ShutsQuietly(setup: Setup, done: Shutdowns, point: ClosePoint)
    ensures !Shut(setup, done, point, false).1
  {
  }

  /** One shutdown step of the stop, when nothing raises. */
  lemma ShuttingMoves(setup: Setup, done: Shutdowns, point: ClosePoint)
    requires point in {AtListener, AtDispatcher, AtMap, AtRuntime}
    ensures StopStep(Shutting(setup, done, point), 0, Normal)
            == Some(Shutting(setup, Shut(setup, done, point, false).0, After(point)))
  {
    hide Shut;
    OneStopMoves();
    ShutsQuietly(setup, done, point);
    match point
    case AtListener =>
    case AtDispatcher =>
    case AtMap =>
    case AtRuntime =>
    case _ =>
  }

  lemma ShutdownsAddUp(setup: Setup)
    ensures var none := Shutdowns(0, 0, 0, 0, true, false); var one, two := Once(setup.hasDispatcher), Once(setup.hasMap);
            && Shut(setup, NewHost(setup).done, AtListener, false).0 == none.(listener := 1)
            && Shut(setup, none.(listener := 1), AtDispatcher, false).0 == none.(listener := 1, dispatcher := one)
            && Shut(setup, none.(listener := 1, dispatcher := one), AtMap, false).0
               == none.(listener := 1, dispatcher := one, closeAll := two)
            && Shut(setup, none.(listener := 1, dispatcher := one, closeAll := two), AtRuntime, false).0
               == Shutdowns(1, one, two, 1, true, true)
  {
  }

  lemma MovesUntilStopped(setup: Setup, i: nat)
    requires 9 <= i < 16
    ensures ServiceStep(UntilStopped(setup, i), LateThread(i), Normal) == Some(UntilStopped(setup, i + 1))
  {
    if i < 13 {
      hide StopStep, Shut;
      ShutdownsAddUp(setup);
      var none := Shutdowns(0, 0, 0, 0, true, false);
      var one, two := Once(setup.hasDispatcher), Once(setup.hasMap);
      match i
      case 9 => ShuttingMoves(setup, NewHost(setup).done, AtListener);
      case 10 => ShuttingMoves(setup, none.(listener := 1), AtDispatcher);
      case 11 => ShuttingMoves(setup, none.(listener := 1, dispatcher := one), AtMap);
      case 12 => ShuttingMoves(setup, none.(listener := 1, dispatcher := one, closeAll := two), AtRuntime);
    } else {
      OneStopMoves();
      match i
      case 13 =>
      case 14 =>
      case 15 =>
    }
  }

  lemma MovesUntilEnded(setup: Setup, i: nat)
    requires 16 <= i < 24
    ensures ServiceStep(UntilEnded(setup, i), LateThread(i), Normal) == Some(UntilEnded(setup, i + 1))
  {
    match i
    case 16 =>
    case 17 =>
    case 18 =>
    case 19 =>
    case 20 =>
    case 21 =>
    case 22 =>
    case 23 =>
  }

  /** A late stop does happen, whatever the host is built with: in this run
      nothing raises, every shutdown is made once, and the service ends as failed. */
  lemma LateStopHappens(setup: Setup)
    ensures var run := LateRun(setup);
            && IsServiceRun(run, LateMoves()) && AllNormal(LateMoves())
            && Late(run[9]) && run[24].main == Ended(true) && Settled(run[24].host)
  {
    hide ServiceStep;
    var run, moves := LateRun(setup), LateMoves();
    forall i | 0 <= i < 24 ensures MoveAt(run, moves, i) {
      hide UntilLate, UntilStopped, UntilEnded;
      if i < 9 {
        MovesUntilLate(setup, i);
      } else if i < 16 {
        SeamsMeet(setup);
        MovesUntilStopped(setup, i);
      } else {
        SeamsMeet(setup);
        MovesUntilEnded(setup, i);
      }
    }
  }

  lemma SeamsMeet(setup: Setup)
    ensures UntilStopped(setup, 9) == UntilLate(setup, 9) && UntilEnded(setup, 16) == UntilStopped(setup, 16)
    ensures forall i :: |LateState(setup, i).stops| == 1
  {
  }

  // ---------------------------------------------------------------- no deadlock

  /** A thread that does not wait for the outside world: a stop that has been
      requested, or SvcDoRun anywhere but in the listener's own run. */
  predicate Busy(s: Service, t: Tid)
    requires t <= |s.stops|
  {
    if t == 0 then !s.main.Ended? && MainCall(s.main) != Listening
    else s.stops[t - 1] != Idle && s.stops[t - 1] != Stopped
  }

  predicate Enabled(s: Service, t: Tid)
    requires t <= |s.stops|
  {
    Busy(s, t) && ServiceStep(s, t, Normal).Some?
  }

  /** The thread that holds the host's lock can always step. */
  lemma HostHolderSteps(s: Service, t: Tid)
    requires ServiceInv(s) && s.host.lifecycleLock == Some(t)
    ensures t <= |s.stops| && Enabled(s, t)
  {
    hide ClosesOnce, RunsOnce, ControllerLockHeld, StopSeen, Step;
    if t > 0 {
      assert Calls(s)[t - 1 + 1] == StopCall(s.stops[t - 1]);
    }
    OnlyTheLockBlocks(s.host, t, Calls(s)[t], Normal);
  }

  /** A busy thread that does not wait for the controller lock can step, or the
      holder of the host's lock can. */
  lemma BusySteps(s: Service, t: Tid)
    requires ServiceInv(s) && t <= |s.stops| && Busy(s, t)
    requires s.controllerLock == None || s.controllerLock == Some(t) || (t == 0 && (s.main.Calling? || s.main.FinalClose?))
    ensures Enabled(s, t) || s.host.lifecycleLock.Some?
  {
    hide Inv, StopPhases, MainPhase, FailureSeen, StopSeen, Step;
    if t > 0 {
      assert Calls(s)[t - 1 + 1] == StopCall(s.stops[t - 1]);
    }
    if s.host.lifecycleLock == None && !Finished(Calls(s)[t]) {
      OnlyTheLockBlocks(s.host, t, Calls(s)[t], Normal);
    }
  }

  /** The two locks never deadlock: as long as any thread has work to do that
      does not depend on the listener, some such thread can step. */
  lemma NoDeadlock(run: seq<Service>, moves: seq<Move>, i: nat, waiting: Tid)
    requires IsServiceRun(run, moves) && i < |run| && waiting <= |run[i].stops| && Busy(run[i], waiting)
    ensures exists t: Tid :: t <= |run[i].stops| && Enabled(run[i], t)
  {
    hide IsServiceRun, Inv, StopSeen, ServiceStep, StopPhases, MainPhase;
    ServiceRunKeepsInv(run, moves, i);
    var s := run[i];
    var t := if s.controllerLock.Some? then s.controllerLock.value else waiting;
    assert s.controllerLock.Some? && t > 0 ==> StopHolds(s.stops[t - 1]);
    BusySteps(s, t);
    if s.host.lifecycleLock.Some? {
      HostHolderSteps(s, s.host.lifecycleLock.value);
    }
  }

  /** When a stop has been requested and nothing can step any more, SvcDoRun has
      ended, or it is inside the listener's run with every shutdown made: there
      the listener is closed, or refused to close and the failure is recorded. */
  lemma QuietMeansListening(run: seq<Service>, moves: seq<Move>, i: nat, k: nat)
    requires IsServiceRun(run, moves) && i < |run| && k < |run[i].stops| && run[i].stops[k] != Idle
    requires forall t: Tid :: t <= |run[i].stops| ==> !Enabled(run[i], t)
    ensures run[i].main.Ended? || (run[i].main.Calling? && run[i].main.call == Listening && Settled(run[i].host)
                                   && (run[i].host.done.listenerClosed || run[i].controlFailure))
  {
    hide IsServiceRun, LockHeld, RunsOnce, ControllerLockHeld, ServiceStep, Step;
    ServiceRunKeepsInv(run, moves, i);
    var s := run[i];
    forall t: Tid | t <= |s.stops| ensures !Busy(s, t) {
      if Busy(s, t) {
        NoDeadlock(run, moves, i, t);
      }
    }
    assert !Busy(s, 0) && !Busy(s, k + 1);
    if !s.main.Ended? {
      assert s.host.closed;
      assert HolderCall(s) == NoCall by {
        if s.controllerLock.Some? && 0 < s.controllerLock.value <= |s.stops| {
          assert !Busy(s, s.controllerLock.value);
        }
      }
      forall t | 0 <= t < |Calls(s)| ensures !ShuttingDown(Calls(s)[t]) {
        if t > 0 {
          assert !Busy(s, t);
          assert Calls(s)[t - 1 + 1] == StopCall(s.stops[t - 1]);
        }
      }
      assert NobodyShutting(Calls(s));
    }
  }

  // ---------------------------------------------------------------- every run is finite

  function MainLeft(m: Main): nat {
    match m
    case Starting => 40
    case Created => 39
    case Publishing => 38
    case Testing => 37
    case Calling(_, call) => 20 + StepsLeft(call)
    case Finishing(_) => 19
    case Clearing(_) => 18
    case FinalClose(call, _, _) => 1 + StepsLeft(call)
    case Ended(_) => 0
  }

  function StopLeft(stop: Stop): nat {
    match stop
    case Idle => 12
    case Flagged => 11
    case InControl => 10
    case StopClosing(call) => 2 + StepsLeft(call)
    case Leaving => 1
    case Stopped => 0
  }

  function StopsLeft(stops: seq<Stop>): nat {
    if stops == [] then 0 else StopsLeft(stops[..|stops| - 1]) + StopLeft(stops[|stops| - 1])
  }

  lemma {:induction false} OneStopLess(stops: seq<Stop>, i: nat, stop: Stop)
    requires i < |stops| && StopLeft(stop) < StopLeft(stops[i])
    ensures StopsLeft(stops[i := stop]) < StopsLeft(stops)
  {
    if i == |stops| - 1 {
      assert stops[i := stop][..|stops| - 1] == stops[..|stops| - 1];
    } else {
      OneStopLess(stops[..|stops| - 1], i, stop);
      assert stops[i := stop][..|stops| - 1] == stops[..|stops| - 1][i := stop];
    }
  }

  lemma ServiceStepsRunOut(s: Service, t: Tid, choice: Choice)
    requires t <= |s.stops| && ServiceStep(s, t, choice).Some?
    ensures var s' := ServiceStep(s, t, choice).value;
            MainLeft(s'.main) + StopsLeft(s'.stops) < MainLeft(s.main) + StopsLeft(s.stops)
  {
    hide MainStep, StopStep, Step;
    var s' := ServiceStep(s, t, choice).value;
    if t == 0 {
      MainFrame(s, choice);
      MainStepsLess(s, choice);
    } else {
      StopFrame(s, t - 1, choice);
      StopStepsLess(s, t - 1, choice);
      OneStopLess(s.stops, t - 1, s'.stops[t - 1]);
    }
  }

  lemma MainStepsLess(s: Service, choice: Choice)
    requires MainStep(s, choice).Some?
    ensures MainLeft(MainStep(s, choice).value.main) < MainLeft(s.main)
  {
    hide Step;
    if MainSteps(s.main) {
      MainFrame(s, choice);
      StepsRunOut(s.host, 0, MainCall(s.main), choice);
    } else {
      match s.main
      case Calling(stop, call) =>
      case FinalClose(call, failed, controlFailed) =>
      case _ =>
    }
  }

  lemma StopStepsLess(s: Service, i: nat, choice: Choice)
    requires i < |s.stops| && StopStep(s, i, choice).Some?
    ensures |StopStep(s, i, choice).value.stops| == |s.stops|
    ensures StopLeft(StopStep(s, i, choice).value.stops[i]) < StopLeft(s.stops[i])
  {
    hide Step;
    if StopSteps(s.stops[i]) {
      StopCalls(s, i, choice);
      StepsRunOut(s.host, i + 1, StopCall(s.stops[i]), choice);
    }
  }

  lemma {:induction false} StepsAndLeft(run: seq<Service>, moves: seq<Move>, i: nat)
    requires IsServiceRun(run, moves) && i < |run|
    ensures i + MainLeft(run[i].main) + StopsLeft(run[i].stops) <= MainLeft(run[0].main) + StopsLeft(run[0].stops)
  {
    hide ServiceStep, InitialService;
    if i > 0 {
      StepsAndLeft(run, moves, i - 1);
      assert MoveAt(run, moves, i - 1);
      ServiceStepsRunOut(run[i - 1], moves[i - 1].thread, moves[i - 1].choice);
    }
  }

  lemma {:induction false} AllIdle(stops: seq<Stop>)
    requires forall i :: 0 <= i < |stops| ==> stops[i] == Idle
    ensures StopsLeft(stops) == 12 * |stops|
  {
    if stops != [] {
      AllIdle(stops[..|stops| - 1]);
    }
  }

  /** Every run ends: SvcDoRun and n stops make at most 40 + 12 n steps. */
  lemma RunsAreFinite(run: seq<Service>, moves: seq<Move>)
    requires IsServiceRun(run, moves)
    ensures |moves| <= 40 + 12 * |run[0].stops|
  {
    StepsAndLeft(run, moves, |moves|);
    AllIdle(run[0].stops);
  }
}
