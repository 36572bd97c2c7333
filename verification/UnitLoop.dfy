/** The restart loop of a unit: running the command, watching it with its probes, cleaning up and
    backing off (RunUnitLoop and what it calls in pkg/unit/unit.go). */
module UnitLoops {
  import opened Basics
  import opened UnitStatuses
  import opened ProbeWorkers
  import PodSpecs

  type Policy = PodSpecs.RestartPolicy

  // ----- Watching a running command ----------------------------------------------------

  /** How the command ended: exit code 0, an exit error with its code, or some other error. */
  datatype CmdResult = CmdOk | CmdExit(code: int) | CmdOther

  /** What watchRunningCmd returns: the command ended by itself, or a probe failed. */
  datatype WatchEnd = Exited(cmd: CmdResult) | StartupFailed | LivenessFailed

  datatype Watch = AwaitingStartup | Watching | Over(end: WatchEnd)

  /** Which of the probes are configured. */
  datatype Config = Config(startup: bool, readiness: bool, liveness: bool)

  datatype WatchEvent =
    | CmdDone(cmd: CmdResult)
    | StartupResult(result: Result)
    | LivenessResult(result: Result)
    | ReadinessResult(result: Result)

  function MarkStarted(cfg: Config, f: File): File {
    PutAttr(f, Some(!cfg.readiness), Some(true))
  }

  function Begin(cfg: Config, f: File): (Watch, File) {
    if cfg.startup then (AwaitingStartup, f) else (Watching, MarkStarted(cfg, f))
  }

  /** One receive of the select statement; an event its case list does not cover changes nothing. */
  function WatchStep(cfg: Config, w: Watch, f: File, e: WatchEvent): (Watch, File) {
    match w
    case Over(_) => (w, f)
    case AwaitingStartup =>
      if e.CmdDone? then (Over(Exited(e.cmd)), f)
      else if e == StartupResult(Failure) then (Over(StartupFailed), f)
      else if e == StartupResult(Success) then (Watching, MarkStarted(cfg, f))
      else (w, f)
    case Watching =>
      if e.CmdDone? then (Over(Exited(e.cmd)), f)
      else if e == LivenessResult(Failure) && cfg.liveness then (Over(LivenessFailed), f)
      else if e.ReadinessResult? && cfg.readiness then (w, PutAttr(f, Some(e.result == Success), None))
      else (w, f)
  }

  /** The watch after the first `n` events. */
  function WatchAfter(cfg: Config, f: File, events: seq<WatchEvent>, n: nat): (Watch, File)
    requires n <= |events|
  {
    if n == 0 then Begin(cfg, f)
    else
      var (w, g) := WatchAfter(cfg, f, events, n - 1);
      WatchStep(cfg, w, g, events[n - 1])
  }

  /** The command is reported to have ended with `c` by event `i`, while it is still being watched. */
  ghost predicate EndsItself(cfg: Config, f: File, events: seq<WatchEvent>, i: nat, c: CmdResult) {
    i < |events| && events[i] == CmdDone(c) && !WatchAfter(cfg, f, events, i).0.Over?
  }

  /** Whether a startup probe is still awaited or not: the watch is over with the command's own result
      exactly when that is what the command reported, before any probe ended the watch. */
  lemma {:induction false} ExitsExactlyWhen(cfg: Config, f: File, events: seq<WatchEvent>, n: nat, c: CmdResult)
    requires n <= |events|
    ensures WatchAfter(cfg, f, events, n).0 == Over(Exited(c)) <==>
            exists i :: 0 <= i < n && EndsItself(cfg, f, events, i, c)
  {
    if n > 0 {
      ExitsExactlyWhen(cfg, f, events, n - 1, c);
      var (w, g) := WatchAfter(cfg, f, events, n - 1);
      if w.Over? {
        OverNeverEnds(cfg, f, events, n - 1, n);
      } else if events[n - 1] == CmdDone(c) {
        assert EndsItself(cfg, f, events, n - 1, c);
      }
    }
  }

  lemma OverNeverEnds(cfg: Config, f: File, events: seq<WatchEvent>, i: nat, n: nat)
    requires i < n <= |events| && WatchAfter(cfg, f, events, i).0.Over?
    ensures forall c :: !EndsItself(cfg, f, events, i, c)
  {
  }

  // ----- The loop ----------------------------------------------------------------------

  const MAX_BACKOFF := 300         // seconds
  const BACKOFF_RESET := 600       // seconds

  function Backoff(failed: bool, backoff: nat, seconds: nat): nat {
    if !failed || seconds >= BACKOFF_RESET then 1
    else if 2 * backoff > MAX_BACKOFF then MAX_BACKOFF
    else 2 * backoff
  }

  /** One iteration as its environment sees it: setting the capabilities fails, starting the command
      fails, or it starts; `events` is then what its watch receives, `seconds` how long it ran and
      `message` its termination message. */
  datatype Attempt =
    | CapabilityError(error: string)
    | StartError(error: string)
    | Ran(events: seq<WatchEvent>, seconds: nat, message: string)

  /** `starts` counts the successful starts, `runs` lists how the completed runs ended, `sleeps` the
      back-off delays. `busy`: the last run has not ended yet; `returned`: the loop is over. */
  datatype Loop = Loop(
    file: File, backoff: nat, restarts: int, sleeps: seq<nat>,
    starts: nat, runs: seq<WatchEnd>, returned: bool, busy: bool)

  function InitLoop(f: File): Loop {
    Loop(f, 1, -1, [], 0, [], false, false)
  }

  predicate CmdFailed(e: WatchEnd) {
    e.Exited? && e.cmd != CmdOk
  }

  function ExitCode(e: WatchEnd): int {
    if e.Exited? && e.cmd.CmdExit? then e.cmd.code else 0
  }

  function Reason(e: WatchEnd): string {
    if e == Exited(CmdOk) then "Completed" else "Error"
  }

  /** The loop gives up after a run that ended like this. */
  predicate GivesUp(policy: Policy, e: WatchEnd) {
    policy == PodSpecs.Never || (policy == PodSpecs.OnFailure && !CmdFailed(e))
  }

  function Sleep(l: Loop, failed: bool, seconds: nat): Loop {
    var b := Backoff(failed, l.backoff, seconds);
    l.(backoff := b, sleeps := l.sleeps + [b])
  }

  function WaitingState(reason: string): UnitState {
    UnitState(Some(Waiting(reason, true)), None, None)
  }

  const RUNNING_STATE := UnitState(None, Some(Running), None)

  function TerminatedState(e: WatchEnd, message: string): UnitState {
    UnitState(None, None, Some(Terminated(ExitCode(e), Reason(e), message)))
  }

  /** The file when the command has just been started. */
  function StartFile(f: File, restarts: int): File {
    PutState(PutAttr(f, Some(false), Some(false)), RUNNING_STATE, Some(restarts))
  }

  /** The file when a run has been cleaned up. */
  function CleanFile(f: File, e: WatchEnd, message: string): File {
    PutState(PutAttr(f, Some(false), Some(false)), TerminatedState(e, message), None)
  }

  function LoopStep(l: Loop, cfg: Config, policy: Policy, a: Attempt): Loop {
    if l.returned || l.busy then l
    else
      var m := l.(restarts := l.restarts + 1);
      match a
      case CapabilityError(error) =>
        Sleep(m.(file := PutState(l.file, WaitingState("Failed to start: " + error), None)), true, 0)
      case StartError(error) =>
        var f := PutState(PutAttr(l.file, Some(false), Some(false)), WaitingState(error), Some(m.restarts));
        Sleep(m.(file := f), true, 0)
      case Ran(events, seconds, message) =>
        var (w, f) := WatchAfter(cfg, StartFile(l.file, m.restarts), events, |events|);
        if !w.Over? then m.(file := f, starts := l.starts + 1, busy := true)
        else
          var n := m.(file := CleanFile(f, w.end, message), starts := l.starts + 1, runs := l.runs + [w.end]);
          if GivesUp(policy, w.end) then n.(returned := true) else Sleep(n, CmdFailed(w.end), seconds)
  }

  /** The loop after the first `n` attempts. */
  function LoopAfter(f: File, cfg: Config, policy: Policy, attempts: seq<Attempt>, n: nat): Loop
    requires n <= |attempts|
  {
    if n == 0 then InitLoop(f) else LoopStep(LoopAfter(f, cfg, policy, attempts, n - 1), cfg, policy, attempts[n - 1])
  }

  // ----- What the file tells about an attempt ------------------------------------------

  /** A run is an error of the command exactly when the command itself reported one. */
  lemma CmdFailedExactlyWhen(e: WatchEnd)
    ensures CmdFailed(e) <==> e == Exited(CmdOther) || exists code :: e == Exited(CmdExit(code))
  {
    if e.Exited? && e.cmd.CmdExit? {
      assert e == Exited(CmdExit(e.cmd.code));
    }
  }

  /** The status that a completed run leaves. */
  ghost predicate TellsRun(s: UnitStatus, e: WatchEnd, message: string) {
    && s.state.waiting.None? && s.state.running.None? && s.state.terminated.Some?
    && !s.ready && s.started == Some(false)
    && var t := s.state.terminated.value;
       && t.message == message
       && (t.reason == "Completed" <==> e == Exited(CmdOk)) && (t.reason == "Error" <==> e != Exited(CmdOk))
       && (match e
           case Exited(CmdExit(code)) => t.exitCode == code
           case _ => t.exitCode == 0)
  }

  /** The status in which the n-th attempt leaves the file says what became of the attempt. */
  ghost predicate TellsAttempt(s: UnitStatus, a: Attempt, n: nat, cfg: Config, f: File) {
    match a
    case CapabilityError(error) =>
      s.state == UnitState(Some(Waiting("Failed to start: " + error, true)), None, None)
    case StartError(error) =>
      && s.state == UnitState(Some(Waiting(error, true)), None, None)
      && s.restartCount == n && !s.ready && s.started == Some(false)
    case Ran(events, _, message) =>
      && s.restartCount == n
      && match WatchAfter(cfg, f, events, |events|).0
         case Over(e) => TellsRun(s, e, message)
         case _ => s.state == UnitState(None, Some(Running), None)
  }

  lemma {:induction false} WatchKeepsState(cfg: Config, f: File, events: seq<WatchEvent>, n: nat)
    requires n <= |events|
    ensures var s := WatchAfter(cfg, f, events, n).1.status;
            s.state == f.status.state && s.restartCount == f.status.restartCount
  {
    if n > 0 {
      WatchKeepsState(cfg, f, events, n - 1);
    }
  }

  lemma StepTells(l: Loop, cfg: Config, policy: Policy, a: Attempt)
    requires !l.returned && !l.busy && 0 <= l.restarts + 1
    ensures var n := l.restarts + 1;
            TellsAttempt(LoopStep(l, cfg, policy, a).file.status, a, n, cfg, StartFile(l.file, n))
  {
    if a.Ran? {
      WatchKeepsState(cfg, StartFile(l.file, l.restarts + 1), a.events, |a.events|);
    }
  }

  // ----- The status at every write -----------------------------------------------------

  /** While a command is being watched its state is Running; readiness comes with being started. */
  ghost predicate WatchOk(cfg: Config, w: Watch, f: File, initial: UnitStatus) {
    && FileOk(f, initial)
    && f.status.state == RUNNING_STATE
    && (w.AwaitingStartup? ==> !f.status.ready)
    && (w.Watching? ==> f.status.started == Some(true))
  }

  lemma WatchStepOk(cfg: Config, w: Watch, f: File, e: WatchEvent, initial: UnitStatus)
    requires WatchOk(cfg, w, f, initial)
    ensures WatchOk(cfg, WatchStep(cfg, w, f, e).0, WatchStep(cfg, w, f, e).1, initial)
  {
    PutAttrKeepsOk(f, Some(!cfg.readiness), Some(true), initial);
    if w.Watching? && e.ReadinessResult? {
      PutAttrKeepsOk(f, Some(e.result == Success), None, initial);
    }
  }

  lemma {:induction false} WatchAfterOk(cfg: Config, f: File, events: seq<WatchEvent>, n: nat, initial: UnitStatus)
    requires n <= |events| && FileOk(f, initial) && f.status.state == RUNNING_STATE && !f.status.ready
    ensures WatchOk(cfg, WatchAfter(cfg, f, events, n).0, WatchAfter(cfg, f, events, n).1, initial)
  {
    if n == 0 {
      PutAttrKeepsOk(f, Some(!cfg.readiness), Some(true), initial);
    } else {
      WatchAfterOk(cfg, f, events, n - 1, initial);
      var (w, g) := WatchAfter(cfg, f, events, n - 1);
      WatchStepOk(cfg, w, g, events[n - 1], initial);
    }
  }

  lemma StartFileOk(f: File, restarts: int, initial: UnitStatus)
    requires FileOk(f, initial)
    ensures FileOk(StartFile(f, restarts), initial)
    ensures StartFile(f, restarts).status.state == RUNNING_STATE && !StartFile(f, restarts).status.ready
  {
    PutAttrKeepsOk(f, Some(false), Some(false), initial);
    PutStateKeepsOk(PutAttr(f, Some(false), Some(false)), RUNNING_STATE, Some(restarts), initial);
  }

  lemma CleanFileOk(f: File, e: WatchEnd, message: string, initial: UnitStatus)
    requires FileOk(f, initial)
    ensures FileOk(CleanFile(f, e, message), initial) && !CleanFile(f, e, message).status.ready
  {
    PutAttrKeepsOk(f, Some(false), Some(false), initial);
    PutStateKeepsOk(PutAttr(f, Some(false), Some(false)), TerminatedState(e, message), None, initial);
  }

  ghost predicate LoopOk(l: Loop, initial: UnitStatus) {
    FileOk(l.file, initial) && (!l.busy ==> !l.file.status.ready)
  }

  lemma LoopStepOk(l: Loop, cfg: Config, policy: Policy, a: Attempt, initial: UnitStatus)
    requires LoopOk(l, initial)
    ensures LoopOk(LoopStep(l, cfg, policy, a), initial)
  {
    if !l.returned && !l.busy {
      var r := l.restarts + 1;
      match a {
        case CapabilityError(error) =>
          PutStateKeepsOk(l.file, WaitingState("Failed to start: " + error), None, initial);
        case StartError(error) =>
          PutAttrKeepsOk(l.file, Some(false), Some(false), initial);
          PutStateKeepsOk(PutAttr(l.file, Some(false), Some(false)), WaitingState(error), Some(r), initial);
        case Ran(events, seconds, message) =>
          StartFileOk(l.file, r, initial);
          WatchAfterOk(cfg, StartFile(l.file, r), events, |events|, initial);
          var (w, f) := WatchAfter(cfg, StartFile(l.file, r), events, |events|);
          if w.Over? {
            CleanFileOk(f, w.end, message, initial);
          }
      }
    }
  }

  /** The first attempt resets readiness before anything else is written. */
  lemma FirstStepOk(cfg: Config, policy: Policy, a: Attempt, initial: UnitStatus)
    requires Consistent(initial) && !a.CapabilityError?
    ensures LoopOk(LoopStep(InitLoop(File(initial, [])), cfg, policy, a), initial)
  {
    var f := File(initial, []);
    match a {
      case StartError(error) =>
        PutAttrKeepsOk(f, Some(false), Some(false), initial);
        PutStateKeepsOk(PutAttr(f, Some(false), Some(false)), WaitingState(error), Some(0), initial);
      case Ran(events, seconds, message) =>
        StartFileOk(f, 0, initial);
        WatchAfterOk(cfg, StartFile(f, 0), events, |events|, initial);
        var (w, g) := WatchAfter(cfg, StartFile(f, 0), events, |events|);
        if w.Over? {
          CleanFileOk(g, w.end, message, initial);
        }
    }
  }

  /** A unit that began not ready, or whose first attempt gets as far as starting the command. */
  predicate BeginsWell(initial: UnitStatus, attempts: seq<Attempt>) {
    !initial.ready || (attempts != [] && !attempts[0].CapabilityError?)
  }

  lemma {:induction false} WritesStayOk(initial: UnitStatus, cfg: Config, policy: Policy, attempts: seq<Attempt>,
      n: nat)
    requires n <= |attempts| && Consistent(initial) && BeginsWell(initial, attempts)
    requires n == 0 ==> !initial.ready
    ensures LoopOk(LoopAfter(File(initial, []), cfg, policy, attempts, n), initial)
  {
    if n == 1 && initial.ready {
      FirstStepOk(cfg, policy, attempts[0], initial);
    } else if n > 0 {
      WritesStayOk(initial, cfg, policy, attempts, n - 1);
      LoopStepOk(LoopAfter(File(initial, []), cfg, policy, attempts, n - 1), cfg, policy, attempts[n - 1], initial);
    }
  }

  lemma {:induction false} WatchKeepsWrites(cfg: Config, f: File, events: seq<WatchEvent>, n: nat)
    requires n <= |events|
    ensures f.writes <= WatchAfter(cfg, f, events, n).1.writes
  {
    if n > 0 {
      WatchKeepsWrites(cfg, f, events, n - 1);
    }
  }

  lemma StepKeepsWrites(l: Loop, cfg: Config, policy: Policy, a: Attempt)
    ensures l.file.writes <= LoopStep(l, cfg, policy, a).file.writes
  {
    if a.Ran? {
      WatchKeepsWrites(cfg, StartFile(l.file, l.restarts + 1), a.events, |a.events|);
    }
  }

  /** A ready status whose capabilities cannot be set is written as waiting, and still ready. */
  lemma {:induction false} FirstWriteIsIncoherent(initial: UnitStatus, cfg: Config, policy: Policy,
      attempts: seq<Attempt>, n: nat)
    requires 0 < n <= |attempts| && initial.ready && attempts[0].CapabilityError?
    ensures var writes := LoopAfter(File(initial, []), cfg, policy, attempts, n).file.writes;
            writes != [] && !Coherent(writes[0])
  {
    if n == 1 {
      assert LoopAfter(File(initial, []), cfg, policy, attempts, 0) == InitLoop(File(initial, []));
    } else {
      FirstWriteIsIncoherent(initial, cfg, policy, attempts, n - 1);
      StepKeepsWrites(LoopAfter(File(initial, []), cfg, policy, attempts, n - 1), cfg, policy, attempts[n - 1]);
    }
  }

  /** From a status this code may have left behind, every status written has exactly one of Waiting,
      Running and Terminated set, and is ready only when started and running, if and only if the unit
      began not ready or the first attempt does not fail at its capabilities. */
  lemma {:induction false} EveryWriteIsCoherent(initial: UnitStatus, cfg: Config, policy: Policy,
      attempts: seq<Attempt>, n: nat)
    requires n <= |attempts| && Consistent(initial)
    ensures var writes := LoopAfter(File(initial, []), cfg, policy, attempts, n).file.writes;
            (forall i :: 0 <= i < |writes| ==> Coherent(writes[i])) <==> n == 0 || BeginsWell(initial, attempts)
  {
    if n > 0 && BeginsWell(initial, attempts) {
      WritesStayOk(initial, cfg, policy, attempts, n);
    } else if n > 0 {
      FirstWriteIsIncoherent(initial, cfg, policy, attempts, n);
    }
  }

  lemma {:induction false} WatchRemembers(cfg: Config, f: File, events: seq<WatchEvent>, n: nat, initial: UnitStatus)
    requires n <= |events| && Remembers(f, initial)
    ensures Remembers(WatchAfter(cfg, f, events, n).1, initial)
  {
    if n == 0 {
      PutAttrRemembers(f, Some(!cfg.readiness), Some(true), initial);
    } else {
      WatchRemembers(cfg, f, events, n - 1, initial);
      var (w, g) := WatchAfter(cfg, f, events, n - 1);
      PutAttrRemembers(g, Some(!cfg.readiness), Some(true), initial);
      if events[n - 1].ReadinessResult? {
        PutAttrRemembers(g, Some(events[n - 1].result == Success), None, initial);
      }
    }
  }

  /** Resetting ready and started and then setting a state. */
  lemma SetRemembers(f: File, state: UnitState, restarts: Option<int>, initial: UnitStatus)
    requires Remembers(f, initial)
    ensures Remembers(PutState(PutAttr(f, Some(false), Some(false)), state, restarts), initial)
  {
    PutAttrRemembers(f, Some(false), Some(false), initial);
    PutStateRemembers(PutAttr(f, Some(false), Some(false)), state, restarts, initial);
  }

  lemma StepRemembers(l: Loop, cfg: Config, policy: Policy, a: Attempt, initial: UnitStatus)
    requires Remembers(l.file, initial)
    ensures Remembers(LoopStep(l, cfg, policy, a).file, initial)
  {
    var r := l.restarts + 1;
    match a {
      case CapabilityError(error) =>
        PutStateRemembers(l.file, WaitingState("Failed to start: " + error), None, initial);
      case StartError(error) => SetRemembers(l.file, WaitingState(error), Some(r), initial);
      case Ran(events, seconds, message) =>
        SetRemembers(l.file, RUNNING_STATE, Some(r), initial);
        WatchRemembers(cfg, StartFile(l.file, r), events, |events|, initial);
        var (w, f) := WatchAfter(cfg, StartFile(l.file, r), events, |events|);
        if w.Over? {
          SetRemembers(f, TerminatedState(w.end, message), None, initial);
        }
    }
  }

  /** Coherent or not, every status written remembers the latest Terminated state written so far. */
  lemma {:induction false} TerminationIsRemembered(
      initial: UnitStatus, cfg: Config, policy: Policy, attempts: seq<Attempt>, n: nat)
    requires n <= |attempts| && (initial.state.terminated.Some? ==> initial.lastTerminationState == initial.state)
    ensures Remembers(LoopAfter(File(initial, []), cfg, policy, attempts, n).file, initial)
  {
    if n > 0 {
      TerminationIsRemembered(initial, cfg, policy, attempts, n - 1);
      StepRemembers(LoopAfter(File(initial, []), cfg, policy, attempts, n - 1), cfg, policy, attempts[n - 1], initial);
    }
  }

  // ----- Restart policy ----------------------------------------------------------------

  ghost predicate PolicyInv(l: Loop, policy: Policy) {
    && l.starts == |l.runs| + (if l.busy then 1 else 0)
    && !(l.returned && l.busy)
    && (l.returned <==> l.runs != [] && GivesUp(policy, l.runs[|l.runs| - 1]))
    && (forall i :: 0 <= i < |l.runs| - 1 ==> !GivesUp(policy, l.runs[i]))
  }

  lemma LoopStepObeysPolicy(l: Loop, cfg: Config, policy: Policy, a: Attempt)
    requires PolicyInv(l, policy)
    ensures PolicyInv(LoopStep(l, cfg, policy, a), policy)
  {
  }

  /** The loop returns exactly when a completed run makes the policy give up; no earlier run did. */
  lemma {:induction false} PolicyDecides(f: File, cfg: Config, policy: Policy, attempts: seq<Attempt>, n: nat)
    requires n <= |attempts|
    ensures PolicyInv(LoopAfter(f, cfg, policy, attempts, n), policy)
  {
    if n > 0 {
      PolicyDecides(f, cfg, policy, attempts, n - 1);
      LoopStepObeysPolicy(LoopAfter(f, cfg, policy, attempts, n - 1), cfg, policy, attempts[n - 1]);
    }
  }

  ghost predicate PolicyKept(l: Loop, policy: Policy) {
    match policy
    case Never => l.starts <= 1 && (l.returned <==> |l.runs| == 1)
    case OnFailure =>
      && (forall i :: 0 <= i < |l.runs| - 1 ==> CmdFailed(l.runs[i]))
      && (l.returned <==> |l.runs| > 0 && !CmdFailed(l.runs[|l.runs| - 1]))
    case Always => !l.returned
  }

  /** Under Never the command is started successfully at most once. Under OnFailure every completed
      run but the last ended with a command error and the loop returns no error - a run ended by a
      probe counts as a success here. Under Always the loop never returns. */
  lemma {:induction false} PolicyOverWholeRuns(f: File, cfg: Config, policy: Policy, attempts: seq<Attempt>, n: nat)
    requires n <= |attempts|
    ensures PolicyKept(LoopAfter(f, cfg, policy, attempts, n), policy)
  {
    PolicyDecides(f, cfg, policy, attempts, n);
    PolicyMeaning(LoopAfter(f, cfg, policy, attempts, n), policy);
  }

  /** For instance, a unit whose liveness probe fails is killed and not run again under OnFailure. */
  lemma ProbeKillIsNotRestarted(f: File, cfg: Config, seconds: nat, message: string)
    requires cfg.liveness && !cfg.startup
    ensures var l := LoopAfter(f, cfg, PodSpecs.OnFailure, [Ran([LivenessResult(Failure)], seconds, message)], 1);
            l.returned && l.runs == [LivenessFailed] && l.sleeps == []
  {
    var g, events := StartFile(f, 0), [LivenessResult(Failure)];
    assert WatchAfter(cfg, g, events, 0) == (Watching, MarkStarted(cfg, g));
    assert WatchAfter(cfg, g, events, 1).0 == Over(LivenessFailed);
    assert LoopAfter(f, cfg, PodSpecs.OnFailure, [Ran(events, seconds, message)], 0) == InitLoop(f);
  }

  lemma PolicyMeaning(l: Loop, policy: Policy)
    requires PolicyInv(l, policy)
    ensures PolicyKept(l, policy)
  {
    assert |l.runs| > 1 ==> !GivesUp(policy, l.runs[0]);
  }

  predicate Ended(l: Loop) {
    l.returned || l.busy
  }

  /** How many of the first `n` attempts started the command. */
  function Started(attempts: seq<Attempt>, n: nat): nat
    requires n <= |attempts|
  {
    if n == 0 then 0 else Started(attempts, n - 1) + if attempts[n - 1].Ran? then 1 else 0
  }

  lemma StepRetries(l: Loop, cfg: Config, policy: Policy, a: Attempt)
    requires !Ended(l)
    ensures var m := LoopStep(l, cfg, policy, a);
            && m.restarts == l.restarts + 1 && m.starts == l.starts + (if a.Ran? then 1 else 0)
            && (if Ended(m) then a.Ran? && |m.sleeps| == |l.sleeps| else |m.sleeps| == |l.sleeps| + 1)
  {
  }

  /** Attempt `i` ended the loop, which since then is `l`. */
  ghost predicate EndedBy(l: Loop, f: File, cfg: Config, policy: Policy, attempts: seq<Attempt>, i: nat) {
    && i < |attempts| && attempts[i].Ran?
    && !Ended(LoopAfter(f, cfg, policy, attempts, i)) && LoopAfter(f, cfg, policy, attempts, i + 1) == l
    && |l.sleeps| == l.restarts == i && l.starts == Started(attempts, i + 1)
  }

  /** Failures to set capabilities or to start never end the loop, whatever the policy: as long as it
      has not ended, every attempt so far was followed by one delay and the next attempt, and what
      ends it is an attempt that started the command. */
  lemma {:induction false} StartFailuresAreRetried(f: File, cfg: Config, policy: Policy, attempts: seq<Attempt>, n: nat)
    requires n <= |attempts|
    ensures var l := LoopAfter(f, cfg, policy, attempts, n);
            if Ended(l) then exists i :: 0 <= i < n && EndedBy(l, f, cfg, policy, attempts, i)
            else |l.sleeps| == n && l.restarts == n - 1 && l.starts == Started(attempts, n)
  {
    if n > 0 {
      StartFailuresAreRetried(f, cfg, policy, attempts, n - 1);
      var l, m := LoopAfter(f, cfg, policy, attempts, n - 1), LoopAfter(f, cfg, policy, attempts, n);
      if Ended(l) {
        assert m == l;
      } else {
        StepRetries(l, cfg, policy, attempts[n - 1]);
        assert Ended(m) ==> EndedBy(m, f, cfg, policy, attempts, n - 1);
      }
    }
  }

  /** So a unit that only ever fails to start is retried under Never and OnFailure, too. */
  lemma {:induction false} OnlyStartFailures(f: File, cfg: Config, policy: Policy, attempts: seq<Attempt>, n: nat)
    requires n <= |attempts| && forall i :: 0 <= i < n ==> !attempts[i].Ran?
    ensures var l := LoopAfter(f, cfg, policy, attempts, n);
            !Ended(l) && |l.sleeps| == n && l.restarts == n - 1 && l.starts == 0
  {
    StartFailuresAreRetried(f, cfg, policy, attempts, n);
    NoneStarted(attempts, n);
  }

  lemma {:induction false} NoneStarted(attempts: seq<Attempt>, n: nat)
    requires n <= |attempts| && forall i :: 0 <= i < n ==> !attempts[i].Ran?
    ensures Started(attempts, n) == 0
  {
    if n > 0 {
      NoneStarted(attempts, n - 1);
    }
  }

  // ----- The command's own result ------------------------------------------------------

  /** Over whole runs: what an attempt made while the loop goes on leads to. The file tells what became
      of it; when the command ended by itself the loop returns or goes on by the result the command
      really had: under OnFailure it returns exactly when the command ended without an error or was
      ended by a probe, under Never always, under Always never. */
  lemma {:induction false} ResultDecides(f: File, cfg: Config, policy: Policy, attempts: seq<Attempt>, n: nat)
    requires n < |attempts| && !Ended(LoopAfter(f, cfg, policy, attempts, n))
    ensures var l, m := LoopAfter(f, cfg, policy, attempts, n), LoopAfter(f, cfg, policy, attempts, n + 1);
            var g := StartFile(l.file, n);
            && TellsAttempt(m.file.status, attempts[n], n, cfg, g)
            && (attempts[n].Ran? ==>
                  var events := attempts[n].events;
                  && (m.busy <==> !WatchAfter(cfg, g, events, |events|).0.Over?)
                  && (!m.busy ==> (m.returned <==>
                        policy == PodSpecs.Never || (policy == PodSpecs.OnFailure && !ReportsError(cfg, g, events)))))
  {
    StartFailuresAreRetried(f, cfg, policy, attempts, n);
    var l := LoopAfter(f, cfg, policy, attempts, n);
    StepTells(l, cfg, policy, attempts[n]);
    if attempts[n].Ran? {
      StepReturns(l, cfg, policy, attempts[n]);
    }
  }

  /** The command ended by itself, with an error. */
  ghost predicate ReportsError(cfg: Config, f: File, events: seq<WatchEvent>) {
    exists i, c :: EndsItself(cfg, f, events, i, c) && c != CmdOk
  }

  lemma StepReturns(l: Loop, cfg: Config, policy: Policy, a: Attempt)
    requires !Ended(l) && a.Ran?
    ensures var m := LoopStep(l, cfg, policy, a); var g := StartFile(l.file, l.restarts + 1);
            && (m.busy <==> !WatchAfter(cfg, g, a.events, |a.events|).0.Over?)
            && (!m.busy ==> (m.returned <==>
                  policy == PodSpecs.Never || (policy == PodSpecs.OnFailure && !ReportsError(cfg, g, a.events))))
  {
    var g := StartFile(l.file, l.restarts + 1);
    var w := WatchAfter(cfg, g, a.events, |a.events|).0;
    if ReportsError(cfg, g, a.events) {
      var i, c :| EndsItself(cfg, g, a.events, i, c) && c != CmdOk;
      ExitsExactlyWhen(cfg, g, a.events, |a.events|, c);
    }
    if w.Over? && w.end.Exited? {
      ExitsExactlyWhen(cfg, g, a.events, |a.events|, w.end.cmd);
    }
  }

  // ----- Back-off ----------------------------------------------------------------------

  function Pow2(k: nat): nat {
    if k == 0 then 1 else 2 * Pow2(k - 1)
  }

  /** The delay after `k` failing attempts in a row. */
  function Delay(k: nat): nat {
    Min(Pow2(k), 300)
  }

  lemma {:induction false} PowersArePositive(k: nat)
    ensures 1 <= Pow2(k)
  {
    if k > 0 {
      PowersArePositive(k - 1);
    }
  }

  lemma {:induction false} DelaysGrow(j: nat, k: nat)
    requires j <= k
    ensures 1 <= Delay(j) <= Delay(k) <= 300
  {
    PowersArePositive(j);
    if j < k {
      DelaysGrow(j, k - 1);
      PowersArePositive(k - 1);
    }
  }

  /** An attempt after which the delay grows: it failed, and had not been running for 10 minutes. */
  predicate Failing(cfg: Config, f: File, a: Attempt) {
    match a
    case CapabilityError(_) => true
    case StartError(_) => true
    case Ran(events, seconds, _) =>
      var w := WatchAfter(cfg, f, events, |events|).0;
      w.Over? && CmdFailed(w.end) && seconds < 600
  }

  /** How many of the first `n` attempts failed in a row at the end. The watch of a run does not
      depend on the file, so any file does here. */
  function Streak(cfg: Config, attempts: seq<Attempt>, n: nat): nat
    requires n <= |attempts|
  {
    if n == 0 || !Failing(cfg, File(STILL_CREATING, []), attempts[n - 1]) then 0 else 1 + Streak(cfg, attempts, n - 1)
  }

  lemma {:induction false} WatchIgnoresFile(cfg: Config, f: File, g: File, events: seq<WatchEvent>, n: nat)
    requires n <= |events|
    ensures WatchAfter(cfg, f, events, n).0 == WatchAfter(cfg, g, events, n).0
  {
    if n > 0 {
      WatchIgnoresFile(cfg, f, g, events, n - 1);
    }
  }

  ghost predicate BackoffInv(l: Loop, cfg: Config, attempts: seq<Attempt>, n: nat)
    requires n <= |attempts|
  {
    && |l.sleeps| <= n
    && (forall i :: 0 <= i < |l.sleeps| ==> l.sleeps[i] == Delay(Streak(cfg, attempts, i + 1)))
    && (!l.returned && !l.busy ==> |l.sleeps| == n && l.backoff == Delay(Streak(cfg, attempts, n)))
  }

  lemma BackoffDoubles(cfg: Config, attempts: seq<Attempt>, n: nat, failed: bool, seconds: nat)
    requires 0 < n <= |attempts|
    requires Failing(cfg, File(STILL_CREATING, []), attempts[n - 1]) <==> failed && seconds < BACKOFF_RESET
    ensures Backoff(failed, Delay(Streak(cfg, attempts, n - 1)), seconds) == Delay(Streak(cfg, attempts, n))
  {
    PowersArePositive(Streak(cfg, attempts, n - 1));
  }

  lemma LoopStepBacksOff(l: Loop, cfg: Config, policy: Policy, attempts: seq<Attempt>, n: nat)
    requires 0 < n <= |attempts| && BackoffInv(l, cfg, attempts, n - 1)
    ensures BackoffInv(LoopStep(l, cfg, policy, attempts[n - 1]), cfg, attempts, n)
  {
    if !l.returned && !l.busy {
      match attempts[n - 1] {
        case CapabilityError(_) => BackoffDoubles(cfg, attempts, n, true, 0);
        case StartError(_) => BackoffDoubles(cfg, attempts, n, true, 0);
        case Ran(events, seconds, _) =>
          WatchIgnoresFile(cfg, StartFile(l.file, l.restarts + 1), File(STILL_CREATING, []), events, |events|);
          var w := WatchAfter(cfg, File(STILL_CREATING, []), events, |events|).0;
          if w.Over? {
            BackoffDoubles(cfg, attempts, n, CmdFailed(w.end), seconds);
          }
      }
    }
  }

  /** Every delay is 2^k seconds, at most five minutes, where k counts the failing attempts in a row
      up to then: it lies between one second and five minutes, and does not shrink while attempts
      keep failing. */
  lemma {:induction false} BackoffClosedForm(f: File, cfg: Config, policy: Policy, attempts: seq<Attempt>, n: nat)
    requires n <= |attempts|
    ensures var l := LoopAfter(f, cfg, policy, attempts, n);
            && BackoffInv(l, cfg, attempts, n)
            && (forall i :: 0 <= i < |l.sleeps| ==> 1 <= l.sleeps[i] <= 300)
            && (forall i :: 0 < i < |l.sleeps| && Failing(cfg, File(STILL_CREATING, []), attempts[i]) ==>
                  l.sleeps[i - 1] <= l.sleeps[i])
  {
    if n > 0 {
      BackoffClosedForm(f, cfg, policy, attempts, n - 1);
      LoopStepBacksOff(LoopAfter(f, cfg, policy, attempts, n - 1), cfg, policy, attempts, n);
    }
    var l := LoopAfter(f, cfg, policy, attempts, n);
    forall i | 0 <= i < |l.sleeps|
      ensures 1 <= l.sleeps[i] <= 300
      ensures 0 < i && Failing(cfg, File(STILL_CREATING, []), attempts[i]) ==> l.sleeps[i - 1] <= l.sleeps[i]
    {
      DelaysGrow(Streak(cfg, attempts, i + 1), Streak(cfg, attempts, i + 1));
      if 0 < i && Failing(cfg, File(STILL_CREATING, []), attempts[i]) {
        assert l.sleeps[i - 1] == Delay(Streak(cfg, attempts, i));
        DelaysGrow(Streak(cfg, attempts, i), Streak(cfg, attempts, i + 1));
      }
    }
  }

  // ----- Restart counts ----------------------------------------------------------------

  /** The first of the first `n` attempts that gets as far as starting the command. */
  function FirstStart(attempts: seq<Attempt>, n: nat): Option<nat>
    requires n <= |attempts|
  {
    if n == 0 then None
    else if FirstStart(attempts, n - 1).Some? then FirstStart(attempts, n - 1)
    else if attempts[n - 1].CapabilityError? then None
    else Some(n - 1)
  }

  ghost predicate CountsShaped(f: File, initial: int, p: nat, first: int) {
    CountShape(f.writes, initial, p, first, f.status.restartCount)
  }

  lemma PutCounted(f: File, s: UnitStatus, initial: int, p: nat, first: int)
    requires CountsShaped(f, initial, p, first) && f.status.restartCount <= s.restartCount
    ensures CountsShaped(Put(f, s), initial, p, first)
  {
    ShapeGrows(f.writes, s, initial, p, first, f.status.restartCount);
  }

  lemma {:induction false} WatchCounted(cfg: Config, f: File, events: seq<WatchEvent>, n: nat, initial: int, p: nat,
      first: int)
    requires n <= |events| && CountsShaped(f, initial, p, first)
    ensures var g := WatchAfter(cfg, f, events, n).1;
            CountsShaped(g, initial, p, first) && g.status.restartCount == f.status.restartCount
  {
    if n == 0 {
      PutCounted(f, MarkStarted(cfg, f).status, initial, p, first);
    } else {
      WatchCounted(cfg, f, events, n - 1, initial, p, first);
      var (w, g) := WatchAfter(cfg, f, events, n - 1);
      PutCounted(g, WatchStep(cfg, w, g, events[n - 1]).1.status, initial, p, first);
    }
  }

  lemma CleanCounted(f: File, e: WatchEnd, message: string, initial: int, p: nat, first: int)
    requires CountsShaped(f, initial, p, first)
    ensures CountsShaped(CleanFile(f, e, message), initial, p, first)
    ensures CleanFile(f, e, message).status.restartCount == f.status.restartCount
  {
    var g := PutAttr(f, Some(false), Some(false));
    PutCounted(f, g.status, initial, p, first);
    PutCounted(g, CleanFile(f, e, message).status, initial, p, first);
  }

  /** Resetting ready and started and then setting a state with a restart count. */
  lemma SetCounted(f: File, state: UnitState, r: nat, initial: int, p: nat, first: int)
    requires CountsShaped(f, initial, p, first) && f.status.restartCount <= r
    ensures var g := PutState(PutAttr(f, Some(false), Some(false)), state, Some(r));
            CountsShaped(g, initial, p, first) && g.status.restartCount == r
  {
    var g := PutAttr(f, Some(false), Some(false));
    PutCounted(f, g.status, initial, p, first);
    PutCounted(g, PutState(g, state, Some(r)).status, initial, p, first);
  }

  lemma SetFirstCounted(f: File, state: UnitState, r: nat, initial: int)
    requires f.status.restartCount == initial && forall i :: 0 <= i < |f.writes| ==> f.writes[i].restartCount == initial
    ensures var g := PutState(PutAttr(f, Some(false), Some(false)), state, Some(r));
            CountsShaped(g, initial, |f.writes| + 1, r) && g.status.restartCount == r
  {
  }

  ghost predicate CountInv(l: Loop, initial: int, first: Option<nat>) {
    && -1 <= l.restarts
    && match first
       case None => l.file.status.restartCount == initial && !l.busy && !l.returned
                    && forall i :: 0 <= i < |l.file.writes| ==> l.file.writes[i].restartCount == initial
       case Some(k) => l.file.status.restartCount <= l.restarts
                       && exists p: nat :: CountsShaped(l.file, initial, p, k)
  }

  lemma LaterStepCounts(l: Loop, cfg: Config, policy: Policy, a: Attempt, initial: int, first: nat)
    requires CountInv(l, initial, Some(first))
    ensures CountInv(LoopStep(l, cfg, policy, a), initial, Some(first))
  {
    var p: nat :| CountsShaped(l.file, initial, p, first);
    if !l.returned && !l.busy {
      var r := l.restarts + 1;
      match a {
        case CapabilityError(error) =>
          var g := PutState(l.file, WaitingState("Failed to start: " + error), None);
          PutCounted(l.file, g.status, initial, p, first);
        case StartError(error) => SetCounted(l.file, WaitingState(error), r, initial, p, first);
        case Ran(events, seconds, message) =>
          SetCounted(l.file, RUNNING_STATE, r, initial, p, first);
          RunCounts(cfg, StartFile(l.file, r), events, message, initial, p, first);
      }
    }
    assert CountsShaped(LoopStep(l, cfg, policy, a).file, initial, p, first);
  }

  lemma RunCounts(cfg: Config, f: File, events: seq<WatchEvent>, message: string, initial: int, p: nat, first: int)
    requires CountsShaped(f, initial, p, first)
    ensures var (w, g) := WatchAfter(cfg, f, events, |events|);
            && CountsShaped(g, initial, p, first) && g.status.restartCount == f.status.restartCount
            && (w.Over? ==> CountsShaped(CleanFile(g, w.end, message), initial, p, first)
                            && CleanFile(g, w.end, message).status.restartCount == f.status.restartCount)
  {
    WatchCounted(cfg, f, events, |events|, initial, p, first);
    var (w, g) := WatchAfter(cfg, f, events, |events|);
    if w.Over? {
      CleanCounted(g, w.end, message, initial, p, first);
    }
  }

  lemma FirstStepCounts(l: Loop, cfg: Config, policy: Policy, a: Attempt, initial: int)
    requires CountInv(l, initial, None)
    ensures CountInv(LoopStep(l, cfg, policy, a), initial, if a.CapabilityError? then None else Some(l.restarts + 1))
  {
    var r, p := l.restarts + 1, |l.file.writes| + 1;
    match a {
      case CapabilityError(error) =>
      case StartError(error) =>
        SetFirstCounted(l.file, WaitingState(error), r, initial);
        assert CountsShaped(LoopStep(l, cfg, policy, a).file, initial, p, r);
      case Ran(events, seconds, message) =>
        SetFirstCounted(l.file, RUNNING_STATE, r, initial);
        RunCounts(cfg, StartFile(l.file, r), events, message, initial, p, r);
        assert CountsShaped(LoopStep(l, cfg, policy, a).file, initial, p, r);
    }
  }

  ghost predicate CountedUpTo(l: Loop, attempts: seq<Attempt>, n: nat, initial: int)
    requires n <= |attempts|
  {
    CountInv(l, initial, FirstStart(attempts, n)) && (FirstStart(attempts, n).None? ==> l.restarts == n - 1)
  }

  lemma StepCounts(l: Loop, cfg: Config, policy: Policy, attempts: seq<Attempt>, n: nat, initial: int)
    requires n < |attempts| && CountedUpTo(l, attempts, n, initial)
    ensures CountedUpTo(LoopStep(l, cfg, policy, attempts[n]), attempts, n + 1, initial)
  {
    match FirstStart(attempts, n) {
      case Some(k) => LaterStepCounts(l, cfg, policy, attempts[n], initial, k);
      case None => FirstStepCounts(l, cfg, policy, attempts[n], initial);
    }
  }

  lemma {:induction false} CountsAfter(initial: UnitStatus, cfg: Config, policy: Policy, attempts: seq<Attempt>, n: nat)
    requires n <= |attempts|
    ensures CountedUpTo(LoopAfter(File(initial, []), cfg, policy, attempts, n), attempts, n, initial.restartCount)
  {
    if n > 0 {
      CountsAfter(initial, cfg, policy, attempts, n - 1);
      var l := LoopAfter(File(initial, []), cfg, policy, attempts, n - 1);
      StepCounts(l, cfg, policy, attempts, n - 1, initial.restartCount);
    }
  }

  /** Within one loop the written restart counts never decrease exactly when no attempt has got as
      far as starting the command, or the count found in the status file at the outset was at most
      the number of attempts that failed before the first start. */
  lemma WhenRestartCountsGrow(initial: UnitStatus, cfg: Config, policy: Policy, attempts: seq<Attempt>, n: nat)
    requires n <= |attempts|
    ensures CountsNeverDecrease(LoopAfter(File(initial, []), cfg, policy, attempts, n).file.writes) <==>
              FirstStart(attempts, n).None? || initial.restartCount <= FirstStart(attempts, n).value
  {
    CountsAfter(initial, cfg, policy, attempts, n);
    var l := LoopAfter(File(initial, []), cfg, policy, attempts, n);
    if k :| FirstStart(attempts, n) == Some(k) {
      var p: nat :| CountsShaped(l.file, initial.restartCount, p, k);
      ShapeDecides(l.file.writes, initial.restartCount, p, k, l.file.status.restartCount);
    }
  }

  /** A count can go down: a unit that has been restarted begins again at 0 with the next loop. */
  lemma {:induction false} CountsStartOver(initial: UnitStatus, cfg: Config, policy: Policy, error: string)
    requires initial.restartCount > 0
    ensures var writes := LoopAfter(File(initial, []), cfg, policy, [StartError(error)], 1).file.writes;
            && |writes| == 2 && writes[0].restartCount == initial.restartCount && writes[1].restartCount == 0
            && !CountsNeverDecrease(writes)
  {
    var attempts := [StartError(error)];
    assert FirstStart(attempts, 0) == None && FirstStart(attempts, 1) == Some(0);
    WhenRestartCountsGrow(initial, cfg, policy, attempts, 1);
    assert LoopAfter(File(initial, []), cfg, policy, attempts, 0) == InitLoop(File(initial, []));
  }
}
