/** The unit object with its status file, and the code of its restart loop (pkg/unit/unit.go). The
    environment is given as the attempts the loop goes through; the loop stops early when they are
    used up. */
module UnitRunners {
  import opened Basics
  import opened UnitStatuses
  import opened ProbeWorkers
  import opened UnitLoops
  import PodSpecs

  /** Once a watch is over, later events change nothing. */
  lemma {:induction false} OverStays(cfg: Config, f: File, events: seq<WatchEvent>, i: nat, n: nat)
    requires i <= n <= |events| && WatchAfter(cfg, f, events, i).0.Over?
    ensures WatchAfter(cfg, f, events, n) == WatchAfter(cfg, f, events, i)
  {
    if i < n {
      OverStays(cfg, f, events, i, n - 1);
    }
  }

  lemma {:induction false} DoneStays(f: File, cfg: Config, policy: Policy, attempts: seq<Attempt>, i: nat, n: nat)
    requires i <= n <= |attempts|
    requires var l := LoopAfter(f, cfg, policy, attempts, i); l.returned || l.busy
    ensures LoopAfter(f, cfg, policy, attempts, n) == LoopAfter(f, cfg, policy, attempts, i)
  {
    if i < n {
      DoneStays(f, cfg, policy, attempts, i, n - 1);
    }
  }

  class Unit {
    const cfg: Config
    var statusFile: Option<UnitStatus>
    var writes: seq<UnitStatus>     // every status written so far
    var sleeps: seq<nat>            // every back-off delay so far

    function Stored(): File
      reads this`statusFile, this`writes
    {
      File(if statusFile.None? then STILL_CREATING else statusFile.value, writes)
    }

    constructor (cfg: Config, statusFile: Option<UnitStatus>)
      ensures this.cfg == cfg && this.statusFile == statusFile && writes == [] && sleeps == []
    {
      this.cfg, this.statusFile, writes, sleeps := cfg, statusFile, [], [];
    }

    method GetStatus() returns (s: UnitStatus)
      ensures s == Stored().status
    {
      s := if statusFile.None? then STILL_CREATING else statusFile.value;
    }

    method SetStatus(s: UnitStatus)
      modifies this`statusFile, this`writes
      ensures Stored() == Put(old(Stored()), s)
    {
      statusFile := Some(s);
      writes := writes + [s];
    }

    method UpdateStatusAttr(ready: Option<bool>, started: Option<bool>)
      modifies this`statusFile, this`writes
      ensures Stored() == PutAttr(old(Stored()), ready, started)
    {
      var status := GetStatus();
      if ready.Some? {
        status := status.(ready := ready.value);
      }
      if started.Some? {
        status := status.(started := started);
      }
      SetStatus(status);
    }

    method SetState(state: UnitState, restarts: Option<int>)
      modifies this`statusFile, this`writes
      ensures Stored() == PutState(old(Stored()), state, restarts)
    {
      var status := GetStatus();
      status := status.(state := state);
      if status.state.terminated.Some? {
        status := status.(lastTerminationState := state);
      }
      if restarts.Some? && restarts.value >= 0 {
        status := status.(restartCount := restarts.value);
      }
      SetStatus(status);
    }

    method MaybeBackOff(failed: bool, backoff: nat, runningTime: nat) returns (b: nat)
      modifies this`sleeps
      ensures b == Backoff(failed, backoff, runningTime) && sleeps == old(sleeps) + [b]
    {
      if !failed || runningTime >= BACKOFF_RESET {
        b := 1;
      } else {
        b := 2 * backoff;
        if b > MAX_BACKOFF {
          b := MAX_BACKOFF;
        }
      }
      sleeps := sleeps + [b];
    }

    /** `end` is None when the command is still being watched after the last event. */
    method WatchRunningCmd(events: seq<WatchEvent>) returns (end: Option<WatchEnd>)
      modifies this`statusFile, this`writes
      ensures var (w, f) := WatchAfter(cfg, old(Stored()), events, |events|);
              Stored() == f && (end.Some? <==> w.Over?) && (end.Some? ==> end.value == w.end)
    {
      ghost var f0 := Stored();
      var i := 0;
      if cfg.startup {
        var started := false;
        while i < |events| && !started
          invariant 0 <= i <= |events|
          invariant !started ==> WatchAfter(cfg, f0, events, i) == (AwaitingStartup, Stored())
          invariant started ==> WatchAfter(cfg, f0, events, i) == (Watching, MarkStarted(cfg, Stored()))
          invariant Stored() == f0
        {
          var e := events[i];
          i := i + 1;
          if e.CmdDone? || e == StartupResult(Failure) {
            OverStays(cfg, f0, events, i, |events|);
            return Some(if e.CmdDone? then Exited(e.cmd) else StartupFailed);
          } else if e == StartupResult(Success) {
            started := true;
          }
        }
        if !started {
          return None;
        }
      }
      var isReady := !cfg.readiness;
      UpdateStatusAttr(Some(isReady), Some(true));
      while i < |events|
        invariant 0 <= i <= |events|
        invariant WatchAfter(cfg, f0, events, i) == (Watching, Stored())
      {
        var e := events[i];
        i := i + 1;
        if e.CmdDone? {
          OverStays(cfg, f0, events, i, |events|);
          return Some(Exited(e.cmd));
        } else if e.LivenessResult? && cfg.liveness {
          if e.result == Failure {
            OverStays(cfg, f0, events, i, |events|);
            return Some(LivenessFailed);
          }
        } else if e.ReadinessResult? && cfg.readiness {
          var ready := e.result == Success;
          UpdateStatusAttr(Some(ready), None);
        }
      }
      end := None;
    }

    method HandleCmdCleanup(end: WatchEnd, policy: Policy, message: string) returns (keepGoing: bool)
      modifies this`statusFile, this`writes
      ensures Stored() == CleanFile(old(Stored()), end, message)
      ensures keepGoing <==> !GivesUp(policy, end)
    {
      keepGoing := true;
      var failure, exitCode, reason := false, 0, "";
      if end.Exited? && end.cmd != CmdOk {
        failure := true;
        reason := "Error";
        if end.cmd.CmdExit? {
          exitCode := end.cmd.code;
        }
      } else if !end.Exited? {
        reason := "Error";
      } else {
        reason := "Completed";
      }
      UpdateStatusAttr(Some(false), Some(false));
      SetState(UnitState(None, None, Some(Terminated(exitCode, reason, message))), None);
      if policy == PodSpecs.Never || (policy == PodSpecs.OnFailure && !failure) {
        keepGoing := false;
      }
    }

    /** The object and the loop's local variables agree with `l`. */
    ghost predicate At(l: Loop, slept: seq<nat>, backoff: nat, restarts: int)
      reads this`statusFile, this`writes, this`sleeps
    {
      Stored() == l.file && sleeps == slept + l.sleeps && backoff == l.backoff && restarts == l.restarts
    }

    /** The object and the loop's local variables, `result` included, are where the loop is after
        `i` attempts. */
    ghost predicate Progress(
      f0: File, policy: Policy, attempts: seq<Attempt>, i: nat, slept: seq<nat>,
      backoff: nat, restarts: int, busy: bool, returned: bool, result: CmdResult)
      reads this`statusFile, this`writes, this`sleeps
      requires i <= |attempts|
    {
      var l := LoopAfter(f0, cfg, policy, attempts, i);
      && At(l, slept, backoff, restarts)
      && busy == l.busy && returned == l.returned && (returned ==> Returns(l, result))
    }

    /** One iteration of the loop, with `restarts` already incremented. */
    method RunOnce(policy: Policy, a: Attempt, b: nat, restarts: int, ghost l: Loop, ghost slept: seq<nat>)
      returns (backoff: nat, busy: bool, returned: bool, result: CmdResult)
      requires At(l, slept, b, restarts - 1) && 0 <= restarts && !l.returned && !l.busy
      modifies this`statusFile, this`writes, this`sleeps
      ensures var m := LoopStep(l, cfg, policy, a);
              && At(m, slept, backoff, restarts) && busy == m.busy && returned == m.returned
              && (returned ==> Returns(m, result))
    {
      backoff, busy, returned, result := b, false, false, CmdOk;
      match a {
        case CapabilityError(error) =>
          SetState(WaitingState("Failed to start: " + error), None);
          backoff := MaybeBackOff(true, backoff, 0);
        case StartError(error) =>
          UpdateStatusAttr(Some(false), Some(false));
          SetState(WaitingState(error), Some(restarts));
          backoff := MaybeBackOff(true, backoff, 0);
        case Ran(events, seconds, message) =>
          UpdateStatusAttr(Some(false), Some(false));
          SetState(RUNNING_STATE, Some(restarts));
          var end := WatchRunningCmd(events);
          if end.None? {
            return backoff, true, false, CmdOk;
          }
          var keepGoing := HandleCmdCleanup(end.value, policy, message);
          result := ResultOf(end.value);
          if !keepGoing {
            return backoff, false, true, result;
          }
          backoff := MaybeBackOff(result != CmdOk, backoff, seconds);
      }
    }

    /** The body of the loop. */
    method RunNext(
        policy: Policy, attempts: seq<Attempt>, i: nat, b: nat, r: int, ghost f0: File, ghost slept: seq<nat>)
      returns (backoff: nat, restarts: int, busy: bool, returned: bool, result: CmdResult)
      requires i < |attempts| && -1 <= r && Progress(f0, policy, attempts, i, slept, b, r, false, false, CmdOk)
      modifies this`statusFile, this`writes, this`sleeps
      ensures restarts == r + 1
      ensures Progress(f0, policy, attempts, i + 1, slept, backoff, restarts, busy, returned, result)
    {
      restarts := r + 1;
      backoff, busy, returned, result :=
        RunOnce(policy, attempts[i], b, restarts, LoopAfter(f0, cfg, policy, attempts, i), slept);
    }

    /** The loop; `result` is what it returns if it does. */
    method RunUnitLoop(policy: Policy, attempts: seq<Attempt>) returns (returned: bool, result: CmdResult)
      modifies this`statusFile, this`writes, this`sleeps
      ensures var l := LoopAfter(old(Stored()), cfg, policy, attempts, |attempts|);
              && Stored() == l.file && sleeps == old(sleeps) + l.sleeps && returned == l.returned
              && (returned ==> Returns(l, result))
    {
      ghost var f0, slept := Stored(), sleeps;
      var backoff: nat, restarts, i, busy := 1, -1, 0, false;
      returned, result := false, CmdOk;
      while i < |attempts| && !busy && !returned
        invariant 0 <= i <= |attempts| && -1 <= restarts
        invariant Progress(f0, policy, attempts, i, slept, backoff, restarts, busy, returned, result)
      {
        backoff, restarts, busy, returned, result := RunNext(policy, attempts, i, backoff, restarts, f0, slept);
        i := i + 1;
      }
      if i < |attempts| {
        DoneStays(f0, cfg, policy, attempts, i, |attempts|);
      }
    }
  }

  /** The loop returns what the command of its last run ended with; no error if a probe ended it. */
  predicate Returns(l: Loop, result: CmdResult) {
    && l.runs != []
    && match l.runs[|l.runs| - 1]
       case Exited(cmd) => result == cmd
       case _ => result == CmdOk
  }

  /** The error watchRunningCmd returns for the command: none when a probe ended the run. */
  function ResultOf(end: WatchEnd): CmdResult {
    if end.Exited? then end.cmd else CmdOk
  }
}
