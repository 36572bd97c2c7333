/** The pod controller's synchronisation code over a runtime whose calls may fail
    (pkg/server/pod_controller.go, pkg/runtime/itzo_linux.go). The goroutine that starts the units
    is handed out as a job; PodSystem runs it concurrently. */
module PodControllers {
  import opened Basics
  import opened PodSpecs
  import opened PodSync

  // ----- The code ----------------------------------------------------------------------

  datatype PodParameters = PodParameters(spec: PodSpec)

  class PodController {
    const ok: nat -> bool               // the outcome of each runtime call
    var calls: seq<Call>                // the runtime calls made so far
    var containers: map<string, string> // the runtime's containers
    var syncErrors: map<string, Unit>
    var phase: Phase                    // spec.Phase of the spec being applied
    var podStatus: PodSpec
    var podRestartCount: int

    function State(): Pod
      reads this
    {
      Pod(calls, containers, syncErrors, phase)
    }

    constructor (ok: nat -> bool)
      ensures this.ok == ok && State().(phase := PodRunning) == Pod([], map[], map[], PodRunning)
      ensures podStatus == PodSpec(PodRunning, Always, [], []) && podRestartCount == 0
    {
      this.ok := ok;
      calls, containers, syncErrors, phase := [], map[], map[], PodRunning;
      podStatus := PodSpec(PodRunning, Always, [], []);
      podRestartCount := 0;
    }

    method RuntimeCall(c: Call) returns (succeeded: bool)
      modifies this`calls, this`containers
      ensures succeeded == ok(|old(calls)|)
      ensures calls == old(calls) + [c]
      ensures containers == if succeeded then Apply(old(containers), c) else old(containers)
    {
      succeeded := ok(|calls|);
      calls := calls + [c];
      if succeeded {
        match c {
          case Remove(u) => containers := containers - {u.name};
          case Create(u) => containers := containers[u.name := u.image];
          case StopSandbox => case DeleteVolumes => case MountVolumes =>
        }
      }
    }

    /** The loops over RemoveContainer. */
    method RemoveContainers(units: seq<Unit>) returns (succeeded: bool)
      modifies this`calls, this`containers
      ensures State() == Exec(old(State()), Removes(units), ok)
      ensures succeeded == Completes(old(State()), Removes(units), ok)
    {
      ghost var p := State();
      for i := 0 to |units|
        invariant State() == Exec(p, Removes(units[..i]), ok)
        invariant Completes(p, Removes(units[..i]), ok)
      {
        ghost var here := State();
        assert Removes(units) == Removes(units[..i]) + ([Remove(units[i])] + Removes(units[i + 1..]));
        assert Removes(units[..i + 1]) == Removes(units[..i]) + [Remove(units[i])];
        OneCallOfMany(p, Removes(units[..i]), Remove(units[i]), Removes(units[i + 1..]), ok);
        var done := RuntimeCall(Remove(units[i]));
        assert State() == Do(here, Remove(units[i]), done);
        if !done {
          return false;
        }
      }
      assert units[..|units|] == units;
      return true;
    }

    /** The loops over CreateContainer; a failed creation is remembered in syncErrors. */
    method CreateContainers(units: seq<Unit>) returns (succeeded: bool)
      modifies this`calls, this`containers, this`syncErrors
      ensures State() == Exec(old(State()), Creates(units), ok)
      ensures succeeded == Completes(old(State()), Creates(units), ok)
    {
      ghost var p := State();
      for i := 0 to |units|
        invariant State() == Exec(p, Creates(units[..i]), ok)
        invariant Completes(p, Creates(units[..i]), ok)
      {
        ghost var here := State();
        assert Creates(units) == Creates(units[..i]) + ([Create(units[i])] + Creates(units[i + 1..]));
        assert Creates(units[..i + 1]) == Creates(units[..i]) + [Create(units[i])];
        OneCallOfMany(p, Creates(units[..i]), Create(units[i]), Creates(units[i + 1..]), ok);
        var done := RuntimeCall(Create(units[i]));
        if !done {
          syncErrors := syncErrors[units[i].name := units[i]];
          assert State() == Do(here, Create(units[i]), false);
          return false;
        }
        assert State() == Do(here, Create(units[i]), true);
      }
      assert units[..|units|] == units;
      return true;
    }

    /** RemovePodSandbox of the itzo runtime: the init units and the units, then the volumes. */
    method RemovePodSandbox(status: PodSpec) returns (succeeded: bool)
      modifies this`calls, this`containers
      ensures State() == Exec(old(State()), Removes(status.initUnits + status.units) + [DeleteVolumes], ok)
      ensures succeeded == Completes(old(State()), Removes(status.initUnits + status.units) + [DeleteVolumes], ok)
    {
      ghost var p := State();
      ExecJoin(p, Removes(status.initUnits + status.units), [DeleteVolumes], ok);
      succeeded := RemoveContainers(status.initUnits + status.units);
      if succeeded {
        ExecOne(State(), DeleteVolumes, ok);
        succeeded := RuntimeCall(DeleteVolumes);
      }
    }

    /** RunPodSandbox of the itzo runtime. */
    method RunPodSandbox() returns (succeeded: bool)
      modifies this`calls, this`containers, this`phase
      ensures State() == Exec(old(State()), [MountVolumes], ok)
      ensures succeeded == Completes(old(State()), [MountVolumes], ok)
    {
      ExecOne(State(), MountVolumes, ok);
      succeeded := RuntimeCall(MountVolumes);
      if succeeded {
        phase := PodDispatching;
      }
    }

    method CreatePod(spec: PodSpec) returns (succeeded: bool)
      modifies this`calls, this`containers, this`syncErrors, this`phase
      ensures State() == Exec(old(State()), CreateScript(spec), ok)
      ensures succeeded == Completes(old(State()), CreateScript(spec), ok)
    {
      ExecJoin(State(), [MountVolumes], Creates(spec.units), ok);
      succeeded := RunPodSandbox();
      if succeeded {
        succeeded := CreateContainers(spec.units);
      }
    }

    method RestartPod(spec: PodSpec, status: PodSpec) returns (succeeded: bool)
      modifies this`calls, this`containers, this`syncErrors, this`phase, this`podRestartCount
      ensures succeeded == Completes(old(State()), RestartScript(spec, status), ok)
      ensures State() == Exec(old(State()), RestartScript(spec, status), ok)
                         .(phase := if succeeded then PodDispatching else phase)
      ensures !succeeded ==> phase == Exec(old(State()), RestartScript(spec, status), ok).phase
      ensures podRestartCount == old(podRestartCount) + if succeeded then 1 else 0
    {
      ghost var p := State();
      ghost var s1, s2 := Removes(status.units), [StopSandbox];
      ghost var s3 := Removes(status.initUnits + status.units) + [DeleteVolumes];
      ghost var s4, s5 := [MountVolumes], Creates(spec.units);
      assert RestartScript(spec, status) == s1 + (s2 + (s3 + (s4 + s5)));
      ExecJoin(p, s1, s2 + (s3 + (s4 + s5)), ok);
      succeeded := RemoveContainers(status.units);
      if !succeeded { return; }
      ExecJoin(State(), s2, s3 + (s4 + s5), ok);
      ExecOne(State(), StopSandbox, ok);
      succeeded := RuntimeCall(StopSandbox);
      if !succeeded { return; }
      ExecJoin(State(), s3, s4 + s5, ok);
      succeeded := RemovePodSandbox(status);
      if !succeeded { return; }
      ExecJoin(State(), s4, s5, ok);
      succeeded := RunPodSandbox();
      if !succeeded { return; }
      succeeded := CreateContainers(spec.units);
      if !succeeded { return; }
      podRestartCount := podRestartCount + 1;
      phase := PodDispatching;
    }

    method RestartUnits(spec: PodSpec, status: PodSpec) returns (succeeded: bool, added: seq<Unit>)
      modifies this`calls, this`containers, this`syncErrors, this`phase
      ensures succeeded == Completes(old(State()).(phase := PodWaiting), UnitsScript(spec, status), ok)
      ensures State() == Exec(old(State()).(phase := PodWaiting), UnitsScript(spec, status), ok)
      ensures added == if succeeded then Additions(spec.units, status.units) else []
    {
      var addUnits, deleteUnits := DiffUnits(spec.units, status.units);
      phase := PodWaiting;
      ExecJoin(State(), Removes(deleteUnits), Creates(addUnits), ok);
      succeeded := RemoveContainers(deleteUnits);
      if !succeeded {
        return false, [];
      }
      succeeded := CreateContainers(addUnits);
      added := if succeeded then addUnits else [];
    }

    /** SyncPodUnits up to the point where the starting goroutine is launched: `job` is what that
        goroutine is to work through, None when none is launched. */
    method SyncPodUnits(spec: PodSpec, status: PodSpec) returns (event: UpdateType, job: Option<Job>)
      modifies this`calls, this`containers, this`syncErrors, this`phase, this`podRestartCount
      ensures event == ChangeType(spec, status)
      ensures (State(), job) == Updated(old(State()), spec, status, ok)
      ensures job.Some? ==> HandsOver(job.value, spec, status)
      ensures podRestartCount == old(podRestartCount) + if event == PodRestart && job.Some? then 1 else 0
    {
      phase := spec.phase;
      event := DetectChangeType(spec, status);
      var initsToStart, unitsToStart: seq<Unit> := [], [];
      var succeeded;
      match event {
        case NoChanges =>
          return event, None;
        case UnitsChange =>
          succeeded, unitsToStart := RestartUnits(spec, status);
        case PodCreate =>
          succeeded := CreatePod(spec);
          initsToStart, unitsToStart := spec.initUnits, spec.units;
        case PodRestart =>
          succeeded := RestartPod(spec, status);
          initsToStart, unitsToStart := spec.initUnits, spec.units;
      }
      if !succeeded {
        return event, None;
      }
      phase := PodRunning;
      var ipolicy := if spec.restartPolicy == Always then OnFailure else spec.restartPolicy;
      job := Some(Job(initsToStart, unitsToStart, ipolicy));
      JobHandsOver(spec, status);
    }

    method DoUpdate(params: PodParameters) returns (job: Option<Job>)
      modifies this
      ensures (State(), job) == Updated(old(State()), params.spec, old(podStatus), ok)
      ensures podStatus == params.spec.(phase := phase)
      ensures job.Some? ==> HandsOver(job.value, params.spec, old(podStatus))
    {
      var event;
      event, job := SyncPodUnits(params.spec, podStatus);
      podStatus := params.spec.(phase := phase);
    }

    /** A whole run of updates, each with distinct unit names, with a runtime that never fails: after
        every update the containers are exactly the units of the latest spec. */
    method ApplyUpdates(updates: seq<PodParameters>)
      requires forall u :: u in updates ==> DistinctNames(u.spec.units)
      requires forall k :: ok(k)
      requires DistinctNames(podStatus.units) && Reconciled(containers, podStatus.units)
      modifies this
      ensures Reconciled(containers, podStatus.units)
      ensures updates != [] ==> podStatus == updates[|updates| - 1].spec.(phase := podStatus.phase)
    {
      for i := 0 to |updates|
        invariant DistinctNames(podStatus.units) && Reconciled(containers, podStatus.units)
        invariant i > 0 ==> podStatus == updates[i - 1].spec.(phase := podStatus.phase)
      {
        var spec, status := updates[i].spec, podStatus;
        ghost var p := Pod(calls, containers, syncErrors, StartPhase(spec, status));
        assert updates[i] in updates;
        var job := DoUpdate(updates[i]);
        NeverFailing(p, Script(spec, status), ok);
        CompleteRun(p, Script(spec, status), ok);
        ScriptReconciles(p.containers, spec, status);
      }
    }
  }
}
