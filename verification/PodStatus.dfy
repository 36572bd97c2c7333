/** The status report of the pod controller (GetStatus in pkg/server/pod_controller.go). */
module PodStatuses {
  import opened Basics
  import opened PodSpecs
  import opened UnitStatuses
  import PodSystem

  datatype NamedStatus = NamedStatus(name: string, image: string, status: UnitStatus)

  /** What the runtime answers for a unit: a status, and whether it also returned an error. */
  datatype Answer = Answer(status: NamedStatus, error: bool)

  function StillCreating(u: Unit, reason: string): NamedStatus {
    var state := UnitState(Some(Waiting(reason, false)), None, None);
    NamedStatus(u.name, u.image, UnitStatus(state, NO_STATE, 0, false, None))
  }

  /** A unit still being created: waiting, and not for lack of success. */
  predicate IsBeingCreated(s: NamedStatus, u: Unit) {
    && s.name == u.name && s.image == u.image && !s.status.ready
    && s.status.state == UnitState(Some(Waiting("ContainerCreating", false)), None, None)
  }

  /** The status recorded in syncErrors when creating or starting `u` failed. */
  function FailedUpdate(u: Unit, reason: string): NamedStatus {
    var state := UnitState(Some(Waiting(reason, true)), None, None);
    NamedStatus(u.name, u.image, UnitStatus(state, NO_STATE, 0, false, None))
  }

  predicate Succeeded(s: NamedStatus) {
    s.status.state.terminated.Some? && s.status.state.terminated.value.exitCode == 0
  }

  /** `out` reports on `units`, in their order: a recorded error first of all; a unit that is being
      restarted as still being created, if the runtime cannot say better; otherwise as the runtime
      answers. */
  ghost predicate Reports(
    out: seq<NamedStatus>, units: seq<Unit>, runtime: Unit -> Answer, restarting: set<string>,
    errors: map<string, NamedStatus>)
  {
    && |out| == |units|
    && forall i :: 0 <= i < |units| ==>
         var u := units[i];
         && (u.name in errors ==> out[i] == errors[u.name])
         && (u.name !in errors && runtime(u).error && u.name in restarting ==>
               IsBeingCreated(out[i], u))
         && (u.name !in errors && !(runtime(u).error && u.name in restarting) ==> out[i] == runtime(u).status)
  }

  /** `out` is `raw` except that a unit that has exited with 0 is reported ready. */
  ghost predicate CompletedAreReady(out: seq<NamedStatus>, raw: seq<NamedStatus>, n: nat) {
    && |out| == |raw| && n <= |raw|
    && (forall i :: n <= i < |raw| ==> out[i] == raw[i])
    && forall i :: 0 <= i < n ==>
         && out[i].(status := out[i].status.(ready := raw[i].status.ready)) == raw[i]
         && (out[i].status.ready <==> raw[i].status.ready || Succeeded(raw[i]))
  }

  method StatusesOf(
      units: seq<Unit>, runtime: Unit -> Answer, restarting: set<string>, errors: map<string, NamedStatus>)
    returns (statuses: seq<NamedStatus>)
    ensures Reports(statuses, units, runtime, restarting, errors)
  {
    statuses := [];
    for i := 0 to |units|
      invariant Reports(statuses, units[..i], runtime, restarting, errors)
    {
      var u := units[i];
      var unitStatus := runtime(u).status;
      if runtime(u).error && u.name in restarting {
        unitStatus := StillCreating(u, "ContainerCreating");
      }
      if u.name in errors {
        unitStatus := errors[u.name];
      }
      statuses := statuses + [unitStatus];
    }
    assert units[..|units|] == units;
  }

  /** The loop over the init units does not consult the units being restarted. */
  method GetStatus(
      podStatus: PodSpec, runtime: Unit -> Answer, restarting: set<string>, errors: map<string, NamedStatus>)
    returns (statuses: seq<NamedStatus>, initStatuses: seq<NamedStatus>)
    ensures Reports(statuses, podStatus.units, runtime, restarting, errors)
    ensures exists raw ::
              Reports(raw, podStatus.initUnits, runtime, {}, errors) && CompletedAreReady(initStatuses, raw, |raw|)
  {
    statuses := StatusesOf(podStatus.units, runtime, restarting, errors);
    var raw := StatusesOf(podStatus.initUnits, runtime, {}, errors);
    initStatuses := raw;
    for i := 0 to |raw|
      invariant CompletedAreReady(initStatuses, raw, i)
    {
      if Succeeded(initStatuses[i]) {
        initStatuses := initStatuses[i := initStatuses[i].(status := initStatuses[i].status.(ready := true))];
      }
    }
  }

  /** syncErrors as the controller's runs leave it, `reason` being what each failure said. */
  function SyncErrors(errors: map<string, Unit>, reason: string -> string): map<string, NamedStatus> {
    map n | n in errors :: FailedUpdate(errors[n], reason(n))
  }

  predicate IsStartFailure(s: NamedStatus) {
    var w := s.status.state.waiting;
    w.Some? && w.value.startFailure && s.status.state.terminated.None? && !s.status.ready
  }

  /** What is shown for `u`, a creation or start of which has `failed` with none succeeding since. */
  ghost predicate Shows(out: NamedStatus, u: Unit, failed: bool, runtime: Unit -> Answer, restarting: set<string>) {
    if failed then IsStartFailure(out)
    else if runtime(u).error && u.name in restarting then IsBeingCreated(out, u)
    else out == runtime(u).status
  }

  /** The same for an init unit, which is ready once it has exited with 0. */
  ghost predicate ShowsInit(out: NamedStatus, u: Unit, failed: bool, runtime: Unit -> Answer) {
    if failed then IsStartFailure(out)
    else
      var raw := runtime(u).status;
      var exited := raw.status.state.terminated;
      && (out.status.ready <==> raw.status.ready || (exited.Some? && exited.value.exitCode == 0))
      && out == raw.(status := raw.status.(ready := out.status.ready))
  }

  lemma InitShows(
      out: seq<NamedStatus>, raw: seq<NamedStatus>, units: seq<Unit>, i: nat, failed: bool, runtime: Unit -> Answer)
    requires |raw| == |units| && i < |units| && CompletedAreReady(out, raw, |raw|)
    requires Shows(raw[i], units[i], failed, runtime, {})
    ensures ShowsInit(out[i], units[i], failed, runtime)
  {
  }

  lemma {:induction false} UnitsShow(
      events: seq<PodSystem.Event>, units: seq<Unit>, runtime: Unit -> Answer, restarting: set<string>,
      reason: string -> string, out: seq<NamedStatus>)
    requires Reports(out, units, runtime, restarting, SyncErrors(PodSystem.Run(events).pod.errors, reason))
    ensures forall i :: 0 <= i < |units| ==>
              var failed := PodSystem.Remembered(PodSystem.Run(events).fates, units[i].name);
              Shows(out[i], units[i], failed, runtime, restarting)
  {
    var s := PodSystem.Run(events);
    forall i | 0 <= i < |units|
      ensures Shows(out[i], units[i], PodSystem.Remembered(s.fates, units[i].name), runtime, restarting)
    {
      PodSystem.ErrorsAreRemembered(events, units[i].name);
    }
  }

  /** In every reachable state of the controller, a unit or init unit is shown as a start failure if
      a creation or start of it has failed with no regular unit of its name started since. Otherwise
      the runtime's answer is shown - but a unit being restarted that the runtime has an error for is
      shown as being created, and an init unit that has exited with 0 as ready. */
  lemma {:induction false} StatusShowsFailures(
      events: seq<PodSystem.Event>, runtime: Unit -> Answer, restarting: set<string>, reason: string -> string,
      statuses: seq<NamedStatus>, raw: seq<NamedStatus>, initStatuses: seq<NamedStatus>)
    requires var s := PodSystem.Run(events); var errors := SyncErrors(s.pod.errors, reason);
             && Reports(statuses, s.podStatus.units, runtime, restarting, errors)
             && Reports(raw, s.podStatus.initUnits, runtime, {}, errors)
             && CompletedAreReady(initStatuses, raw, |raw|)
    ensures var s := PodSystem.Run(events);
            && (forall i :: 0 <= i < |s.podStatus.units| ==>
                  var u := s.podStatus.units[i];
                  Shows(statuses[i], u, PodSystem.Remembered(s.fates, u.name), runtime, restarting))
            && forall i :: 0 <= i < |s.podStatus.initUnits| ==>
                 var u := s.podStatus.initUnits[i];
                 ShowsInit(initStatuses[i], u, PodSystem.Remembered(s.fates, u.name), runtime)
  {
    var s := PodSystem.Run(events);
    UnitsShow(events, s.podStatus.units, runtime, restarting, reason, statuses);
    UnitsShow(events, s.podStatus.initUnits, runtime, {}, reason, raw);
    forall i | 0 <= i < |s.podStatus.initUnits|
      ensures var u := s.podStatus.initUnits[i];
              ShowsInit(initStatuses[i], u, PodSystem.Remembered(s.fates, u.name), runtime)
    {
      var u := s.podStatus.initUnits[i];
      InitShows(initStatuses, raw, s.podStatus.initUnits, i, PodSystem.Remembered(s.fates, u.name), runtime);
    }
  }
}
