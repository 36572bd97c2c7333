/** One synchronisation of a pod: the runtime calls an update leads to, in order, and what they
    leave behind (SyncPodUnits and doUpdate in pkg/server/pod_controller.go, the sandbox steps in
    pkg/runtime/itzo_linux.go). */
module PodSync {
  import opened Basics
  import opened PodSpecs

  // ----- Runtime calls and their effect ------------------------------------------------

  datatype Call =
    | Remove(unit: Unit)
    | StopSandbox
    | DeleteVolumes
    | MountVolumes
    | Create(unit: Unit)

  /** `containers` is the runtime's table of created containers, name to image; `errors` are the
      units whose last failure is remembered; `phase` is the phase of the spec being applied. */
  datatype Pod = Pod(calls: seq<Call>, containers: map<string, string>, errors: map<string, Unit>, phase: Phase)

  function Apply(containers: map<string, string>, c: Call): map<string, string> {
    match c
    case Remove(u) => containers - {u.name}
    case Create(u) => containers[u.name := u.image]
    case _ => containers
  }

  /** One runtime call. A failed call leaves the containers alone; a failed creation is remembered. */
  function Do(p: Pod, c: Call, ok: bool): Pod {
    var q := p.(calls := p.calls + [c]);
    if ok then q.(containers := Apply(p.containers, c), phase := if c.MountVolumes? then PodDispatching else p.phase)
    else if c.Create? then q.(errors := p.errors[c.unit.name := c.unit])
    else q
  }

  function Removes(units: seq<Unit>): seq<Call> {
    seq(|units|, i requires 0 <= i < |units| => Remove(units[i]))
  }

  function Creates(units: seq<Unit>): seq<Call> {
    seq(|units|, i requires 0 <= i < |units| => Create(units[i]))
  }

  function RestartScript(spec: PodSpec, status: PodSpec): seq<Call> {
    Removes(status.units) + [StopSandbox] + Removes(status.initUnits + status.units) + [DeleteVolumes, MountVolumes]
    + Creates(spec.units)
  }

  function CreateScript(spec: PodSpec): seq<Call> {
    [MountVolumes] + Creates(spec.units)
  }

  function UnitsScript(spec: PodSpec, status: PodSpec): seq<Call> {
    Removes(Additions(status.units, spec.units)) + Creates(Additions(spec.units, status.units))
  }

  /** The calls an update makes as long as they succeed. */
  function Script(spec: PodSpec, status: PodSpec): seq<Call> {
    match ChangeType(spec, status)
    case NoChanges => []
    case UnitsChange => UnitsScript(spec, status)
    case PodCreate => CreateScript(spec)
    case PodRestart => RestartScript(spec, status)
  }

  /** What the starting goroutine of an update works through. */
  datatype Job = Job(inits: seq<Unit>, units: seq<Unit>, policy: RestartPolicy)

  /** Init units are never waited for under the policy Always. */
  function InitPolicy(policy: RestartPolicy): RestartPolicy {
    if policy == Always then OnFailure else policy
  }

  function JobOf(spec: PodSpec, status: PodSpec): Job {
    var policy := InitPolicy(spec.restartPolicy);
    if ChangeType(spec, status) == UnitsChange then Job([], Additions(spec.units, status.units), policy)
    else Job(spec.initUnits, spec.units, policy)
  }

  /** The calls before the first creation. */
  function Prologue(spec: PodSpec, status: PodSpec): seq<Call> {
    match ChangeType(spec, status)
    case NoChanges => []
    case UnitsChange => Removes(Additions(status.units, spec.units))
    case PodCreate => [MountVolumes]
    case PodRestart =>
      Removes(status.units) + [StopSandbox] + Removes(status.initUnits + status.units) + [DeleteVolumes, MountVolumes]
  }

  /** The job starts exactly the units that the update has created, in that order, after the init
      units if the pod has been created or restarted. Init units that fail are waited for again
      unless the policy is Never. */
  ghost predicate HandsOver(job: Job, spec: PodSpec, status: PodSpec) {
    && (exists before :: Script(spec, status) == before + Creates(job.units) && forall c :: c in before ==> !c.Create?)
    && (ChangeType(spec, status) != UnitsChange ==> job.inits == spec.initUnits && job.units == spec.units)
    && (ChangeType(spec, status) == UnitsChange ==> job.inits == [])
    && (job.policy == Never <==> spec.restartPolicy == Never)
    && (job.policy == OnFailure <==> spec.restartPolicy != Never)
  }

  lemma JobHandsOver(spec: PodSpec, status: PodSpec)
    requires ChangeType(spec, status) != NoChanges
    ensures HandsOver(JobOf(spec, status), spec, status)
  {
    assert Script(spec, status) == Prologue(spec, status) + Creates(JobOf(spec, status).units);
  }

  // ----- Reconciliation ----------------------------------------------------------------

  ghost predicate DistinctNames(units: seq<Unit>) {
    forall i, j :: 0 <= i < j < |units| ==> units[i].name != units[j].name
  }

  /** The containers are exactly the given units, each with its image. */
  ghost predicate Reconciled(containers: map<string, string>, units: seq<Unit>) {
    && (forall u :: u in units ==> u.name in containers && containers[u.name] == u.image)
    && (forall n :: n in containers ==> IsNamed(n, units))
  }

  ghost predicate IsNamed(n: string, units: seq<Unit>) {
    exists u :: u in units && u.name == n
  }

  /** The containers after a sequence of successful calls. */
  function After(containers: map<string, string>, calls: seq<Call>): map<string, string>
    decreases |calls|
  {
    if calls == [] then containers else After(Apply(containers, calls[0]), calls[1..])
  }

  lemma {:induction false} AfterJoin(containers: map<string, string>, a: seq<Call>, b: seq<Call>)
    ensures After(containers, a + b) == After(After(containers, a), b)
    decreases |a|
  {
    if a == [] {
      assert a + b == b;
    } else {
      AfterJoin(Apply(containers, a[0]), a[1..], b);
      assert (a + b)[1..] == a[1..] + b;
    }
  }

  lemma {:induction false} AfterRemoves(containers: map<string, string>, units: seq<Unit>)
    ensures var t := After(containers, Removes(units));
            forall n :: n in t <==> n in containers && !IsNamed(n, units)
    ensures var t := After(containers, Removes(units)); forall n :: n in t ==> t[n] == containers[n]
  {
    if units != [] {
      assert Removes(units)[1..] == Removes(units[1..]);
      AfterRemoves(containers - {units[0].name}, units[1..]);
      forall n
        ensures IsNamed(n, units) <==> n == units[0].name || IsNamed(n, units[1..])
      {
        if IsNamed(n, units[1..]) {
          var u :| u in units[1..] && u.name == n;
          assert u in units;
        }
      }
    }
  }

  lemma {:induction false} AfterCreates(containers: map<string, string>, units: seq<Unit>)
    ensures var t := After(containers, Creates(units));
            forall n :: n in t <==> n in containers || IsNamed(n, units)
    ensures var t := After(containers, Creates(units));
            forall n :: n in t ==> if IsNamed(n, units) then exists u :: u in units && u.name == n && t[n] == u.image
                                   else t[n] == containers[n]
    decreases |units|
  {
    if units != [] {
      assert Creates(units)[1..] == Creates(units[1..]);
      AfterCreates(containers[units[0].name := units[0].image], units[1..]);
      forall n
        ensures IsNamed(n, units) <==> n == units[0].name || IsNamed(n, units[1..])
      {
        if IsNamed(n, units[1..]) {
          var u :| u in units[1..] && u.name == n;
          assert u in units;
        }
      }
    }
  }

  lemma {:induction false} DifferingMembers(a: seq<Unit>, b: seq<Unit>, n: nat, u: Unit)
    requires n <= |a|
    ensures u in Differing(a, b, n) <==> exists j :: 0 <= j < n && a[j] == u && !AgreeAt(a, b, j)
  {
    if n > 0 {
      DifferingMembers(a, b, n - 1, u);
    }
  }

  lemma SameNameSameUnit(units: seq<Unit>, u: Unit, v: Unit)
    requires DistinctNames(units) && u in units && v in units && u.name == v.name
    ensures u == v
  {
  }

  lemma CreatesReconcile(units: seq<Unit>)
    requires DistinctNames(units)
    ensures Reconciled(After(map[], Creates(units)), units)
  {
    AfterCreates(map[], units);
    var t := After(map[], Creates(units));
    forall u | u in units
      ensures u.name in t && t[u.name] == u.image
    {
      assert IsNamed(u.name, units);
      var v :| v in units && v.name == u.name && t[u.name] == v.image;
      SameNameSameUnit(units, u, v);
    }
  }

  lemma UnitsScriptReconciles(containers: map<string, string>, spec: seq<Unit>, status: seq<Unit>)
    requires DistinctNames(spec) && DistinctNames(status) && Reconciled(containers, status)
    ensures Reconciled(After(containers, Removes(Additions(status, spec)) + Creates(Additions(spec, status))), spec)
  {
    var deletes, adds := Additions(status, spec), Additions(spec, status);
    var t1 := After(containers, Removes(deletes));
    var t2 := After(t1, Creates(adds));
    AfterJoin(containers, Removes(deletes), Creates(adds));
    AfterRemoves(containers, deletes);
    AfterCreates(t1, adds);
    forall i | 0 <= i < |spec|
      ensures spec[i].name in t2 && t2[spec[i].name] == spec[i].image
    {
      UnitReconciles(containers, spec, status, i);
    }
    forall n | n in t2
      ensures IsNamed(n, spec)
    {
      if u :| u in adds && u.name == n {
        DifferingMembers(spec, status, |spec|, u);
        assert u in spec;
      } else {
        var u :| u in status && u.name == n;
        DifferingMembers(status, spec, |status|, u);
        assert IsNamed(n, deletes) ==> n !in t1;
        var j :| 0 <= j < |status| && status[j] == u;
        assert AgreeAt(status, spec, j);
        assert spec[j] in spec && spec[j].name == n;
      }
    }
  }

  lemma AgreedIsNotMentioned(a: seq<Unit>, b: seq<Unit>, i: nat)
    requires DistinctNames(a) && i < |a| && AgreeAt(a, b, i)
    ensures !IsNamed(a[i].name, Additions(a, b))
  {
    forall u | u in Additions(a, b)
      ensures u.name != a[i].name
    {
      DifferingMembers(a, b, |a|, u);
    }
  }

  /** A unit of the spec ends up created with its image, whether it was kept or re-created. */
  lemma UnitReconciles(containers: map<string, string>, spec: seq<Unit>, status: seq<Unit>, i: nat)
    requires DistinctNames(spec) && DistinctNames(status) && Reconciled(containers, status) && i < |spec|
    ensures var t := After(After(containers, Removes(Additions(status, spec))), Creates(Additions(spec, status)));
            spec[i].name in t && t[spec[i].name] == spec[i].image
  {
    var deletes, adds, n := Additions(status, spec), Additions(spec, status), spec[i].name;
    var t1 := After(containers, Removes(deletes));
    var t2 := After(t1, Creates(adds));
    AfterRemoves(containers, deletes);
    AfterCreates(t1, adds);
    if AgreeAt(spec, status, i) {
      AgreedIsNotMentioned(status, spec, i);
      AgreedIsNotMentioned(spec, status, i);
      assert status[i] in status;
    } else {
      DifferingMembers(spec, status, |spec|, spec[i]);
      assert IsNamed(n, adds);
      var u :| u in adds && u.name == n && t2[n] == u.image;
      DifferingMembers(spec, status, |spec|, u);
      SameNameSameUnit(spec, spec[i], u);
    }
  }

  lemma RestartScriptReconciles(containers: map<string, string>, spec: PodSpec, status: PodSpec)
    requires DistinctNames(spec.units) && Reconciled(containers, status.units)
    ensures Reconciled(After(containers, RestartScript(spec, status)), spec.units)
  {
    var first, second := Removes(status.units) + [StopSandbox], Removes(status.initUnits + status.units);
    var last := [DeleteVolumes, MountVolumes] + Creates(spec.units);
    assert RestartScript(spec, status) == first + (second + last);
    AfterJoin(containers, first, second + last);
    AfterJoin(containers, Removes(status.units), [StopSandbox]);
    AfterRemoves(containers, status.units);
    assert After(containers, Removes(status.units)) == map[];
    AfterJoin(map[], second, last);
    AfterRemoves(map[], status.initUnits + status.units);
    assert After(map[], second) == map[];
    assert last[1..][1..] == Creates(spec.units);
    CreatesReconcile(spec.units);
  }

  /** When every call succeeds, an update leaves exactly the spec's units created, each with its
      image - whichever kind of update was chosen. Removing everything before creating anything is
      what makes a unit that moves to another place in the list survive. */
  lemma ScriptReconciles(containers: map<string, string>, spec: PodSpec, status: PodSpec)
    requires DistinctNames(spec.units) && DistinctNames(status.units) && Reconciled(containers, status.units)
    ensures Reconciled(After(containers, Script(spec, status)), spec.units)
  {
    match ChangeType(spec, status)
    case NoChanges =>
      WhatChangeTypesMean(spec, status);
      forall u | u in spec.units
        ensures u.name in containers && containers[u.name] == u.image
      {
        var i :| 0 <= i < |spec.units| && spec.units[i] == u;
        assert status.units[i] in status.units;
      }
      forall n | n in containers
        ensures IsNamed(n, spec.units)
      {
        var u :| u in status.units && u.name == n;
        var i :| 0 <= i < |status.units| && status.units[i] == u;
        assert UnitsEqual(spec.units[i], u) && spec.units[i] in spec.units;
      }
    case UnitsChange =>
      UnitsScriptReconciles(containers, spec.units, status.units);
    case PodCreate =>
      assert containers == map[];
      assert CreateScript(spec)[1..] == Creates(spec.units);
      CreatesReconcile(spec.units);
    case PodRestart =>
      RestartScriptReconciles(containers, spec, status);
  }

  /** A restart removes every unit and init unit of the status, stops the sandbox and deletes its
      volumes before the new volumes are mounted, and removes nothing after that. */
  lemma {:induction false} RestartLeavesNothing(spec: PodSpec, status: PodSpec)
    requires ChangeType(spec, status) == PodRestart
    ensures exists before ::
              && Script(spec, status) == before + [MountVolumes] + Creates(spec.units)
              && (forall u :: u in status.initUnits + status.units ==> Remove(u) in before)
              && StopSandbox in before && before != [] && before[|before| - 1] == DeleteVolumes
  {
    var all := status.initUnits + status.units;
    var before := Removes(status.units) + [StopSandbox] + Removes(all) + [DeleteVolumes];
    assert Script(spec, status) == before + [MountVolumes] + Creates(spec.units);
    forall u | u in all
      ensures Remove(u) in before
    {
      var i :| 0 <= i < |all| && all[i] == u;
      assert Removes(all)[i] == Remove(u) && Remove(u) in Removes(all);
    }
    assert before[|status.units|] == StopSandbox;
  }

  // ----- A script run until its first failure ------------------------------------------

  /** `ok(k)` tells whether the k-th runtime call succeeds. */
  function Exec(p: Pod, script: seq<Call>, ok: nat -> bool): Pod
    decreases |script|
  {
    if script == [] then p
    else
      var q := Do(p, script[0], ok(|p.calls|));
      if ok(|p.calls|) then Exec(q, script[1..], ok) else q
  }

  /** Every call of the script succeeds. */
  predicate Completes(p: Pod, script: seq<Call>, ok: nat -> bool)
    decreases |script|
  {
    script == [] || (ok(|p.calls|) && Completes(Do(p, script[0], true), script[1..], ok))
  }

  lemma {:induction false} ExecJoin(p: Pod, a: seq<Call>, b: seq<Call>, ok: nat -> bool)
    ensures Exec(p, a + b, ok) == if Completes(p, a, ok) then Exec(Exec(p, a, ok), b, ok) else Exec(p, a, ok)
    ensures Completes(p, a + b, ok) <==> Completes(p, a, ok) && Completes(Exec(p, a, ok), b, ok)
    decreases |a|
  {
    if a == [] {
      assert a + b == b;
    } else {
      assert (a + b)[1..] == a[1..] + b;
      ExecJoin(Do(p, a[0], true), a[1..], b, ok);
    }
  }

  lemma ExecOne(p: Pod, c: Call, ok: nat -> bool)
    ensures Exec(p, [c], ok) == Do(p, c, ok(|p.calls|)) && Completes(p, [c], ok) == ok(|p.calls|)
  {
    assert [c][1..] == [];
  }

  /** A run without a failure makes every call and has every effect. */
  lemma {:induction false} CompleteRun(p: Pod, script: seq<Call>, ok: nat -> bool)
    requires Completes(p, script, ok)
    ensures var q := Exec(p, script, ok);
            q.calls == p.calls + script && q.containers == After(p.containers, script) && q.errors == p.errors
    decreases |script|
  {
    if script != [] {
      CompleteRun(Do(p, script[0], true), script[1..], ok);
      assert script == [script[0]] + script[1..];
    }
  }

  lemma {:induction false} CompletesExactlyWhen(p: Pod, script: seq<Call>, ok: nat -> bool)
    ensures Completes(p, script, ok) <==> forall j: nat :: |p.calls| <= j < |p.calls| + |script| ==> ok(j)
    decreases |script|
  {
    if script != [] {
      CompletesExactlyWhen(Do(p, script[0], true), script[1..], ok);
    }
  }

  /** Nothing is called after the first failure, that of the call number `k`, and what the calls
      before it did stays. */
  lemma {:induction false} StopsAtFailure(p: Pod, script: seq<Call>, ok: nat -> bool, k: nat)
    requires |p.calls| <= k < |p.calls| + |script|
    requires !ok(k) && forall j: nat :: |p.calls| <= j < k ==> ok(j)
    ensures var q, i := Exec(p, script, ok), k - |p.calls|;
            && q.calls == p.calls + script[..i + 1] && q.containers == After(p.containers, script[..i])
            && q.errors == if script[i].Create? then p.errors[script[i].unit.name := script[i].unit] else p.errors
    decreases |script|
  {
    var i := k - |p.calls|;
    if i > 0 {
      StopsAtFailure(Do(p, script[0], true), script[1..], ok, k);
      assert script[..i + 1] == [script[0]] + script[1..][..i];
      assert script[..i][0] == script[0] && script[..i][1..] == script[1..][..i - 1];
    } else {
      assert script[..1] == [script[0]] && script[..0] == [];
    }
  }

  /** The call after a completed prefix. */
  lemma OneCallOfMany(p: Pod, before: seq<Call>, c: Call, after: seq<Call>, ok: nat -> bool)
    requires Completes(p, before, ok)
    ensures var here := Exec(p, before, ok);
            var done := ok(|here.calls|);
            && Exec(p, before + [c], ok) == Do(here, c, done)
            && Completes(p, before + [c], ok) == done
            && (!done ==> Exec(p, before + ([c] + after), ok) == Do(here, c, false)
                          && !Completes(p, before + ([c] + after), ok))
  {
    var here := Exec(p, before, ok);
    ExecOne(here, c, ok);
    ExecJoin(p, before, [c], ok);
    ExecJoin(p, before, [c] + after, ok);
    ExecJoin(here, [c], after, ok);
  }

  lemma {:induction false} NeverFailing(p: Pod, script: seq<Call>, ok: nat -> bool)
    requires forall k :: ok(k)
    ensures Completes(p, script, ok)
    decreases |script|
  {
    if script != [] {
      NeverFailing(Do(p, script[0], true), script[1..], ok);
    }
  }

  /** The phase of a spec when its runtime calls begin. */
  function StartPhase(spec: PodSpec, status: PodSpec): Phase {
    if ChangeType(spec, status) == UnitsChange then PodWaiting else spec.phase
  }

  /** What a whole update leaves of the pod, and the job it launches, if any: none when nothing has
      changed or some call failed. */
  function Updated(p: Pod, spec: PodSpec, status: PodSpec, ok: nat -> bool): (Pod, Option<Job>) {
    var start, script := p.(phase := StartPhase(spec, status)), Script(spec, status);
    var q := Exec(start, script, ok);
    if ChangeType(spec, status) == NoChanges || !Completes(start, script, ok) then (q, None)
    else (q.(phase := PodRunning), Some(JobOf(spec, status)))
  }

  lemma {:induction false} ExecPhase(p: Pod, script: seq<Call>, ok: nat -> bool)
    requires p.phase == PodDispatching || MountVolumes !in script
    ensures Exec(p, script, ok).phase == p.phase
    decreases |script|
  {
    if script != [] {
      assert script[0] in script && forall c :: c in script[1..] ==> c in script;
      ExecPhase(Do(p, script[0], ok(|p.calls|)), script[1..], ok);
    }
  }

  lemma {:induction false} MountingDispatches(p: Pod, before: seq<Call>, after: seq<Call>, ok: nat -> bool)
    requires MountVolumes !in before && MountVolumes !in after
    ensures Exec(p, before + [MountVolumes] + after, ok).phase
            == if Completes(p, before + [MountVolumes], ok) then PodDispatching else p.phase
  {
    ExecPhase(p, before, ok);
    ExecJoin(p, before, [MountVolumes], ok);
    ExecJoin(p, before + [MountVolumes], after, ok);
    if Completes(p, before, ok) {
      ExecOne(Exec(p, before, ok), MountVolumes, ok);
    }
    if Completes(p, before + [MountVolumes], ok) {
      ExecPhase(Exec(p, before + [MountVolumes], ok), after, ok);
    }
  }

  /** How far an update got shows in the phase: running when all calls succeeded; otherwise waiting if
      only units were to change, and dispatching once the volumes of a new sandbox are mounted. */
  lemma PhaseTells(p: Pod, spec: PodSpec, status: PodSpec, ok: nat -> bool)
    ensures var (q, job) := Updated(p, spec, status, ok);
            q.phase == if job.Some? then PodRunning
                       else
                         match ChangeType(spec, status)
                         case NoChanges => spec.phase
                         case UnitsChange => PodWaiting
                         case _ =>
                           if Completes(p.(phase := spec.phase), Prologue(spec, status), ok) then PodDispatching
                           else spec.phase
  {
    var start := p.(phase := StartPhase(spec, status));
    match ChangeType(spec, status) {
      case NoChanges =>
      case UnitsChange => ExecPhase(start, UnitsScript(spec, status), ok);
      case PodCreate =>
        assert Prologue(spec, status) == [] + [MountVolumes];
        MountingDispatches(start, [], Creates(spec.units), ok);
      case PodRestart =>
        var before :=
          Removes(status.units) + [StopSandbox] + Removes(status.initUnits + status.units) + [DeleteVolumes];
        assert Prologue(spec, status) == before + [MountVolumes];
        assert Script(spec, status) == before + [MountVolumes] + Creates(spec.units);
        MountingDispatches(start, before, Creates(spec.units), ok);
    }
  }

  /** Every kind of update but "no changes" makes some call. */
  lemma ScriptIsEmptyExactlyWhen(spec: PodSpec, status: PodSpec)
    ensures Script(spec, status) == [] <==> ChangeType(spec, status) == NoChanges
  {
    if ChangeType(spec, status) == UnitsChange {
      var deletes, adds := Additions(status.units, spec.units), Additions(spec.units, status.units);
      assert |UnitsScript(spec, status)| == |deletes| + |adds|;
    }
  }
}
