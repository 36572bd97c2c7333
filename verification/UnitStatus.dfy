/** The status of a unit as it is kept in its status file (pkg/unit/unit.go). */
module UnitStatuses {
  import opened Basics

  datatype Waiting = Waiting(reason: string, startFailure: bool)
  datatype Running = Running
  datatype Terminated = Terminated(exitCode: int, reason: string, message: string)

  /** As in the source, three optional parts; nothing in the type forbids several or none. */
  datatype UnitState = UnitState(waiting: Option<Waiting>, running: Option<Running>, terminated: Option<Terminated>)

  datatype UnitStatus = UnitStatus(
    state: UnitState, lastTerminationState: UnitState, restartCount: int, ready: bool, started: Option<bool>)

  const NO_STATE := UnitState(None, None, None)

  /** The status reported while there is no status file. */
  const STILL_CREATING :=
    UnitStatus(UnitState(Some(Waiting("PodInitializing", false)), None, None), NO_STATE, 0, false, None)

  /** The stored status, and every status written so far. */
  datatype File = File(status: UnitStatus, writes: seq<UnitStatus>)

  function Put(f: File, s: UnitStatus): File {
    File(s, f.writes + [s])
  }

  /** UpdateStatusAttr */
  function PutAttr(f: File, ready: Option<bool>, started: Option<bool>): File {
    var s := if ready.Some? then f.status.(ready := ready.value) else f.status;
    Put(f, if started.Some? then s.(started := started) else s)
  }

  /** SetState */
  function PutState(f: File, state: UnitState, restarts: Option<int>): File {
    var s := f.status.(state := state);
    var t := if state.terminated.Some? then s.(lastTerminationState := state) else s;
    Put(f, if restarts.Some? && restarts.value >= 0 then t.(restartCount := restarts.value) else t)
  }

  // ----- What holds at every write -----------------------------------------------------

  ghost predicate ExactlyOne(s: UnitState) {
    || (s.waiting.Some? && s.running.None? && s.terminated.None?)
    || (s.waiting.None? && s.running.Some? && s.terminated.None?)
    || (s.waiting.None? && s.running.None? && s.terminated.Some?)
  }

  ghost predicate Coherent(s: UnitStatus) {
    && ExactlyOne(s.state)
    && (s.ready ==> s.started == Some(true) && s.state.running.Some?)
  }

  /** The latest Terminated state among the first `n` writes, or what `initial` remembered. */
  function LatestTermination(writes: seq<UnitStatus>, n: nat, initial: UnitStatus): UnitState
    requires n <= |writes|
  {
    if n == 0 then initial.lastTerminationState
    else if writes[n - 1].state.terminated.Some? then writes[n - 1].state
    else LatestTermination(writes, n - 1, initial)
  }

  lemma {:induction false} LaterWritesDoNotMatter(writes: seq<UnitStatus>, s: UnitStatus, n: nat, initial: UnitStatus)
    requires n <= |writes|
    ensures LatestTermination(writes + [s], n, initial) == LatestTermination(writes, n, initial)
  {
    if n > 0 {
      LaterWritesDoNotMatter(writes, s, n - 1, initial);
    }
  }

  /** A status as this code leaves it: coherent, and remembering its own termination. */
  ghost predicate Consistent(s: UnitStatus) {
    Coherent(s) && (s.state.terminated.Some? ==> s.lastTerminationState == s.state)
  }

  /** The current status and every one written remember the latest Terminated state up to then. */
  ghost predicate Remembers(f: File, initial: UnitStatus) {
    && (f.status.state.terminated.Some? ==> f.status.lastTerminationState == f.status.state)
    && f.status.lastTerminationState == LatestTermination(f.writes, |f.writes|, initial)
    && forall i :: 0 <= i < |f.writes| ==>
         f.writes[i].lastTerminationState == LatestTermination(f.writes, i + 1, initial)
  }

  lemma PutRemembers(f: File, s: UnitStatus, initial: UnitStatus)
    requires Remembers(f, initial)
    requires s.lastTerminationState ==
             if s.state.terminated.Some? then s.state else f.status.lastTerminationState
    ensures Remembers(Put(f, s), initial)
  {
    var n := |f.writes|;
    forall i: nat | i <= n
      ensures LatestTermination(f.writes + [s], i, initial) == LatestTermination(f.writes, i, initial)
    {
      LaterWritesDoNotMatter(f.writes, s, i, initial);
    }
    assert LatestTermination(f.writes + [s], n, initial) == f.status.lastTerminationState;
  }

  lemma PutAttrRemembers(f: File, ready: Option<bool>, started: Option<bool>, initial: UnitStatus)
    requires Remembers(f, initial)
    ensures Remembers(PutAttr(f, ready, started), initial)
  {
    PutRemembers(f, PutAttr(f, ready, started).status, initial);
  }

  lemma PutStateRemembers(f: File, state: UnitState, restarts: Option<int>, initial: UnitStatus)
    requires Remembers(f, initial)
    ensures Remembers(PutState(f, state, restarts), initial)
  {
    PutRemembers(f, PutState(f, state, restarts).status, initial);
  }

  ghost predicate FileOk(f: File, initial: UnitStatus) {
    && Coherent(f.status) && Remembers(f, initial)
    && forall i :: 0 <= i < |f.writes| ==> Coherent(f.writes[i])
  }

  lemma PutAttrKeepsOk(f: File, ready: Option<bool>, started: Option<bool>, initial: UnitStatus)
    requires FileOk(f, initial)
    requires Coherent(PutAttr(f, ready, started).status)
    ensures FileOk(PutAttr(f, ready, started), initial)
  {
    PutAttrRemembers(f, ready, started, initial);
  }

  lemma PutStateKeepsOk(f: File, state: UnitState, restarts: Option<int>, initial: UnitStatus)
    requires FileOk(f, initial) && !f.status.ready && ExactlyOne(state)
    ensures FileOk(PutState(f, state, restarts), initial)
  {
    PutStateRemembers(f, state, restarts, initial);
  }

  // ----- Restart counts ----------------------------------------------------------------

  ghost predicate CountsNeverDecrease(writes: seq<UnitStatus>) {
    forall i, j :: 0 <= i < j < |writes| ==> writes[i].restartCount <= writes[j].restartCount
  }

  /** The writes before position `p` carry the count `initial`; from there on the counts start with
      `first`, never decrease and end with `last`. */
  ghost predicate CountShape(writes: seq<UnitStatus>, initial: int, p: nat, first: int, last: int) {
    && 0 < p < |writes|
    && (forall i :: 0 <= i < p ==> writes[i].restartCount == initial)
    && writes[p].restartCount == first && writes[|writes| - 1].restartCount == last
    && (forall i, j :: p <= i < j < |writes| ==> writes[i].restartCount <= writes[j].restartCount)
  }

  lemma ShapeGrows(writes: seq<UnitStatus>, s: UnitStatus, initial: int, p: nat, first: int, last: int)
    requires CountShape(writes, initial, p, first, last) && last <= s.restartCount
    ensures CountShape(writes + [s], initial, p, first, s.restartCount)
  {
    var all := writes + [s];
    forall i, j | p <= i < j < |all|
      ensures all[i].restartCount <= all[j].restartCount
    {
      if j == |writes| && i < |writes| - 1 {
        assert writes[i].restartCount <= writes[|writes| - 1].restartCount;
      }
    }
  }

  lemma ShapeDecides(writes: seq<UnitStatus>, initial: int, p: nat, first: int, last: int)
    requires CountShape(writes, initial, p, first, last)
    ensures CountsNeverDecrease(writes) <==> initial <= first
  {
    if CountsNeverDecrease(writes) {
      assert writes[0].restartCount <= writes[p].restartCount;
    }
    if initial <= first {
      forall i, j | 0 <= i < j < |writes|
        ensures writes[i].restartCount <= writes[j].restartCount
      {
        if i < p < j {
          assert writes[p].restartCount <= writes[j].restartCount;
        }
      }
    }
  }
}
