/** KillProcessTree with its process handler and its accumulated error (pkg/util/kill/kill.go). */
module TreeKiller {
  import opened Basics
  import opened ProcessTree

  /** The error list of go-multierror: appending changes the list object in place. */
  class MultiError {
    var failed: seq<int>  // the pid of each failed kill, in the order appended

    constructor (pids: seq<int>)
      ensures failed == pids
    {
      failed := pids;
    }
  }

  /** Whether the n-th kill attempted, on a given pid, fails. */
  type Failures = (nat, int) -> bool

  /** The list after killing the subtree of `root`: `prev` is the list so far, `k` the number of
      kills attempted so far, and `fails(n, pid)` tells whether the n-th attempt, on `pid`, fails. */
  function Report(root: int, ps: seq<Process>, prev: Option<seq<int>>, k: nat, fails: Failures): Option<seq<int>>
    decreases |ps|, |ps| + 1
  {
    var r := ReportVisits(root, ps, |ps|, prev, k, fails);
    if !fails(k + |Visits(root, ps, |ps|)|, root) then r
    else Some((if r.None? then [] else r.value) + [root])
  }

  /** When the recursive call was handed a list it returns that same object, and appending the
      list to itself repeats everything in it. */
  function ReportVisits(root: int, ps: seq<Process>, n: nat, prev: Option<seq<int>>, k: nat,
      fails: Failures): Option<seq<int>>
    requires n <= |ps|
    decreases |ps|, n
  {
    if n == 0 then prev
    else
      var r := ReportVisits(root, ps, n - 1, prev, k, fails);
      if ps[n - 1].ppid != root then r else ChildReport(ps, n - 1, r, k + |Visits(root, ps, n - 1)|, fails)
  }

  function ChildReport(ps: seq<Process>, i: nat, r: Option<seq<int>>, k: nat, fails: Failures): Option<seq<int>>
    requires i < |ps|
    decreases |ps|, 0
  {
    var sub := Report(ps[i].pid, Without(ps, i), r, k, fails);
    if sub.Some? && r.Some? then Some(sub.value + sub.value) else sub
  }

  /** Some attempt in `a`, numbered from `k`, fails on `pid`. */
  ghost predicate FailedIn(a: seq<int>, k: nat, fails: Failures, pid: int) {
    exists i :: 0 <= i < |a| && a[i] == pid && fails(k + i, pid)
  }

  ghost predicate Listed(r: Option<seq<int>>, pid: int) {
    r.Some? && pid in r.value
  }

  lemma FailedInJoin(a: seq<int>, b: seq<int>, k: nat, fails: Failures, pid: int)
    ensures FailedIn(a + b, k, fails, pid) <==> FailedIn(a, k, fails, pid) || FailedIn(b, k + |a|, fails, pid)
  {
    if i :| 0 <= i < |a| && a[i] == pid && fails(k + i, pid) {
      assert (a + b)[i] == pid;
    }
    if i :| 0 <= i < |b| && b[i] == pid && fails(k + |a| + i, pid) {
      assert (a + b)[|a| + i] == pid && fails(k + (|a| + i), pid);
    }
    if i :| 0 <= i < |a + b| && (a + b)[i] == pid && fails(k + i, pid) {
      if |a| <= i {
        assert b[i - |a|] == pid && fails(k + |a| + (i - |a|), pid);
      }
    }
  }

  lemma {:induction false} VisitsReport(root: int, ps: seq<Process>, n: nat, prev: Option<seq<int>>, k: nat,
      fails: Failures, pid: int)
    requires n <= |ps|
    requires prev.Some? ==> prev.value != []
    ensures var r := ReportVisits(root, ps, n, prev, k, fails);
            && (r.Some? ==> r.value != [])
            && (Listed(r, pid) <==> Listed(prev, pid) || FailedIn(Visits(root, ps, n), k, fails, pid))
    decreases |ps|, n
  {
    if n > 0 {
      var i := n - 1;
      VisitsReport(root, ps, i, prev, k, fails, pid);
      var before := Visits(root, ps, i);
      if ps[i].ppid == root {
        var r := ReportVisits(root, ps, i, prev, k, fails);
        FailuresAreReported(ps[i].pid, Without(ps, i), r, k + |before|, fails, pid);
        FailedInJoin(before, Attempts(ps[i].pid, Without(ps, i)), k, fails, pid);
      } else {
        assert Visits(root, ps, n) == before;
      }
    }
  }

  /** The error names exactly the pids that some attempt failed on, besides those it held before. */
  lemma {:induction false} FailuresAreReported(root: int, ps: seq<Process>, prev: Option<seq<int>>, k: nat,
      fails: Failures, pid: int)
    requires prev.Some? ==> prev.value != []
    ensures var r := Report(root, ps, prev, k, fails);
            && (r.Some? ==> r.value != [])
            && (Listed(r, pid) <==> Listed(prev, pid) || FailedIn(Attempts(root, ps), k, fails, pid))
    decreases |ps|, |ps| + 1
  {
    VisitsReport(root, ps, |ps|, prev, k, fails, pid);
    FailedInJoin(Visits(root, ps, |ps|), [root], k, fails, pid);
    if fails(k + |Visits(root, ps, |ps|)|, root) {
      assert [root][0] == root && fails(k + |Visits(root, ps, |ps|)| + 0, root);
    }
  }

  /** No error comes back exactly when every attempt succeeded. */
  lemma NilExactlyWhenAllKilled(root: int, ps: seq<Process>, k: nat, fails: Failures)
    ensures Report(root, ps, None, k, fails).None? <==>
            forall i :: 0 <= i < |Attempts(root, ps)| ==> !fails(k + i, Attempts(root, ps)[i])
  {
    var a, r := Attempts(root, ps), Report(root, ps, None, k, fails);
    FailuresAreReported(root, ps, None, k, fails, root);
    if r.Some? {
      FailuresAreReported(root, ps, None, k, fails, r.value[0]);
      assert Listed(r, r.value[0]);
    }
    forall i | 0 <= i < |a| && fails(k + i, a[i])
      ensures r.Some?
    {
      FailuresAreReported(root, ps, None, k, fails, a[i]);
      assert FailedIn(a, k, fails, a[i]);
    }
  }

  // ----- When the error list repeats nothing -------------------------------------------

  ghost predicate Repeatless(r: Option<seq<int>>) {
    r.None? || NoDuplicates(r.value)
  }

  /** After a failed attempt only its ancestors are still attempted. */
  ghost predicate OnlyAncestorsFollow(ps: seq<Process>, a: seq<int>, k: nat, fails: Failures) {
    forall i, j :: 0 <= i < j < |a| && fails(k + i, a[i]) ==> Descendant(ps, a[j], a[i])
  }

  ghost predicate NoneFails(a: seq<int>, k: nat, fails: Failures) {
    forall i :: 0 <= i < |a| ==> !fails(k + i, a[i])
  }

  /** The list so far names nobody exactly when nothing has failed. */
  lemma VisitsNil(root: int, ps: seq<Process>, n: nat, k: nat, fails: Failures)
    requires n <= |ps|
    ensures ReportVisits(root, ps, n, None, k, fails).None? <==> NoneFails(Visits(root, ps, n), k, fails)
  {
    var v, r := Visits(root, ps, n), ReportVisits(root, ps, n, None, k, fails);
    VisitsReport(root, ps, n, None, k, fails, root);
    if r.Some? {
      VisitsReport(root, ps, n, None, k, fails, r.value[0]);
      assert Listed(r, r.value[0]);
    }
    forall i | 0 <= i < |v| && fails(k + i, v[i])
      ensures r.Some?
    {
      VisitsReport(root, ps, n, None, k, fails, v[i]);
      assert FailedIn(v, k, fails, v[i]);
    }
  }

  /** Inside a child's subtree it does not matter that the child's entry has been dropped. */
  lemma SameAncestorsBelow(root: int, ps: seq<Process>, i: nat, k: nat, fails: Failures)
    requires !Descendant(ps, root, root) && i < |ps| && ps[i].ppid == root
    ensures var qs := Without(ps, i); var below := Attempts(ps[i].pid, qs);
            OnlyAncestorsFollow(qs, below, k, fails) <==> OnlyAncestorsFollow(ps, below, k, fails)
  {
    var qs := Without(ps, i);
    var below := Attempts(ps[i].pid, qs);
    forall x, y | x in below && y in below
      ensures Descendant(qs, y, x) <==> Descendant(ps, y, x)
    {
      if Descendant(qs, y, x) {
        var c: seq<Process> :| c != [] && Walk(qs, y, x, c);
        WalkWithin(qs, ps, y, x, c);
      }
      if Descendant(ps, y, x) {
        ChildIsReachable(root, ps, i, y);
        EntryIsNotBelow(root, ps, i, y, x);
      }
    }
  }

  /** Something that failed below an earlier child is not below a later one. */
  lemma FailureIsNotBelow(root: int, ps: seq<Process>, i: nat, x: int)
    requires UniquePids(ps) && !Descendant(ps, root, root) && i < |ps| && ps[i].ppid == root
    requires x in Visits(root, ps, i)
    ensures !Descendant(ps, ps[i].pid, x)
  {
    VisitsMember(root, ps, i, x);
    var j :| 0 <= j < i && ps[j].ppid == root && x in Attempts(ps[j].pid, Without(ps, j));
    ChildIsReachable(root, ps, j, x);
    SiblingsShareNothing(root, ps, i, j, x);
  }

  /** A list handed to a child comes back appended to itself. */
  lemma HandedDownIsRepeated(root: int, ps: seq<Process>, i: nat, k: nat, fails: Failures)
    requires UniquePids(ps) && !Descendant(ps, root, root) && i < |ps| && ps[i].ppid == root
    requires ReportVisits(root, ps, i, None, k, fails).Some?
    ensures !Repeatless(ReportVisits(root, ps, i + 1, None, k, fails))
    ensures !OnlyAncestorsFollow(ps, Visits(root, ps, i + 1), k, fails)
  {
    var qs, before, r := Without(ps, i), Visits(root, ps, i), ReportVisits(root, ps, i, None, k, fails);
    var below := Attempts(ps[i].pid, qs);
    VisitsReport(root, ps, i, None, k, fails, root);
    FailuresAreReported(ps[i].pid, qs, r, k + |before|, fails, r.value[0]);
    var sub := Report(ps[i].pid, qs, r, k + |before|, fails);
    assert Listed(sub, r.value[0]);
    assert (sub.value + sub.value)[0] == (sub.value + sub.value)[|sub.value|];
    VisitsNil(root, ps, i, k, fails);
    var m :| 0 <= m < |before| && fails(k + m, before[m]);
    FailureIsNotBelow(root, ps, i, before[m]);
    var all := before + below;
    assert all[m] == before[m] && all[|all| - 1] == ps[i].pid;
  }

  /** When nothing has failed before, a child's attempts decide. */
  lemma OnlyTheChildCounts(ps: seq<Process>, before: seq<int>, below: seq<int>, k: nat, fails: Failures)
    requires NoneFails(before, k, fails)
    ensures OnlyAncestorsFollow(ps, before + below, k, fails) <==> OnlyAncestorsFollow(ps, below, k + |before|, fails)
  {
    var all, n := before + below, |before|;
    if OnlyAncestorsFollow(ps, all, k, fails) {
      forall i, j | 0 <= i < j < |below| && fails(k + n + i, below[i])
        ensures Descendant(ps, below[j], below[i])
      {
        assert all[n + i] == below[i] && all[n + j] == below[j] && fails(k + (n + i), all[n + i]);
      }
    }
    if OnlyAncestorsFollow(ps, below, k + n, fails) {
      forall i, j | 0 <= i < j < |all| && fails(k + i, all[i])
        ensures Descendant(ps, all[j], all[i])
      {
        assert n <= i && all[i] == below[i - n] && all[j] == below[j - n] && fails(k + n + (i - n), below[i - n]);
      }
    }
  }

  lemma {:induction false} VisitsRepeatless(root: int, ps: seq<Process>, n: nat, k: nat, fails: Failures)
    requires UniquePids(ps) && !Descendant(ps, root, root) && n <= |ps|
    ensures Repeatless(ReportVisits(root, ps, n, None, k, fails)) <==>
            OnlyAncestorsFollow(ps, Visits(root, ps, n), k, fails)
    decreases |ps|, n
  {
    if n > 0 {
      var i := n - 1;
      var r, before := ReportVisits(root, ps, i, None, k, fails), Visits(root, ps, i);
      if ps[i].ppid != root {
        VisitsRepeatless(root, ps, i, k, fails);
        assert Visits(root, ps, n) == before;
      } else if r.Some? {
        HandedDownIsRepeated(root, ps, i, k, fails);
      } else {
        FirstListRepeatless(root, ps, i, k, fails);
      }
    }
  }

  lemma {:induction false} FirstListRepeatless(root: int, ps: seq<Process>, i: nat, k: nat, fails: Failures)
    requires UniquePids(ps) && !Descendant(ps, root, root) && i < |ps| && ps[i].ppid == root
    requires ReportVisits(root, ps, i, None, k, fails).None?
    ensures Repeatless(ReportVisits(root, ps, i + 1, None, k, fails)) <==>
            OnlyAncestorsFollow(ps, Visits(root, ps, i + 1), k, fails)
    decreases |ps|, 0
  {
    var qs, before := Without(ps, i), Visits(root, ps, i);
    var m := k + |before|;
    VisitsNil(root, ps, i, k, fails);
    DroppedIsNotBelowItself(ps, i);
    RepeatsNothingExactlyWhen(ps[i].pid, qs, m, fails);
    SameAncestorsBelow(root, ps, i, m, fails);
    OnlyTheChildCounts(ps, before, Attempts(ps[i].pid, qs), k, fails);
    assert ReportVisits(root, ps, i + 1, None, k, fails) == Report(ps[i].pid, qs, None, m, fails);
  }

  /** With unique pids and no cycle through the root, the error list repeats nothing if and only if
      after every failed kill only ancestors of that process are still to be killed. A list that is
      handed down to a sibling of a failed process, or of one of its ancestors, comes back doubled. */
  lemma {:induction false} RepeatsNothingExactlyWhen(root: int, ps: seq<Process>, k: nat, fails: Failures)
    requires UniquePids(ps) && !Descendant(ps, root, root)
    ensures Repeatless(Report(root, ps, None, k, fails)) <==> OnlyAncestorsFollow(ps, Attempts(root, ps), k, fails)
    decreases |ps|, |ps| + 1
  {
    var v, r := Visits(root, ps, |ps|), ReportVisits(root, ps, |ps|, None, k, fails);
    VisitsRepeatless(root, ps, |ps|, k, fails);
    VisitsReport(root, ps, |ps|, None, k, fails, root);
    VisitsOnce(root, ps, |ps|);
    AppendNew(r, root);
    forall x | x in v
      ensures Descendant(ps, root, x)
    {
      VisitsMember(root, ps, |ps|, x);
      var i :| 0 <= i < |ps| && ps[i].ppid == root && x in Attempts(ps[i].pid, Without(ps, i));
      ChildIsReachable(root, ps, i, x);
    }
    RootFollowsAll(root, ps, v, k, fails);
  }

  lemma AppendNew(r: Option<seq<int>>, x: int)
    requires !Listed(r, x)
    ensures Repeatless(Some((if r.None? then [] else r.value) + [x])) <==> Repeatless(r)
  {
    if r.Some? {
      var all := r.value + [x];
      assert forall i :: 0 <= i < |r.value| ==> all[i] == r.value[i];
    }
  }

  lemma RootFollowsAll(root: int, ps: seq<Process>, v: seq<int>, k: nat, fails: Failures)
    requires forall x :: x in v ==> Descendant(ps, root, x)
    ensures OnlyAncestorsFollow(ps, v + [root], k, fails) <==> OnlyAncestorsFollow(ps, v, k, fails)
  {
    var a := v + [root];
    if OnlyAncestorsFollow(ps, a, k, fails) {
      forall i, j | 0 <= i < j < |v| && fails(k + i, v[i])
        ensures Descendant(ps, v[j], v[i])
      {
        assert a[i] == v[i] && a[j] == v[j];
      }
    }
    if OnlyAncestorsFollow(ps, v, k, fails) {
      forall i, j | 0 <= i < j < |a| && fails(k + i, a[i])
        ensures Descendant(ps, a[j], a[i])
      {
        assert a[i] == v[i];
      }
    }
  }

  predicate OnlyPid20Fails(n: nat, pid: int) {
    pid == 20
  }

  lemma ChildlessReport(root: int, c: Process, prev: Option<seq<int>>, k: nat, fails: Failures)
    requires c.ppid != root
    ensures Attempts(root, [c]) == [root]
    ensures Report(root, [c], prev, k, fails) ==
            if fails(k, root) then Some((if prev.None? then [] else prev.value) + [root]) else prev
  {
    assert Visits(root, [c], 1) == Visits(root, [c], 0) == [];
    assert ReportVisits(root, [c], 1, prev, k, fails) == ReportVisits(root, [c], 0, prev, k, fails);
  }

  /** The list may name one failed kill more than once: the first of two children cannot be
      killed, the second one can. */
  lemma OneFailureListedTwice()
    ensures var ps := [Process(20, 10, "child1"), Process(30, 10, "child2")];
            && Attempts(10, ps) == [20, 30, 10]
            && Report(10, ps, None, 0, OnlyPid20Fails) == Some([20, 20])
  {
    var c1, c2 := Process(20, 10, "child1"), Process(30, 10, "child2");
    var ps, one := [c1, c2], Some([20]);
    assert Without(ps, 0) == [c2] && Without(ps, 1) == [c1];
    ChildlessReport(20, c2, None, 0, OnlyPid20Fails);
    ChildlessReport(30, c1, one, 1, OnlyPid20Fails);
    assert Visits(10, ps, 0) == [] && ReportVisits(10, ps, 0, None, 0, OnlyPid20Fails) == None;
    assert Visits(10, ps, 1) == [20];
    assert ReportVisits(10, ps, 1, None, 0, OnlyPid20Fails) == one;
    assert Visits(10, ps, 2) == [20, 30];
    assert one.value + one.value == [20, 20];
    assert ReportVisits(10, ps, 2, None, 0, OnlyPid20Fails) == Some([20, 20]);
  }

  datatype KillResult = Nil | ListError | KillErrors(pids: seq<int>)

  class ProcessTreeKiller {
    const listing: Option<seq<Process>>   // what ListProcesses returns; None when it fails
    const fails: Failures       // whether the n-th KillProcess call, on a given pid, fails
    var attempts: seq<int>                // every pid passed to KillProcess so far

    constructor (listing: Option<seq<Process>>, fails: Failures)
      ensures this.listing == listing && this.fails == fails && attempts == []
    {
      this.listing := listing;
      this.fails := fails;
      attempts := [];
    }

    method KillProcess(pid: int) returns (failed: bool)
      modifies this
      ensures attempts == old(attempts) + [pid]
      ensures failed == fails(|old(attempts)|, pid)
    {
      failed := fails(|attempts|, pid);
      attempts := attempts + [pid];
    }

    method KillProcessTree(ppid: int) returns (r: KillResult)
      modifies this
      ensures r.ListError? <==> listing.None?
      ensures listing.None? ==> attempts == old(attempts)
      ensures listing.Some? ==> attempts == old(attempts) + Attempts(ppid, listing.value)
      ensures listing.Some? ==> forall pid :: (r.KillErrors? && pid in r.pids) <==>
                FailedIn(Attempts(ppid, listing.value), |old(attempts)|, fails, pid)
      ensures r.Nil? <==> listing.Some? && forall i :: |old(attempts)| <= i < |attempts| ==> !fails(i, attempts[i])
    {
      if listing.None? {
        return ListError;
      }
      ghost var k, a := |attempts|, Attempts(ppid, listing.value);
      var err := Kill(ppid, listing.value, null);
      forall pid {
        FailuresAreReported(ppid, listing.value, None, k, fails, pid);
      }
      NilExactlyWhenAllKilled(ppid, listing.value, k, fails);
      assert forall i :: 0 <= i < |a| ==> attempts[k + i] == a[i];
      assert forall i :: k <= i < |attempts| ==> attempts[i] == a[i - k] && k + (i - k) == i;
      r := if err == null then Nil else KillErrors(err.failed);
    }

    /** killProcessTree: `result` is the list handed down by the caller, null for none. */
    method Kill(ppid: int, processes: seq<Process>, result: MultiError?) returns (r: MultiError?)
      modifies this, if result == null then {} else {result}
      ensures attempts == old(attempts) + Attempts(ppid, processes)
      ensures Value(r) == Report(ppid, processes, old(Value(result)), |old(attempts)|, fails)
      ensures result != null ==> r == result
      ensures result == null && r != null ==> fresh(r)
      decreases |processes|, 1
    {
      r := result;
      ghost var prev, was := Value(result), attempts;
      for i := 0 to |processes|
        invariant attempts == was + Visits(ppid, processes, i)
        invariant Value(r) == ReportVisits(ppid, processes, i, prev, |was|, fails)
        invariant result != null ==> r == result
        invariant result == null && r != null ==> fresh(r)
      {
        if processes[i].ppid == ppid {
          r := KillChild(processes, i, r);
        }
      }
      var failed := KillProcess(ppid);
      if failed {
        r := AppendError(r, [ppid]);
      }
    }

    /** What the loop does for a child. */
    method KillChild(processes: seq<Process>, i: nat, result: MultiError?) returns (r: MultiError?)
      requires i < |processes|
      modifies this, if result == null then {} else {result}
      ensures attempts == old(attempts) + Attempts(processes[i].pid, Without(processes, i))
      ensures Value(r) == ChildReport(processes, i, old(Value(result)), |old(attempts)|, fails)
      ensures result != null ==> r == result
      ensures result == null && r != null ==> fresh(r)
      decreases |processes|, 0
    {
      r := result;
      var reduced := CopyExcept(processes, i);
      var err := Kill(processes[i].pid, reduced, r);
      if err != null {
        assert r == null ==> [] + err.failed == err.failed;
        r := AppendError(r, err.failed);
      }
    }
  }

  ghost function Value(e: MultiError?): Option<seq<int>>
    reads e
  {
    if e == null then None else Some(e.failed)
  }

  /** multierror.Append: extends the list in place, or starts a new one. */
  method AppendError(e: MultiError?, pids: seq<int>) returns (r: MultiError)
    modifies e
    ensures r.failed == (if e == null then [] else old(e.failed)) + pids
    ensures if e == null then fresh(r) else r == e
  {
    if e == null {
      r := new MultiError(pids);
    } else {
      e.failed := e.failed + pids;
      r := e;
    }
  }
}
