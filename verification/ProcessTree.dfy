/** The process tree killer (pkg/util/kill/kill.go). */
module ProcessTree {
  import opened Basics

  datatype Process = Process(pid: int, ppid: int, executable: string)

  function Without(ps: seq<Process>, except: nat): seq<Process>
    requires except < |ps|
  {
    ps[..except] + ps[except + 1..]
  }

  method CopyExcept(processes: seq<Process>, except: int) returns (result: seq<Process>)
    requires |processes| > 0  // the source reserves len(processes)-1 slots
    ensures result == if 0 <= except < |processes| then Without(processes, except) else processes
  {
    result := [];
    for i := 0 to |processes|
      invariant result == if 0 <= except < i then Without(processes[..i], except) else processes[..i]
    {
      assert processes[..i + 1] == processes[..i] + [processes[i]];
      if i != except {
        result := result + [processes[i]];
      }
    }
  }

  // ----- What a run attempts -----------------------------------------------------------

  /** The pids handed to KillProcess for the subtree of `root`, in order. */
  function Attempts(root: int, ps: seq<Process>): seq<int>
    decreases |ps|, |ps| + 1
  {
    Visits(root, ps, |ps|) + [root]
  }

  /** The share of `Attempts` issued while the loop scans the first `n` entries. */
  function Visits(root: int, ps: seq<Process>, n: nat): seq<int>
    requires n <= |ps|
    decreases |ps|, n
  {
    if n == 0 then []
    else Visits(root, ps, n - 1)
         + if ps[n - 1].ppid == root then Attempts(ps[n - 1].pid, Without(ps, n - 1)) else []
  }

  // ----- Walks along parent links ------------------------------------------------------

  /** `c` walks parent-to-child entries of `ps` from the pid `from` down to the pid `to`. */
  ghost predicate Walk(ps: seq<Process>, from: int, to: int, c: seq<Process>)
    decreases |c|
  {
    if c == [] then from == to
    else c[0] in ps && c[0].ppid == from && Walk(ps, c[0].pid, to, c[1..])
  }

  ghost predicate Reachable(ps: seq<Process>, from: int, to: int) {
    exists c :: Walk(ps, from, to, c)
  }

  /** Reachable over at least one parent link. */
  ghost predicate Descendant(ps: seq<Process>, from: int, to: int) {
    exists c :: c != [] && Walk(ps, from, to, c)
  }

  lemma {:induction false} WalkSplit(ps: seq<Process>, from: int, to: int, c: seq<Process>, j: nat)
    requires Walk(ps, from, to, c) && j < |c|
    ensures c[j] in ps
    ensures Walk(ps, from, c[j].ppid, c[..j])
    ensures Walk(ps, c[j].ppid, to, c[j..]) && Walk(ps, c[j].pid, to, c[j + 1..])
    decreases |c|
  {
    if j > 0 {
      WalkSplit(ps, c[0].pid, to, c[1..], j - 1);
      assert c[1..][j - 1..] == c[j..] && c[1..][j..] == c[j + 1..];
      assert c[..j][1..] == c[1..][..j - 1];
    }
  }

  lemma {:induction false} WalkJoin(ps: seq<Process>, from: int, mid: int, to: int, c: seq<Process>, d: seq<Process>)
    requires Walk(ps, from, mid, c) && Walk(ps, mid, to, d)
    ensures Walk(ps, from, to, c + d)
    decreases |c|
  {
    if c == [] {
      assert c + d == d;
    } else {
      WalkJoin(ps, c[0].pid, mid, to, c[1..], d);
      assert (c + d)[1..] == c[1..] + d;
    }
  }

  /** A walk that stays inside `qs`. */
  lemma {:induction false} WalkWithin(ps: seq<Process>, qs: seq<Process>, from: int, to: int, c: seq<Process>)
    requires Walk(ps, from, to, c)
    requires forall p :: p in c && p in ps ==> p in qs
    ensures Walk(qs, from, to, c)
    decreases |c|
  {
    if c != [] {
      WalkWithin(ps, qs, c[0].pid, to, c[1..]);
    }
  }

  /** Every walk can be shortened to one that uses no entry twice. */
  lemma {:induction false} SimpleWalk(ps: seq<Process>, from: int, to: int, c: seq<Process>) returns (d: seq<Process>)
    requires Walk(ps, from, to, c)
    ensures Walk(ps, from, to, d) && NoDuplicates(d)
    ensures forall p :: p in d ==> p in c
    decreases |c|
  {
    if c == [] {
      d := [];
    } else if c[0] in c[1..] {
      var j :| 1 <= j < |c| && c[j] == c[0];
      WalkSplit(ps, from, to, c, j);
      d := SimpleWalk(ps, from, to, c[j..]);
    } else {
      var e := SimpleWalk(ps, c[0].pid, to, c[1..]);
      d := [c[0]] + e;
      assert d[1..] == e;
    }
  }

  // ----- Coverage ----------------------------------------------------------------------

  lemma {:induction false} VisitsMember(root: int, ps: seq<Process>, n: nat, x: int)
    requires n <= |ps|
    ensures x in Visits(root, ps, n) <==>
            exists i :: 0 <= i < n && ps[i].ppid == root && x in Attempts(ps[i].pid, Without(ps, i))
  {
    if n > 0 {
      VisitsMember(root, ps, n - 1, x);
    }
  }

  lemma {:induction false} AttemptsAreReachable(root: int, ps: seq<Process>, x: int)
    requires x in Attempts(root, ps)
    ensures Reachable(ps, root, x)
    decreases |ps|
  {
    if x == root {
      assert Walk(ps, root, x, []);
    } else {
      VisitsMember(root, ps, |ps|, x);
      var i :| 0 <= i < |ps| && ps[i].ppid == root && x in Attempts(ps[i].pid, Without(ps, i));
      AttemptsAreReachable(ps[i].pid, Without(ps, i), x);
      var c: seq<Process> :| Walk(Without(ps, i), ps[i].pid, x, c);
      WalkWithin(Without(ps, i), ps, ps[i].pid, x, c);
      assert ([ps[i]] + c)[1..] == c;
      assert Walk(ps, root, x, [ps[i]] + c);
    }
  }

  lemma {:induction false} SimpleWalkIsAttempted(root: int, ps: seq<Process>, x: int, c: seq<Process>)
    requires Walk(ps, root, x, c) && NoDuplicates(c)
    ensures x in Attempts(root, ps)
    ensures c != [] ==> x in Visits(root, ps, |ps|)
    decreases |c|
  {
    if c != [] {
      var i :| 0 <= i < |ps| && ps[i] == c[0];
      assert forall p :: p in c[1..] && p in ps ==> p in Without(ps, i);
      WalkWithin(ps, Without(ps, i), c[0].pid, x, c[1..]);
      SimpleWalkIsAttempted(c[0].pid, Without(ps, i), x, c[1..]);
      VisitsMember(root, ps, |ps|, x);
    }
  }

  /** Whatever the table looks like - cycles, repeated pids - the pids attempted are exactly the
      root and everything below it. */
  lemma Coverage(root: int, ps: seq<Process>, x: int)
    ensures x in Attempts(root, ps) <==> Reachable(ps, root, x)
  {
    if x in Attempts(root, ps) {
      AttemptsAreReachable(root, ps, x);
    }
    if Reachable(ps, root, x) {
      var c: seq<Process> :| Walk(ps, root, x, c);
      var d := SimpleWalk(ps, root, x, c);
      SimpleWalkIsAttempted(root, ps, x, d);
    }
  }

  /** A proper descendant is attempted before the root's own final attempt. */
  lemma DescendantIsVisited(root: int, ps: seq<Process>, x: int)
    requires Descendant(ps, root, x)
    ensures x in Visits(root, ps, |ps|)
  {
    var c: seq<Process> :| c != [] && Walk(ps, root, x, c);
    var e := SimpleWalk(ps, c[0].pid, x, c[1..]);
    var d := [c[0]] + e;
    assert d[1..] == e;
    if c[0] in e {
      var j :| 0 <= j < |e| && e[j] == c[0];
      WalkSplit(ps, c[0].pid, x, e, j);
      SimpleWalkIsAttempted(root, ps, x, e[j..]);
    } else {
      SimpleWalkIsAttempted(root, ps, x, d);
    }
  }

  // ----- Exactly once, children first --------------------------------------------------

  ghost predicate UniquePids(ps: seq<Process>) {
    forall i, j :: 0 <= i < j < |ps| ==> ps[i].pid != ps[j].pid
  }

  /** With unique pids the parent of a pid is determined, so of two walks to the same pid the
      shorter one is a suffix of the longer one. */
  lemma {:induction false} CommonSuffix(ps: seq<Process>, a: int, b: int, x: int, c: seq<Process>, d: seq<Process>)
    requires UniquePids(ps) && Walk(ps, a, x, c) && Walk(ps, b, x, d) && |c| <= |d|
    ensures Walk(ps, b, a, d[..|d| - |c|])
    decreases |c|
  {
    if c == [] {
      assert d[..|d|] == d;
    } else {
      LastStep(ps, a, x, c);
      LastStep(ps, b, x, d);
      var m, n := |c| - 1, |d| - 1;
      assert c[m] == d[n];
      CommonSuffix(ps, a, b, c[m].ppid, c[..m], d[..n]);
      assert d[..n][..n - m] == d[..|d| - |c|];
    }
  }

  lemma LastStep(ps: seq<Process>, a: int, x: int, c: seq<Process>)
    requires c != [] && Walk(ps, a, x, c)
    ensures c[|c| - 1] in ps && c[|c| - 1].pid == x && Walk(ps, a, c[|c| - 1].ppid, c[..|c| - 1])
  {
    WalkSplit(ps, a, x, c, |c| - 1);
    assert c[|c| - 1 + 1..] == [];
  }

  /** Two different children of a root that is not below itself have disjoint subtrees. */
  lemma SiblingsShareNothing(root: int, ps: seq<Process>, i: nat, j: nat, x: int)
    requires UniquePids(ps) && !Descendant(ps, root, root)
    requires i < |ps| && j < |ps| && i != j && ps[i].ppid == root && ps[j].ppid == root
    ensures !(Reachable(ps, ps[i].pid, x) && Reachable(ps, ps[j].pid, x))
  {
    if Reachable(ps, ps[i].pid, x) && Reachable(ps, ps[j].pid, x) {
      var c: seq<Process> :| Walk(ps, ps[i].pid, x, c);
      var d: seq<Process> :| Walk(ps, ps[j].pid, x, d);
      if |c| <= |d| {
        SiblingsOnOneWalk(root, ps, i, j, x, c, d);
      } else {
        SiblingsOnOneWalk(root, ps, j, i, x, d, c);
      }
    }
  }

  lemma SiblingsOnOneWalk(root: int, ps: seq<Process>, i: nat, j: nat, x: int, c: seq<Process>, d: seq<Process>)
    requires UniquePids(ps)
    requires i < |ps| && j < |ps| && i != j && ps[i].ppid == root && ps[j].ppid == root
    requires Walk(ps, ps[i].pid, x, c) && Walk(ps, ps[j].pid, x, d) && |c| <= |d|
    ensures Descendant(ps, root, root)
  {
    CommonSuffix(ps, ps[i].pid, ps[j].pid, x, c, d);
    var e := d[..|d| - |c|];
    assert ps[i].pid != ps[j].pid && e != [];
    LastStep(ps, ps[j].pid, ps[i].pid, e);
    var f := e[..|e| - 1];
    assert ([ps[j]] + f)[1..] == f;
    assert Walk(ps, root, root, [ps[j]] + f);
  }

  /** Once its entry is dropped, a pid cannot be found below itself. */
  lemma DroppedIsNotBelowItself(ps: seq<Process>, i: nat)
    requires UniquePids(ps) && i < |ps|
    ensures UniquePids(Without(ps, i))
    ensures !Descendant(Without(ps, i), ps[i].pid, ps[i].pid)
  {
    var qs := Without(ps, i);
    assert forall k :: 0 <= k < |qs| ==> qs[k] == ps[if k < i then k else k + 1];
    if Descendant(qs, ps[i].pid, ps[i].pid) {
      var c: seq<Process> :| c != [] && Walk(qs, ps[i].pid, ps[i].pid, c);
      LastStep(qs, ps[i].pid, ps[i].pid, c);
    }
  }

  lemma ChildIsReachable(root: int, ps: seq<Process>, i: nat, x: int)
    requires i < |ps| && ps[i].ppid == root && x in Attempts(ps[i].pid, Without(ps, i))
    ensures Reachable(ps, ps[i].pid, x) && Descendant(ps, root, x)
  {
    AttemptsAreReachable(ps[i].pid, Without(ps, i), x);
    var c: seq<Process> :| Walk(Without(ps, i), ps[i].pid, x, c);
    WalkWithin(Without(ps, i), ps, ps[i].pid, x, c);
    assert ([ps[i]] + c)[1..] == c;
    assert Walk(ps, root, x, [ps[i]] + c);
  }

  lemma {:induction false} VisitsOnce(root: int, ps: seq<Process>, n: nat)
    requires UniquePids(ps) && !Descendant(ps, root, root) && n <= |ps|
    ensures NoDuplicates(Visits(root, ps, n))
    ensures root !in Visits(root, ps, n)
    decreases |ps|, n
  {
    if n > 0 {
      var i := n - 1;
      VisitsOnce(root, ps, i);
      if ps[i].ppid == root {
        var qs := Without(ps, i);
        DroppedIsNotBelowItself(ps, i);
        VisitsOnce(ps[i].pid, qs, |qs|);
        forall x | x in Attempts(ps[i].pid, qs)
          ensures x != root && x !in Visits(root, ps, i)
        {
          ChildIsReachable(root, ps, i, x);
          VisitsMember(root, ps, i, x);
          forall j | 0 <= j < i && ps[j].ppid == root && x in Attempts(ps[j].pid, Without(ps, j))
            ensures false
          {
            ChildIsReachable(root, ps, j, x);
            SiblingsShareNothing(root, ps, i, j, x);
          }
        }
        NoDuplicatesInJoin(Visits(root, ps, i), Attempts(ps[i].pid, qs));
      }
    }
  }

  /** With unique pids every pid is attempted exactly once, if and only if the root is not one of
      its own descendants; cycles that do not pass through the root cannot be reached at all. */
  lemma ExactlyOnce(root: int, ps: seq<Process>)
    requires UniquePids(ps)
    ensures NoDuplicates(Attempts(root, ps)) <==> !Descendant(ps, root, root)
  {
    var v := Visits(root, ps, |ps|);
    if Descendant(ps, root, root) {
      DescendantIsVisited(root, ps, root);
      var k :| 0 <= k < |v| && v[k] == root;
      assert Attempts(root, ps)[k] == Attempts(root, ps)[|v|];
    } else {
      VisitsOnce(root, ps, |ps|);
    }
  }

  /** For instance, a process that is its own parent is killed twice. */
  lemma OwnParentIsKilledTwice(pid: int, executable: string)
    ensures Attempts(pid, [Process(pid, pid, executable)]) == [pid, pid]
  {
    var ps := [Process(pid, pid, executable)];
    assert Without(ps, 0) == [];
    assert Visits(pid, [], 0) == [] && Attempts(pid, []) == [pid];
    assert Visits(pid, ps, 0) == [] && Visits(pid, ps, 1) == [pid];
  }

  /** Every descendant of the pid attempted at step `k` has been attempted at an earlier step. */
  ghost predicate ChildrenFirst(ps: seq<Process>, a: seq<int>) {
    forall k, x :: 0 <= k < |a| && Descendant(ps, a[k], x) ==> x in a[..k]
  }

  lemma {:induction false} VisitsChildrenFirst(root: int, ps: seq<Process>, n: nat)
    requires UniquePids(ps) && !Descendant(ps, root, root) && n <= |ps|
    ensures ChildrenFirst(ps, Visits(root, ps, n))
    decreases |ps|, n
  {
    if n > 0 {
      var i := n - 1;
      VisitsChildrenFirst(root, ps, i);
      if ps[i].ppid == root {
        var qs, before := Without(ps, i), Visits(root, ps, i);
        var below := Attempts(ps[i].pid, qs);
        DroppedIsNotBelowItself(ps, i);
        AttemptsChildrenFirst(ps[i].pid, qs);
        var all := Visits(root, ps, n);
        assert all == before + below;
        forall k, x | 0 <= k < |all| && Descendant(ps, all[k], x)
          ensures x in all[..k]
        {
          if k < |before| {
            assert all[..k] == before[..k];
          } else {
            var y := all[k];
            assert y in below;
            ChildIsReachable(root, ps, i, y);
            EntryIsNotBelow(root, ps, i, y, x);
            assert x in below[..k - |before|];
            assert all[..k] == before + below[..k - |before|];
          }
        }
      } else {
        assert Visits(root, ps, n) == Visits(root, ps, i);
      }
    }
  }

  /** A walk below a descendant of the root cannot come back through the root. */
  lemma EntryIsNotBelow(root: int, ps: seq<Process>, i: nat, y: int, x: int)
    requires !Descendant(ps, root, root) && i < |ps| && ps[i].ppid == root
    requires Descendant(ps, root, y) && Descendant(ps, y, x)
    ensures Descendant(Without(ps, i), y, x)
  {
    var d: seq<Process> :| d != [] && Walk(ps, root, y, d);
    var c: seq<Process> :| c != [] && Walk(ps, y, x, c);
    if j :| 0 <= j < |c| && c[j] == ps[i] {
      WalkSplit(ps, y, x, c, j);
      WalkJoin(ps, root, y, root, d, c[..j]);
      assert false;
    }
    WalkWithin(ps, Without(ps, i), y, x, c);
  }

  /** On a table with unique pids and no cycle through the root, every pid is killed after all of
      its own descendants. */
  lemma {:induction false} AttemptsChildrenFirst(root: int, ps: seq<Process>)
    requires UniquePids(ps) && !Descendant(ps, root, root)
    ensures ChildrenFirst(ps, Attempts(root, ps))
    decreases |ps|, |ps| + 1
  {
    VisitsChildrenFirst(root, ps, |ps|);
    var a, v := Attempts(root, ps), Visits(root, ps, |ps|);
    forall k, x | 0 <= k < |a| && Descendant(ps, a[k], x)
      ensures x in a[..k]
    {
      if k < |v| {
        assert a[..k] == v[..k];
      } else {
        DescendantIsVisited(root, ps, x);
        assert a[..k] == v;
      }
    }
  }
}
