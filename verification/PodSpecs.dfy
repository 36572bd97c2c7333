/** Pod specifications and the difference between two of them (pkg/server/pod_controller.go). */
module PodSpecs {
  import opened Basics

  /** `config` stands for everything about a unit that the controller does not compare. */
  datatype Unit = Unit(name: string, image: string, config: string)

  datatype RestartPolicy = Always | OnFailure | Never
  datatype Phase = PodWaiting | PodDispatching | PodRunning | PodSucceeded | PodFailed | PodTerminated

  datatype PodSpec = PodSpec(phase: Phase, restartPolicy: RestartPolicy, units: seq<Unit>, initUnits: seq<Unit>)

  predicate UnitsEqual(specUnit: Unit, statusUnit: Unit) {
    specUnit.image == statusUnit.image && specUnit.name == statusUnit.name
  }

  method UnitsSlicesEqual(specUnits: seq<Unit>, statusUnits: seq<Unit>) returns (equal: bool)
    ensures equal <==> SameUnits(specUnits, statusUnits)
  {
    if |specUnits| != |statusUnits| {
      return false;
    }
    for i := 0 to |specUnits|
      invariant forall j :: 0 <= j < i ==> UnitsEqual(specUnits[j], statusUnits[j])
    {
      if !UnitsEqual(specUnits[i], statusUnits[i]) {
        return false;
      }
    }
    return true;
  }

  predicate SameUnits(a: seq<Unit>, b: seq<Unit>) {
    |a| == |b| && forall i :: 0 <= i < |a| ==> UnitsEqual(a[i], b[i])
  }

  /** The elements among the first `n` of `a` that `b` does not hold at the same place. */
  function Differing(a: seq<Unit>, b: seq<Unit>, n: nat): seq<Unit>
    requires n <= |a|
  {
    if n == 0 then []
    else Differing(a, b, n - 1) + if n <= |b| && UnitsEqual(a[n - 1], b[n - 1]) then [] else [a[n - 1]]
  }

  /** What has to be added to `b`, and, with the arguments swapped, deleted from it, to get `a`. */
  function Additions(a: seq<Unit>, b: seq<Unit>): seq<Unit> {
    Differing(a, b, |a|)
  }

  /** diffUnits walks the longer list; the specification is symmetric. */
  method DiffUnits(spec: seq<Unit>, status: seq<Unit>) returns (toAdd: seq<Unit>, toDelete: seq<Unit>)
    ensures toAdd == Additions(spec, status)
    ensures toDelete == Additions(status, spec)
  {
    toAdd, toDelete := [], [];
    if |spec| >= |status| {
      for i := 0 to |spec|
        invariant toAdd == Differing(spec, status, i)
        invariant toDelete == Differing(status, spec, if i < |status| then i else |status|)
      {
        if i >= |status| {
          toAdd := toAdd + [spec[i]];
          continue;
        }
        if !UnitsEqual(spec[i], status[i]) {
          toDelete := toDelete + [status[i]];
          toAdd := toAdd + [spec[i]];
        }
      }
    } else {
      for i := 0 to |status|
        invariant toDelete == Differing(status, spec, i)
        invariant toAdd == Differing(spec, status, if i < |spec| then i else |spec|)
      {
        if i >= |spec| {
          toDelete := toDelete + [status[i]];
          continue;
        }
        if !UnitsEqual(status[i], spec[i]) {
          toDelete := toDelete + [status[i]];
          toAdd := toAdd + [spec[i]];
        }
      }
    }
  }

  // ----- Laws of the difference --------------------------------------------------------

  /** What unitsEqual compares. */
  datatype Key = Key(name: string, image: string)

  function KeyOf(u: Unit): Key {
    Key(u.name, u.image)
  }

  function KeySeq(units: seq<Unit>): seq<Key> {
    seq(|units|, i requires 0 <= i < |units| => KeyOf(units[i]))
  }

  /** The keys of a unit list, with multiplicity. */
  function Keys(units: seq<Unit>): multiset<Key> {
    multiset(KeySeq(units))
  }

  lemma KeysAppend(units: seq<Unit>, u: Unit)
    ensures Keys(units + [u]) == Keys(units) + multiset{KeyOf(u)}
  {
    assert KeySeq(units + [u]) == KeySeq(units) + [KeyOf(u)];
  }

  predicate AgreeAt(a: seq<Unit>, b: seq<Unit>, i: nat)
    requires i < |a|
  {
    i < |b| && KeyOf(a[i]) == KeyOf(b[i])
  }

  /** The keys on which the lists agree in place: what neither difference mentions. */
  ghost function Common(a: seq<Unit>, b: seq<Unit>, n: nat): multiset<Key>
    requires n <= |a|
  {
    if n == 0 then multiset{}
    else if AgreeAt(a, b, n - 1) then Common(a, b, n - 1) + multiset{KeyOf(a[n - 1])}
    else Common(a, b, n - 1)
  }

  /** Every place goes to one of the two. */
  lemma DifferingOrCommon(a: seq<Unit>, b: seq<Unit>, n: nat)
    requires 0 < n <= |a|
    ensures Keys(Differing(a, b, n)) + Common(a, b, n)
            == Keys(Differing(a, b, n - 1)) + Common(a, b, n - 1) + multiset{KeyOf(a[n - 1])}
  {
    if AgreeAt(a, b, n - 1) {
      assert Differing(a, b, n) == Differing(a, b, n - 1);
    } else {
      KeysAppend(Differing(a, b, n - 1), a[n - 1]);
      assert Differing(a, b, n) == Differing(a, b, n - 1) + [a[n - 1]];
    }
  }

  lemma {:induction false} DifferingPlusCommon(a: seq<Unit>, b: seq<Unit>, n: nat)
    requires n <= |a|
    ensures Keys(a[..n]) == Keys(Differing(a, b, n)) + Common(a, b, n)
  {
    if n == 0 {
      assert KeySeq(a[..0]) == KeySeq([]) == [];
    } else {
      DifferingPlusCommon(a, b, n - 1);
      DifferingOrCommon(a, b, n);
      KeysAppend(a[..n - 1], a[n - 1]);
      assert a[..n] == a[..n - 1] + [a[n - 1]];
    }
  }

  lemma {:induction false} CommonIsSymmetric(a: seq<Unit>, b: seq<Unit>, n: nat)
    requires n <= |a|
    ensures Common(a, b, n) == Common(b, a, Min(n, |b|))
  {
    if n > 0 {
      CommonIsSymmetric(a, b, n - 1);
    }
  }

  /** Deleting and adding what the difference says turns the status into the spec. */
  lemma DiffLeadsToSpec(spec: seq<Unit>, status: seq<Unit>)
    ensures Keys(Additions(status, spec)) <= Keys(status)
    ensures Keys(status) - Keys(Additions(status, spec)) + Keys(Additions(spec, status)) == Keys(spec)
  {
    DifferingPlusCommon(spec, status, |spec|);
    DifferingPlusCommon(status, spec, |status|);
    assert spec[..|spec|] == spec && status[..|status|] == status;
    if |spec| >= |status| {
      CommonIsSymmetric(spec, status, |spec|);
    } else {
      CommonIsSymmetric(status, spec, |status|);
    }
  }

  lemma {:induction false} DifferingEmpty(a: seq<Unit>, b: seq<Unit>, n: nat)
    requires n <= |a|
    ensures Differing(a, b, n) == [] <==> n <= |b| && forall i :: 0 <= i < n ==> UnitsEqual(a[i], b[i])
  {
    if n > 0 {
      DifferingEmpty(a, b, n - 1);
    }
  }

  /** Nothing to add and nothing to delete exactly when the lists agree. */
  lemma DiffEmptyExactlyWhenSame(spec: seq<Unit>, status: seq<Unit>)
    ensures |Additions(spec, status)| + |Additions(status, spec)| == 0 <==> SameUnits(spec, status)
  {
    DifferingEmpty(spec, status, |spec|);
    DifferingEmpty(status, spec, |status|);
  }

  /** The places among the first `n` of `a` at which `b` does not agree with it, in order. */
  ghost function Places(a: seq<Unit>, b: seq<Unit>, n: nat): seq<nat>
    requires n <= |a|
  {
    if n == 0 then []
    else Places(a, b, n - 1) + if AgreeAt(a, b, n - 1) then [] else [n - 1]
  }

  /** `at` are exactly the places below `n` at which the lists disagree, in increasing order. */
  ghost predicate Disagreements(at: seq<nat>, a: seq<Unit>, b: seq<Unit>, n: nat)
    requires n <= |a|
  {
    && Increasing(at, n)
    && forall i: nat :: i < n ==> (i in at <==> !AgreeAt(a, b, i))
  }

  lemma OneMorePlace(at: seq<nat>, a: seq<Unit>, b: seq<Unit>, n: nat)
    requires n < |a| && Disagreements(at, a, b, n)
    ensures Disagreements(at + if AgreeAt(a, b, n) then [] else [n], a, b, n + 1)
  {
    if AgreeAt(a, b, n) {
      assert at + [] == at;
    } else {
      assert forall i :: i in at + [n] <==> i in at || i == n;
    }
  }

  lemma {:induction false} PlacesDisagree(a: seq<Unit>, b: seq<Unit>, n: nat)
    requires n <= |a|
    ensures Disagreements(Places(a, b, n), a, b, n)
  {
    if n > 0 {
      PlacesDisagree(a, b, n - 1);
      OneMorePlace(Places(a, b, n - 1), a, b, n - 1);
    }
  }

  lemma {:induction false} DifferingAtPlaces(a: seq<Unit>, b: seq<Unit>, n: nat)
    requires n <= |a|
    ensures |Places(a, b, n)| == |Differing(a, b, n)|
    ensures forall i :: 0 <= i < |Differing(a, b, n)| ==>
              Places(a, b, n)[i] < n && Differing(a, b, n)[i] == a[Places(a, b, n)[i]]
  {
    if n > 0 {
      DifferingAtPlaces(a, b, n - 1);
    }
  }

  /** The difference holds a unit for each place at which the lists disagree and for no other, in the
      order of the list: units that stay as they are are left alone. */
  lemma DiffTouchesOnlyDisagreements(spec: seq<Unit>, status: seq<Unit>)
    ensures exists at :: Disagreements(at, spec, status, |spec|) && Embeds(Additions(spec, status), spec, at)
    ensures exists at :: Disagreements(at, status, spec, |status|) && Embeds(Additions(status, spec), status, at)
  {
    PlacesDisagree(spec, status, |spec|);
    DifferingAtPlaces(spec, status, |spec|);
    assert Embeds(Additions(spec, status), spec, Places(spec, status, |spec|));
    PlacesDisagree(status, spec, |status|);
    DifferingAtPlaces(status, spec, |status|);
    assert Embeds(Additions(status, spec), status, Places(status, spec, |status|));
  }

  // ----- The kind of an update ---------------------------------------------------------

  datatype UpdateType = NoChanges | PodRestart | PodCreate | UnitsChange

  function ChangeType(spec: PodSpec, status: PodSpec): UpdateType {
    if !SameUnits(spec.initUnits, status.initUnits) then PodRestart
    else if |status.units| == 0 && |status.initUnits| == 0 then PodCreate
    else if |Additions(spec.units, status.units)| + |Additions(status.units, spec.units)| > 0 then UnitsChange
    else NoChanges
  }

  method DetectChangeType(spec: PodSpec, status: PodSpec) returns (t: UpdateType)
    ensures t == ChangeType(spec, status)
  {
    var same := UnitsSlicesEqual(spec.initUnits, status.initUnits);
    if !same {
      return PodRestart;
    }
    if |status.units| == 0 && |status.initUnits| == 0 {
      return PodCreate;
    }
    var toAdd, toDelete := DiffUnits(spec.units, status.units);
    var diffSize := |toAdd| + |toDelete|;
    if diffSize > 0 {
      return UnitsChange;
    }
    return NoChanges;
  }

  /** A pod is restarted exactly when its init units differ, and created when they agree with an empty
      status, so never with init units to start. Otherwise nothing changes exactly when the units
      agree, too. */
  lemma WhatChangeTypesMean(spec: PodSpec, status: PodSpec)
    ensures ChangeType(spec, status) == PodRestart <==> !SameUnits(spec.initUnits, status.initUnits)
    ensures ChangeType(spec, status) == PodCreate <==>
              spec.initUnits == [] && status.units == [] && status.initUnits == []
    ensures ChangeType(spec, status) == NoChanges <==>
              && SameUnits(spec.initUnits, status.initUnits) && SameUnits(spec.units, status.units)
              && !(status.units == [] && status.initUnits == [])
    ensures ChangeType(spec, status) == UnitsChange <==>
              && SameUnits(spec.initUnits, status.initUnits) && !SameUnits(spec.units, status.units)
              && !(status.units == [] && status.initUnits == [])
  {
    DiffEmptyExactlyWhenSame(spec.units, status.units);
  }
}
