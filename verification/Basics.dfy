/** Notions several components share: optional values and order-preserving sub-sequences. */
module Basics {

  datatype Option<+T> = None | Some(value: T)

  function Min(a: int, b: int): int {
    if a < b then a else b
  }

  function Max(a: int, b: int): int {
    if a < b then b else a
  }

  ghost predicate NoDuplicates<T(!new)>(s: seq<T>) {
    forall i, j :: 0 <= i < j < |s| ==> s[i] != s[j]
  }

  lemma NoDuplicatesInJoin<T(!new)>(a: seq<T>, b: seq<T>)
    requires NoDuplicates(a) && NoDuplicates(b) && forall x :: x in b ==> x !in a
    ensures NoDuplicates(a + b)
  {
    forall i, j | 0 <= i < j < |a + b|
      ensures (a + b)[i] != (a + b)[j]
    {
      if |a| <= j {
        assert (a + b)[j] in b;
      }
    }
  }

  /** The positions `at` are strictly increasing and lie below `bound`. */
  ghost predicate Increasing(at: seq<nat>, bound: nat) {
    && (forall i, j :: 0 <= i < j < |at| ==> at[i] < at[j])
    && (forall i :: 0 <= i < |at| ==> at[i] < bound)
  }

  /** `sub` is `whole` read at the strictly increasing positions `at`. */
  ghost predicate Embeds<T(!new)>(sub: seq<T>, whole: seq<T>, at: seq<nat>) {
    && |at| == |sub|
    && Increasing(at, |whole|)
    && forall i :: 0 <= i < |sub| ==> sub[i] == whole[at[i]]
  }

  /** `sub` is obtained from `whole` by dropping elements: order kept, nothing duplicated. */
  ghost predicate IsSubsequence<T(!new)>(sub: seq<T>, whole: seq<T>) {
    exists at :: Embeds(sub, whole, at)
  }
}
