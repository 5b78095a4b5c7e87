/** Go's built-in `copy(a[i:], a[i+1:])`, the in-place left shift that both
    the task store and the list window use to delete an element. */
module Slices {

  /** The contents after the shift: element `i` is gone, everything after it
      moves one place left, and the last element stays where it was (so it
      now appears twice). */
  function ShiftedLeft<T>(s: seq<T>, i: nat): (r: seq<T>)
    requires i < |s|
  {
    s[..i] + s[i + 1..] + [s[|s| - 1]]
  }

  lemma ShiftedLeftAt<T>(s: seq<T>, i: nat, k: nat)
    requires i < |s| && k < |s|
    ensures |ShiftedLeft(s, i)| == |s|
    ensures ShiftedLeft(s, i)[k] == if k < i then s[k] else if k < |s| - 1 then s[k + 1] else s[|s| - 1]
  {
  }

  /** Shifting left over any slot but the last leaves the last two slots
    equal, both holding the old last element. */
  lemma ShiftedLeftDuplicatesLast<T>(s: seq<T>, i: nat)
    requires i < |s| - 1
    ensures ShiftedLeft(s, i)[|s| - 2] == s[|s| - 1]
    ensures ShiftedLeft(s, i)[|s| - 1] == s[|s| - 1]
  {
    ShiftedLeftAt(s, i, |s| - 2);
    ShiftedLeftAt(s, i, |s| - 1);
  }

  /** `copy(a[i:], a[i+1:])`: moves a[i+1..] one place to the left. */
  method ShiftLeft<T>(a: array<T>, i: nat)
    requires i < a.Length
    modifies a
    ensures a[..] == ShiftedLeft(old(a[..]), i)
  {
    var k := i;
    while k < a.Length - 1
      invariant i <= k <= a.Length - 1
      invariant forall j :: 0 <= j < i ==> a[j] == old(a[j])
      invariant forall j :: i <= j < k ==> a[j] == old(a[j + 1])
      invariant forall j :: k <= j < a.Length ==> a[j] == old(a[j])
    {
      a[k] := a[k + 1];
      k := k + 1;
    }
    forall j | 0 <= j < a.Length
      ensures a[..][j] == ShiftedLeft(old(a[..]), i)[j]
    {
      ShiftedLeftAt(old(a[..]), i, j);
    }
  }
}
