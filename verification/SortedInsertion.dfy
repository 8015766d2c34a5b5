/** Where a value goes in a sequence that is scanned for the first larger value.
    Both the intrusive lists of list.c and the task and timer lists built on them
    are described with these functions. */
module SortedInsertion {

  ghost predicate Sorted(values: seq<nat>) {
    forall i, j :: 0 <= i < j < |values| ==> values[i] <= values[j]
  }

  /** The position in front of the first value greater than `v`, or the end. */
  function InsertPosition(values: seq<nat>, v: nat): (k: nat)
    ensures k <= |values|
    ensures forall i :: 0 <= i < k ==> values[i] <= v
    ensures k < |values| ==> values[k] > v
  {
    if values == [] || values[0] > v then 0 else 1 + InsertPosition(values[1..], v)
  }

  function InsertAt<T>(s: seq<T>, k: nat, x: T): (r: seq<T>)
    requires k <= |s|
  {
    s[..k] + [x] + s[k..]
  }

  /** Insertion keeps a sorted sequence sorted, and the new value lands behind
      every equal value that was there before it. */
  lemma InsertKeepsSorted(values: seq<nat>, v: nat)
    requires Sorted(values)
    ensures Sorted(InsertAt(values, InsertPosition(values, v), v))
    ensures forall i :: InsertPosition(values, v) <= i < |values| ==> values[i] > v
  {
    var k := InsertPosition(values, v);
    hide InsertPosition;
    forall i, j | 0 <= i < j < |values| + 1
      ensures Inserted(values, k, v, i) <= Inserted(values, k, v, j)
    {
    }
    InsertedIs(values, k, v);
  }

  /** The element that insertion leaves at a place. */
  function Inserted<T>(s: seq<T>, k: nat, x: T, i: nat): (y: T)
    requires k <= |s| && i <= |s|
  {
    if i < k then s[i] else if i == k then x else s[i - 1]
  }

  lemma InsertedIs<T>(s: seq<T>, k: nat, x: T)
    requires k <= |s|
    ensures |InsertAt(s, k, x)| == |s| + 1
    ensures forall i :: 0 <= i <= |s| ==> InsertAt(s, k, x)[i] == Inserted(s, k, x, i)
  {
  }
}
