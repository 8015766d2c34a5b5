/** What the next and previous pointers of a circular list say, as two maps. */
module RingLinks {
  import opened SortedInsertion

  ghost predicate NoDuplicates<T>(s: seq<T>) {
    forall i, j :: 0 <= i < j < |s| ==> s[i] != s[j]
  }

  /** The element at a place of the ring: the marker `end` is in front of the first
      element and behind the last one. */
  ghost function At<T>(end: T, s: seq<T>, i: int): (x: T) {
    if 0 <= i < |s| then s[i] else end
  }

  ghost function Ring<T>(end: T, s: seq<T>): (r: set<T>) {
    {end} + set x | x in s
  }

  /** Following `next` from the marker visits the elements in order and ends at the marker. */
  ghost predicate Forward<T>(end: T, s: seq<T>, next: map<T, T>) {
    && next.Keys == Ring(end, s)
    && (forall i {:trigger next[s[i]]} :: 0 <= i < |s| ==> next[s[i]] == At(end, s, i + 1))
    && next[end] == At(end, s, 0)
  }

  ghost predicate Backward<T>(end: T, s: seq<T>, previous: map<T, T>) {
    && previous.Keys == Ring(end, s)
    && (forall i {:trigger previous[s[i]]} :: 0 <= i < |s| ==> previous[s[i]] == At(end, s, i - 1))
    && previous[end] == At(end, s, |s| - 1)
  }

  /** The pointers describe the sequence: each element, and the marker, leads to its
      neighbours in both directions. */
  ghost predicate Chain<T>(end: T, s: seq<T>, next: map<T, T>, previous: map<T, T>) {
    NoDuplicates(s) && end !in s && Forward(end, s, next) && Backward(end, s, previous)
  }

  ghost function DropAt<T>(s: seq<T>, k: nat): (r: seq<T>)
    requires k < |s|
  {
    s[..k] + s[k + 1..]
  }

  lemma InsertAtPlaces<T>(end: T, s: seq<T>, k: nat, x: T)
    requires NoDuplicates(s) && end !in s && k <= |s| && x !in Ring(end, s)
    ensures var r := InsertAt(s, k, x);
      && |r| == |s| + 1 && NoDuplicates(r) && end !in r && Ring(end, r) == Ring(end, s) + {x}
      && r[k] == x
      && (forall i :: 0 <= i < |r| ==> r[i] == if i < k then s[i] else if i == k then x else s[i - 1])
  {
    var r := InsertAt(s, k, x);
    assert forall i :: 0 <= i < |s| ==> s[i] == if i < k then r[i] else r[i + 1];
  }

  lemma DropAtPlaces<T>(end: T, s: seq<T>, k: nat)
    requires NoDuplicates(s) && end !in s && k < |s|
    ensures var r := DropAt(s, k);
      && |r| == |s| - 1 && NoDuplicates(r) && end !in r && Ring(end, r) == Ring(end, s) - {s[k]}
      && (forall i :: 0 <= i < |r| ==> r[i] == if i < k then s[i] else s[i + 1])
  {
    var r := DropAt(s, k);
    assert forall i :: 0 <= i < |s| && i != k ==> s[i] == if i < k then r[i] else r[i - 1];
  }

  lemma AtInRing<T>(end: T, s: seq<T>, i: int)
    ensures At(end, s, i) in Ring(end, s) && end in Ring(end, s)
  {
  }

  lemma ForwardAfterInsertion<T>(end: T, s: seq<T>, k: nat, x: T, next: map<T, T>)
    requires NoDuplicates(s) && end !in s && Forward(end, s, next) && k <= |s| && x !in Ring(end, s)
    ensures Forward(end, InsertAt(s, k, x), next[At(end, s, k - 1) := x][x := At(end, s, k)])
  {
    hide Ring;
    InsertAtPlaces(end, s, k, x);
    AtInRing(end, s, k - 1);
    var r, n := InsertAt(s, k, x), next[At(end, s, k - 1) := x][x := At(end, s, k)];
    forall i | 0 <= i < |r|
      ensures r[i] in n && n[r[i]] == At(end, r, i + 1)
    {
      if i != k {
        var o := if i < k then i else i - 1;
        AtInRing(end, s, o);
        assert r[i] == s[o] && next[s[o]] == At(end, s, o + 1);
      }
    }
  }

  lemma BackwardAfterInsertion<T>(end: T, s: seq<T>, k: nat, x: T, previous: map<T, T>)
    requires NoDuplicates(s) && end !in s && Backward(end, s, previous) && k <= |s| && x !in Ring(end, s)
    ensures Backward(end, InsertAt(s, k, x), previous[At(end, s, k) := x][x := At(end, s, k - 1)])
  {
    hide Ring;
    InsertAtPlaces(end, s, k, x);
    AtInRing(end, s, k);
    var r, p := InsertAt(s, k, x), previous[At(end, s, k) := x][x := At(end, s, k - 1)];
    forall i | 0 <= i < |r|
      ensures r[i] in p && p[r[i]] == At(end, r, i - 1)
    {
      if i != k {
        var o := if i < k then i else i - 1;
        AtInRing(end, s, o);
        assert r[i] == s[o] && previous[s[o]] == At(end, s, o - 1);
      }
    }
  }

  /** Leading the pointers of two neighbours through `x` inserts it between them. */
  lemma ChainAfterInsertion<T>(end: T, s: seq<T>, k: nat, x: T, next: map<T, T>, previous: map<T, T>)
    requires Chain(end, s, next, previous) && k <= |s| && x !in Ring(end, s)
    ensures Chain(end, InsertAt(s, k, x),
                  next[At(end, s, k - 1) := x][x := At(end, s, k)],
                  previous[At(end, s, k) := x][x := At(end, s, k - 1)])
  {
    InsertAtPlaces(end, s, k, x);
    ForwardAfterInsertion(end, s, k, x, next);
    BackwardAfterInsertion(end, s, k, x, previous);
  }

  lemma ForwardAfterRemoval<T>(end: T, s: seq<T>, k: nat, next: map<T, T>)
    requires NoDuplicates(s) && end !in s && Forward(end, s, next) && k < |s|
    ensures Forward(end, DropAt(s, k), next[At(end, s, k - 1) := At(end, s, k + 1)] - {s[k]})
  {
    hide Ring;
    DropAtPlaces(end, s, k);
    AtInRing(end, s, k - 1);
    var r, n := DropAt(s, k), next[At(end, s, k - 1) := At(end, s, k + 1)] - {s[k]};
    forall i | 0 <= i < |r|
      ensures r[i] in n && n[r[i]] == At(end, r, i + 1)
    {
      var o := if i < k then i else i + 1;
      AtInRing(end, s, o);
      assert r[i] == s[o] && next[s[o]] == At(end, s, o + 1);
    }
  }

  lemma BackwardAfterRemoval<T>(end: T, s: seq<T>, k: nat, previous: map<T, T>)
    requires NoDuplicates(s) && end !in s && Backward(end, s, previous) && k < |s|
    ensures Backward(end, DropAt(s, k), previous[At(end, s, k + 1) := At(end, s, k - 1)] - {s[k]})
  {
    hide Ring;
    DropAtPlaces(end, s, k);
    AtInRing(end, s, k + 1);
    var r, p := DropAt(s, k), previous[At(end, s, k + 1) := At(end, s, k - 1)] - {s[k]};
    forall i | 0 <= i < |r|
      ensures r[i] in p && p[r[i]] == At(end, r, i - 1)
    {
      var o := if i < k then i else i + 1;
      AtInRing(end, s, o);
      assert r[i] == s[o] && previous[s[o]] == At(end, s, o - 1);
    }
  }

  /** Leading the pointers of an element's neighbours past it takes it out. */
  lemma ChainAfterRemoval<T>(end: T, s: seq<T>, k: nat, next: map<T, T>, previous: map<T, T>)
    requires Chain(end, s, next, previous) && k < |s|
    ensures Chain(end, DropAt(s, k),
                  next[At(end, s, k - 1) := At(end, s, k + 1)] - {s[k]},
                  previous[At(end, s, k + 1) := At(end, s, k - 1)] - {s[k]})
  {
    DropAtPlaces(end, s, k);
    ForwardAfterRemoval(end, s, k, next);
    BackwardAfterRemoval(end, s, k, previous);
  }

  /** The order in which listGET_OWNER_OF_NEXT_ENTRY serves the elements when the index is
      at place `k`; the place behind the last element stands for the marker. */
  ghost function Rotation<T>(s: seq<T>, k: nat): (r: seq<T>)
    requires k <= |s|
  {
    if k == |s| then s else s[k + 1..] + s[..k + 1]
  }

  ghost function NextPlace(n: nat, k: nat): (next: nat) {
    if k + 1 < n then k + 1 else 0
  }

  /** Where the index is after `m` servings. */
  ghost function PlaceAfter(n: nat, k: nat, m: nat): (place: nat)
    requires 0 < n && k <= n
    ensures place <= n
  {
    if m == 0 then k else NextPlace(n, PlaceAfter(n, k, m - 1))
  }

  /** Round robin: the first |s| servings go through the rotation, which holds each
      element once. */
  lemma ServedInRotation<T>(s: seq<T>, k: nat, m: nat)
    requires 0 < |s| && k <= |s| && 1 <= m <= |s|
    ensures |Rotation(s, k)| == |s| && multiset(Rotation(s, k)) == multiset(s)
    ensures PlaceAfter(|s|, k, m) < |s| && s[PlaceAfter(|s|, k, m)] == Rotation(s, k)[m - 1]
  {
    PlaceIs(|s|, k, m);
    if k < |s| {
      assert s == s[..k + 1] + s[k + 1..];
    }
  }

  lemma {:induction false} PlaceIs(n: nat, k: nat, m: nat)
    requires 0 < n && k <= n && 1 <= m <= n
    ensures PlaceAfter(n, k, m) == if k == n then m - 1 else if k + m < n then k + m else k + m - n
  {
    if m > 1 {
      PlaceIs(n, k, m - 1);
    } else {
      assert PlaceAfter(n, k, 0) == k;
    }
  }

  /** An element inserted in front of the index waits for every other element, except the
      one that was served last. */
  lemma InsertedServedLast<T>(s: seq<T>, k: nat, x: T)
    requires k <= |s|
    ensures var r := Rotation(s, k);
      if k == |s| then Rotation(InsertAt(s, k, x), k + 1) == r + [x]
      else r != [] && Rotation(InsertAt(s, k, x), k + 1) == r[..|r| - 1] + [x, r[|r| - 1]]
  {
    var now := InsertAt(s, k, x);
    if k < |s| {
      var r := s[k + 1..] + s[..k + 1];
      assert now[k + 2..] == s[k + 1..] && now[..k + 2] == s[..k] + [x, s[k]];
      assert r[..|r| - 1] == s[k + 1..] + s[..k];
      if k + 1 == |now| - 1 {
        assert s[k + 1..] == [] && now == s[..k] + [x, s[k]];
      }
    } else {
      assert now == s + [x];
    }
  }

  /** When the element at place `j` is next served. */
  ghost function TurnOf(n: nat, k: nat, j: nat): (turn: nat)
    requires j < n && k <= n
    ensures turn < n
  {
    if k == n then j else if j <= k then n - 1 - k + j else j - k - 1
  }

  /** uxListRemove moves an index at the removed element back to the element before it. */
  ghost function IndexAfterRemoval(n: nat, k: nat, j: nat): (place: nat)
    requires j < n && k <= n
    ensures place < n
  {
    if k == j then (if j == 0 then n - 1 else j - 1) else if k > j then k - 1 else k
  }

  /** Taking an element out leaves the others in their order of service. */
  lemma RemovalKeepsRotation<T>(s: seq<T>, k: nat, j: nat)
    requires j < |s| && k <= |s|
    ensures Rotation(s, k)[TurnOf(|s|, k, j)] == s[j]
    ensures Rotation(DropAt(s, j), IndexAfterRemoval(|s|, k, j)) == DropAt(Rotation(s, k), TurnOf(|s|, k, j))
  {
    if k < |s| {
      if j <= k {
        RemovalBeforeIndex(s, k, j);
      } else {
        RemovalBehindIndex(s, k, j);
      }
    }
  }

  lemma RemovalBeforeIndex<T>(s: seq<T>, k: nat, j: nat)
    requires j <= k < |s|
    ensures Rotation(DropAt(s, j), IndexAfterRemoval(|s|, k, j)) == DropAt(s[k + 1..] + s[..k + 1], |s| - 1 - k + j)
  {
    var d := DropAt(s, j);
    assert d[k..] == s[k + 1..] && d[..k] == s[..j] + s[j + 1..k + 1];
    assert s[..k + 1][..j] == s[..j] && s[..k + 1][j + 1..] == s[j + 1..k + 1];
    DropInSecond(s[k + 1..], s[..k + 1], j);
    if k == 0 {
      assert d == d[k..] + d[..k];
    } else {
      assert Rotation(d, k - 1) == d[k..] + d[..k];
    }
  }

  lemma DropInSecond<T>(a: seq<T>, b: seq<T>, j: nat)
    requires j < |b|
    ensures DropAt(a + b, |a| + j) == a + (b[..j] + b[j + 1..])
  {
  }

  lemma RemovalBehindIndex<T>(s: seq<T>, k: nat, j: nat)
    requires k < j < |s|
    ensures Rotation(DropAt(s, j), k) == DropAt(s[k + 1..] + s[..k + 1], j - k - 1)
  {
    var first, rest, i := s[..k + 1], s[k + 1..], j - k - 1;
    assert s == first + rest;
    DropInSecond(first, rest, i);
    DropInFirst(rest, first, i);
    RotationSplits(first, rest[..i] + rest[i + 1..]);
  }

  lemma RotationSplits<T>(a: seq<T>, b: seq<T>)
    requires a != []
    ensures Rotation(a + b, |a| - 1) == b + a
  {
    assert (a + b)[|a|..] == b && (a + b)[..|a|] == a;
  }

  lemma DropInFirst<T>(a: seq<T>, b: seq<T>, j: nat)
    requires j < |a|
    ensures DropAt(a + b, j) == a[..j] + a[j + 1..] + b
  {
  }
}
