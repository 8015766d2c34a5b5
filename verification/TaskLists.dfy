/** Task handles linked into a family of lists, each handle into at most one of them.

    This is how tasks.c sees its lists: a TCB holds one item for its state and one for
    events, and each item records its container. What the pointers of one list do is
    proved in IntrusiveList; here a list is the sequence it represents. */
module TaskLists {
  import opened SortedInsertion
  import opened RingLinks

  type Task = nat

  ghost function Keys(s: seq<Task>, key: map<Task, nat>): (r: seq<nat>)
    requires forall t :: t in s ==> t in key
  {
    seq(|s|, i requires 0 <= i < |s| => key[s[i]])
  }

  ghost predicate SortedBy(s: seq<Task>, key: map<Task, nat>) {
    && (forall t :: t in s ==> t in key)
    && forall i, j :: 0 <= i < j < |s| ==> key[s[i]] <= key[s[j]]
  }

  /** The place vListInsert finds for a task, scanning for the first larger key. */
  function PlaceFor(s: seq<Task>, key: map<Task, nat>, v: nat): (k: nat)
    requires forall t :: t in s ==> t in key
    ensures k <= |s|
    ensures k == InsertPosition(Keys(s, key), v)
  {
    if s == [] || key[s[0]] > v then
      0
    else
      assert Keys(s, key)[1..] == Keys(s[1..], key);
      1 + PlaceFor(s[1..], key, v)
  }

  function PlaceOf(s: seq<Task>, t: Task): (k: nat)
    requires t in s
    ensures k < |s| && s[k] == t
  {
    if s[0] == t then 0 else 1 + PlaceOf(s[1..], t)
  }

  function Without(s: seq<Task>, t: Task): (r: seq<Task>)
    requires t in s
    ensures |r| == |s| - 1
  {
    var k := PlaceOf(s, t);
    s[..k] + s[k + 1..]
  }

  lemma WithoutKeeps(s: seq<Task>, t: Task)
    requires t in s && NoDuplicates(s)
    ensures NoDuplicates(Without(s, t))
    ensures forall x :: x in Without(s, t) <==> x in s && x != t
  {
    var k := PlaceOf(s, t);
    var r := Without(s, t);
    assert forall i :: 0 <= i < |r| ==> r[i] == s[if i < k then i else i + 1];
    assert forall i :: 0 <= i < |s| && i != k ==> s[i] == r[if i < k then i else i - 1];
  }

  lemma WithoutKeepsSortedBy(s: seq<Task>, t: Task, key: map<Task, nat>)
    requires t in s && SortedBy(s, key)
    ensures SortedBy(Without(s, t), key)
  {
    var k := PlaceOf(s, t);
    var r := Without(s, t);
    assert forall i :: 0 <= i < |r| ==> r[i] == s[if i < k then i else i + 1];
  }

  ghost function Elements(s: seq<Task>): (r: set<Task>) {
    set t | t in s
  }

  lemma {:induction false} AsManyElements(s: seq<Task>)
    requires NoDuplicates(s)
    ensures |Elements(s)| == |s|
  {
    if s != [] {
      AsManyElements(s[1..]);
      assert s[0] !in s[1..];
      assert Elements(s) == Elements(s[1..]) + {s[0]};
    }
  }

  lemma InsertKeeps(s: seq<Task>, k: nat, t: Task)
    requires k <= |s| && t !in s && NoDuplicates(s)
    ensures NoDuplicates(InsertAt(s, k, t))
    ensures forall x :: x in InsertAt(s, k, t) <==> x in s || x == t
  {
    var r := InsertAt(s, k, t);
    assert forall i :: 0 <= i < |r| ==> r[i] == if i < k then s[i] else if i == k then t else s[i - 1];
    assert forall i :: 0 <= i < |s| ==> s[i] == r[if i < k then i else i + 1];
    assert r[k] == t;
  }

  lemma InsertKeepsSortedBy(s: seq<Task>, t: Task, key: map<Task, nat>)
    requires SortedBy(s, key) && t in key
    ensures SortedBy(InsertAt(s, PlaceFor(s, key, key[t]), t), key)
  {
    var k, values := PlaceFor(s, key, key[t]), Keys(s, key);
    InsertKeepsSorted(values, key[t]);
    InsertedIs(s, k, t);
    InsertedIs(values, k, key[t]);
    var r, sorted := InsertAt(s, k, t), InsertAt(values, k, key[t]);
    forall i | 0 <= i < |r|
      ensures r[i] in key && key[r[i]] == sorted[i]
    {
      assert r[i] == Inserted(s, k, t, i) && sorted[i] == Inserted(values, k, key[t], i);
    }
  }

  datatype Lists<L(==,!new)> = Lists(items: map<L, seq<Task>>, container: map<Task, L>, index: map<L, nat>) {
    function Of(l: L): (s: seq<Task>) {
      if l in items then items[l] else []
    }

    /** The place behind the item pxIndex points to; zero when it points to the marker. */
    function Index(l: L): (i: nat) {
      if l in index then index[l] else 0
    }

    /** Every handle is in exactly the list its item records, once. */
    ghost predicate Linked() {
      && (forall l :: NoDuplicates(Of(l)))
      && (forall l, t :: t in Of(l) <==> t in container && container[t] == l)
      && (forall l :: Index(l) <= |Of(l)|)
    }

    /** uxListRemove, on the list the item records. */
    function Remove(t: Task): (r: Lists<L>)
      requires t in container && t in Of(container[t])
    {
      var l := container[t];
      var place := PlaceOf(Of(l), t);
      Lists(items[l := Without(Of(l), t)], container - {t},
            index[l := if place < Index(l) then Index(l) - 1 else Index(l)])
    }

    function InsertPlace(l: L, k: nat, t: Task): (r: Lists<L>)
      requires k <= |Of(l)|
    {
      Lists(items[l := InsertAt(Of(l), k, t)], container[t := l],
            index[l := if k < Index(l) then Index(l) + 1 else Index(l)])
    }

    /** Where vListInsertEnd puts an item: in front of the one pxIndex points to. */
    function EndPlace(l: L): (k: nat)
      ensures k <= |Of(l)|
    {
      if 0 < Index(l) <= |Of(l)| then Index(l) - 1 else |Of(l)|
    }

    /** vListInsertEnd. */
    function InsertEnd(l: L, t: Task): (r: Lists<L>) {
      InsertPlace(l, EndPlace(l), t)
    }

    /** The place listGET_OWNER_OF_NEXT_ENTRY moves pxIndex to. */
    function NextPlace(l: L): (k: nat)
      requires Of(l) != []
      ensures k < |Of(l)|
    {
      if Index(l) < |Of(l)| then Index(l) else 0
    }

    /** listGET_OWNER_OF_NEXT_ENTRY, but for the owner it returns. */
    function Served(l: L): (r: Lists<L>)
      requires Of(l) != []
      ensures r.items == items && r.container == container
    {
      this.(index := index[l := NextPlace(l) + 1])
    }

    /** Serving moves nothing but the index. */
    lemma ServedLinked(l: L)
      requires Linked() && Of(l) != []
      ensures Served(l).Linked() && forall m :: Served(l).Of(m) == Of(m)
    {
      var r := Served(l);
      forall m
        ensures r.Of(m) == Of(m) && r.Index(m) <= |Of(m)|
      {
      }
    }

    /** `m` servings in a row reach the m-th element of the rotation. */
    function ServedTimes(l: L, m: nat): (r: Lists<L>)
      requires Of(l) != []
      ensures r.items == items && r.container == container
    {
      if m == 0 then this else ServedTimes(l, m - 1).Served(l)
    }

    ghost function IndexPlace(l: L): (k: nat)
      requires Linked()
      ensures k <= |Of(l)|
    {
      if Index(l) == 0 then |Of(l)| else Index(l) - 1
    }

    /** Each of |Of(l)| servings in a row reaches another element. */
    lemma {:induction false} ServedPlace(l: L, m: nat)
      requires Linked() && Of(l) != [] && m > 0
      ensures ServedTimes(l, m - 1).NextPlace(l) == PlaceAfter(|Of(l)|, IndexPlace(l), m)
    {
      if m > 1 {
        ServedPlace(l, m - 1);
      } else {
        assert PlaceAfter(|Of(l)|, IndexPlace(l), 0) == IndexPlace(l);
      }
    }

    /** vListInsert, with the item values given by `key`. */
    function Insert(l: L, t: Task, key: map<Task, nat>): (r: Lists<L>)
      requires t in key && forall x :: x in Of(l) ==> x in key
    {
      InsertPlace(l, PlaceFor(Of(l), key, key[t]), t)
    }

    lemma RemoveIs(t: Task)
      requires t in container && t in Of(container[t]) && forall l :: Index(l) <= |Of(l)|
      ensures Remove(t).container == container - {t}
      ensures forall l :: Remove(t).Of(l) == if l == container[t] then Without(Of(l), t) else Of(l)
      ensures forall l :: Remove(t).Index(l) <= |Remove(t).Of(l)|
    {
      var r := Remove(t);
      forall l
        ensures r.Of(l) == if l == container[t] then Without(Of(l), t) else Of(l)
        ensures r.Index(l) <= |r.Of(l)|
      {
      }
    }

    lemma RemoveLinked(t: Task)
      requires Linked() && t in container
      ensures t in Of(container[t]) && Remove(t).Linked()
      ensures forall l :: Remove(t).Of(l) == if l == container[t] then Without(Of(l), t) else Of(l)
    {
      hide Remove, Without, NoDuplicates;
      assert t in Of(container[t]);
      WithoutKeeps(Of(container[t]), t);
      RemoveIs(t);
    }

    lemma InsertIs(l: L, k: nat, t: Task)
      requires k <= |Of(l)| && forall m :: Index(m) <= |Of(m)|
      ensures InsertPlace(l, k, t).container == container[t := l]
      ensures forall m :: InsertPlace(l, k, t).Of(m) == if m == l then InsertAt(Of(l), k, t) else Of(m)
      ensures forall m :: InsertPlace(l, k, t).Index(m) <= |InsertPlace(l, k, t).Of(m)|
    {
      var r := InsertPlace(l, k, t);
      forall m
        ensures r.Of(m) == if m == l then InsertAt(Of(l), k, t) else Of(m)
        ensures r.Index(m) <= |r.Of(m)|
      {
      }
    }

    lemma InsertLinked(l: L, k: nat, t: Task)
      requires Linked() && t !in container && k <= |Of(l)|
      ensures InsertPlace(l, k, t).Linked()
      ensures forall m :: InsertPlace(l, k, t).Of(m) == if m == l then InsertAt(Of(l), k, t) else Of(m)
    {
      hide InsertPlace, NoDuplicates;
      InsertKeeps(Of(l), k, t);
      InsertIs(l, k, t);
    }

    ghost function TotalLength(labels: seq<L>): (n: nat) {
      if labels == [] then 0 else |Of(labels[0])| + TotalLength(labels[1..])
    }

    ghost function In(labels: seq<L>): (r: set<Task>) {
      set t | t in container && container[t] in labels
    }

    /** The lengths of some lists add up to the number of handles in them. */
    lemma {:induction false} LengthsAddUp(labels: seq<L>)
      requires Linked() && NoDuplicates(labels)
      ensures TotalLength(labels) == |In(labels)|
    {
      if labels != [] {
        var l, rest := labels[0], labels[1..];
        LengthsAddUp(rest);
        AsManyElements(Of(l));
        assert l !in rest;
        assert In(labels) == Elements(Of(l)) + In(rest);
        assert Elements(Of(l)) * In(rest) == {};
      }
    }

    lemma EmptyUnlessContained(l: L)
      requires Linked()
      ensures (forall t :: t in container ==> container[t] != l) ==> Of(l) == []
    {
      if Of(l) != [] {
        var t := Of(l)[0];
        assert t in Of(l) && t in container && container[t] == l;
      }
    }

    /** Moving a handle to the end of a list takes it from where it is, and only from there. */
    lemma MoveLinked(t: Task, l: L)
      requires Linked() && t in container
      ensures t in Of(container[t])
      ensures var r := Remove(t).InsertEnd(l, t);
        && r.Linked() && r.container == container[t := l]
        && (forall m :: |r.Of(m)| == |Of(m)| + (if m == l then 1 else 0) - (if m == container[t] then 1 else 0))
    {
      RemoveLinked(t);
      var d := Remove(t);
      d.InsertLinked(l, d.EndPlace(l), t);
      assert (container - {t})[t := l] == container[t := l];
    }

    lemma MoveKeepsSorted(t: Task, l: L, m: L, key: map<Task, nat>)
      requires Linked() && t in container && m != l && SortedBy(Of(m), key)
      ensures t in Of(container[t]) && SortedBy(Remove(t).InsertEnd(l, t).Of(m), key)
    {
      RemoveLinked(t);
      if m == container[t] {
        WithoutKeepsSortedBy(Of(m), t, key);
      }
    }

    lemma ContainedWhere(t: Task, l: L)
      requires Linked() && t in container
      ensures Remove(t).container == container - {t} && (t in Of(l) <==> container[t] == l)
      ensures t in Of(container[t])
    {
      assert t in Of(container[t]);
    }

    /** Moving a handle to its place in a sorted list, under a new key, keeps the list sorted. */
    lemma InsertMoveLinked(t: Task, l: L, key: map<Task, nat>, v: nat)
      requires Linked() && t in container && container[t] != l && SortedBy(Of(l), key)
      ensures t in Of(container[t]) && forall x :: x in Remove(t).Of(l) ==> x in key[t := v]
      ensures var r := Remove(t).Insert(l, t, key[t := v]);
        && r.Linked() && r.container == container[t := l]
        && SortedBy(r.Of(l), key[t := v])
        && (forall m :: |r.Of(m)| == |Of(m)| + (if m == l then 1 else 0) - (if m == container[t] then 1 else 0))
    {
      hide Without, NoDuplicates, PlaceFor, PlaceOf, Linked, Remove;
      RemoveLinked(t);
      ContainedWhere(t, l);
      var d, k := Remove(t), key[t := v];
      assert d.Of(l) == Of(l) && t !in Of(l);
      InsertKeepsSortedBy(Of(l), t, k);
      d.InsertLinked(l, PlaceFor(d.Of(l), k, v), t);
      assert (container - {t})[t := l] == container[t := l];
    }

    lemma InsertMoveKeepsSorted(t: Task, l: L, m: L, key: map<Task, nat>, v: nat)
      requires Linked() && t in container && container[t] != l && m != l && m != container[t]
      requires SortedBy(Of(l), key) && SortedBy(Of(m), key)
      ensures t in Of(container[t]) && forall x :: x in Remove(t).Of(l) ==> x in key[t := v]
      ensures SortedBy(Remove(t).Insert(l, t, key[t := v]).Of(m), key[t := v])
    {
      InsertMoveLinked(t, l, key, v);
      RemoveLinked(t);
      assert t !in Of(m);
    }
  }

  /** The m-th of as many servings in a row as there are items. */
  lemma OneTurn<L(!new)>(lists: Lists<L>, l: L, m: nat)
    requires lists.Linked() && 1 <= m <= |lists.Of(l)|
    ensures |Rotation(lists.Of(l), lists.IndexPlace(l))| == |lists.Of(l)|
    ensures lists.ServedTimes(l, m) == lists.ServedTimes(l, m - 1).Served(l) && lists.ServedTimes(l, 0) == lists
    ensures lists.ServedTimes(l, m - 1).Of(l) == lists.Of(l)
    ensures lists.Of(l)[lists.ServedTimes(l, m - 1).NextPlace(l)] == Rotation(lists.Of(l), lists.IndexPlace(l))[m - 1]
  {
    lists.ServedPlace(l, m);
    ServedInRotation(lists.Of(l), lists.IndexPlace(l), m);
  }

  lemma AllTurns<L(!new)>(lists: Lists<L>, l: L)
    requires lists.Linked() && lists.Of(l) != []
    ensures var r := Rotation(lists.Of(l), lists.IndexPlace(l));
      r[..|lists.Of(l)|] == r && multiset(r) == multiset(lists.Of(l))
  {
    ServedInRotation(lists.Of(l), lists.IndexPlace(l), |lists.Of(l)|);
  }
}
