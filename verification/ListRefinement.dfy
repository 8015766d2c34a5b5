/** A list on the heap computes what the kernel model says of one list of its family.

    IntrusiveList proves the pointers of list.c; TaskLists describes the lists of tasks.c
    and timers.c as sequences of owners. Here the two are tied together: `owner` is what
    the pvOwner fields say, and each operation on the heap takes a list that shows
    `lists.Of(l)` and `lists.Index(l)` to one that shows the list after the operation of
    `Lists` of the same name. */
module ListRefinement {
  import opened IntrusiveList
  import opened RingLinks
  import opened SortedInsertion
  import T = TaskLists

  ghost function Owners<Item>(items: seq<Item>, owner: map<Item, T.Task>): (s: seq<T.Task>)
    requires forall x :: x in items ==> x in owner
    ensures |s| == |items| && forall i :: 0 <= i < |s| ==> s[i] == owner[items[i]]
  {
    seq(|items|, i requires 0 <= i < |items| => owner[items[i]])
  }

  /** No owner has two items in the list. */
  ghost predicate Injective<Item>(items: seq<Item>, owner: map<Item, T.Task>) {
    && (forall x :: x in items ==> x in owner)
    && forall i, j :: 0 <= i < j < |items| ==> owner[items[i]] != owner[items[j]]
  }

  /** The items of a ring are those of the list `l`, and pxIndex points to the item its
      index tells. */
  ghost predicate Shows<Item, L(!new)>(end: Item, items: seq<Item>, index: Item, owner: map<Item, T.Task>,
                                       lists: T.Lists<L>, l: L) {
    && NoDuplicates(items) && end !in items && Injective(items, owner)
    && lists.Of(l) == Owners(items, owner)
    && lists.Index(l) <= |items| && index == At(end, items, lists.Index(l) - 1)
  }

  /** A place of the ring is known by the item at it. */
  lemma SamePlace<Item>(end: Item, items: seq<Item>, i: int, j: int)
    requires NoDuplicates(items) && end !in items && At(end, items, i) == At(end, items, j)
    ensures 0 <= i < |items| || 0 <= j < |items| ==> i == j
  {
    if 0 <= i < |items| {
      assert items[i] == At(end, items, i) && items[i] in items;
    }
    if 0 <= j < |items| {
      assert items[j] == At(end, items, j) && items[j] in items;
    }
  }

  lemma OwnersWith<Item>(items: seq<Item>, owner: map<Item, T.Task>, k: nat, item: Item)
    requires Injective(items, owner) && k <= |items| && item in owner && owner[item] !in Owners(items, owner)
    ensures Injective(InsertAt(items, k, item), owner)
    ensures Owners(InsertAt(items, k, item), owner) == InsertAt(Owners(items, owner), k, owner[item])
  {
    var s, now := Owners(items, owner), InsertAt(items, k, item);
    forall i | 0 <= i < |items|
      ensures owner[items[i]] != owner[item]
    {
      assert s[i] == owner[items[i]];
    }
    assert forall i :: 0 <= i < |now| ==> now[i] == if i < k then items[i] else if i == k then item else items[i - 1];
  }

  lemma InsertShown<Item, L(!new)>(end: Item, items: seq<Item>, index: Item, owner: map<Item, T.Task>,
                                   lists: T.Lists<L>, l: L,
                             item: Item, k: nat)
    requires Shows(end, items, index, owner, lists, l) && k <= |items|
    requires item in owner && item != end && item !in items && owner[item] !in Owners(items, owner)
    ensures Shows(end, InsertAt(items, k, item), index, owner, lists.InsertPlace(l, k, owner[item]), l)
  {
    hide Owners, Injective, NoDuplicates;
    InsertAtPlaces(end, items, k, item);
    OwnersWith(items, owner, k, item);
  }

  /** vListInsertEnd finds the place in front of pxIndex. */
  lemma EndPlaceShown<Item, L(!new)>(end: Item, items: seq<Item>, index: Item, owner: map<Item, T.Task>,
                                     lists: T.Lists<L>, l: L, k: nat)
    requires Shows(end, items, index, owner, lists, l) && k <= |items| && index == At(end, items, k)
    ensures k == lists.EndPlace(l)
  {
    SamePlace(end, items, k, lists.Index(l) - 1);
  }

  lemma OwnersWithout<Item>(items: seq<Item>, owner: map<Item, T.Task>, k: nat)
    requires Injective(items, owner) && k < |items|
    ensures var s, t := Owners(items, owner), owner[items[k]];
      t in s && T.PlaceOf(s, t) == k && Injective(DropAt(items, k), owner)
        && T.Without(s, t) == Owners(DropAt(items, k), owner)
  {
    var s, t, now := Owners(items, owner), owner[items[k]], DropAt(items, k);
    assert s[k] == t;
    assert forall i :: 0 <= i < |now| ==> now[i] == items[if i < k then i else i + 1];
    assert T.PlaceOf(s, t) == k;
  }

  lemma IndexWithout<Item>(end: Item, items: seq<Item>, index: Item, k: nat, i: nat)
    requires NoDuplicates(items) && end !in items && k < |items| && i <= |items| && index == At(end, items, i - 1)
    ensures NoDuplicates(DropAt(items, k)) && end !in DropAt(items, k)
    ensures (if index == items[k] then At(end, items, k - 1) else index)
      == At(end, DropAt(items, k), (if k < i then i - 1 else i) - 1)
  {
    DropAtPlaces(end, items, k);
    if index == items[k] {
      SamePlace(end, items, k, i - 1);
    }
  }

  lemma RemoveShown<Item, L(!new)>(end: Item, items: seq<Item>, index: Item, owner: map<Item, T.Task>,
                                   lists: T.Lists<L>, l: L, k: nat)
    requires Shows(end, items, index, owner, lists, l) && k < |items|
    requires var t := owner[items[k]]; t in lists.container && lists.container[t] == l
    ensures owner[items[k]] in lists.Of(l)
    ensures Shows(end, DropAt(items, k), if index == items[k] then At(end, items, k - 1) else index, owner,
                  lists.Remove(owner[items[k]]), l)
  {
    hide T.Without, Owners, Injective, NoDuplicates;
    OwnersWithout(items, owner, k);
    IndexWithout(end, items, index, k, lists.Index(l));
  }

  /** listGET_OWNER_OF_NEXT_ENTRY returns the owner the kernel model serves next. */
  lemma ServedShown<Item, L(!new)>(end: Item, items: seq<Item>, index: Item, owner: map<Item, T.Task>,
                                   lists: T.Lists<L>, l: L, k: nat)
    requires Shows(end, items, index, owner, lists, l) && items != [] && k <= |items| && index == At(end, items, k)
    ensures (if k < |items| - 1 then k + 1 else 0) == lists.NextPlace(l)
    ensures Shows(end, items, items[lists.NextPlace(l)], owner, lists.Served(l), l)
    ensures owner[items[lists.NextPlace(l)]] == lists.Of(l)[lists.NextPlace(l)]
  {
    SamePlace(end, items, k, lists.Index(l) - 1);
  }

  ghost predicate Represents<L(!new)>(list: List, owner: map<ListItem, T.Task>, lists: T.Lists<L>, l: L)
    reads list, list.Members()
  {
    list.Valid() && Shows(list.listEnd, list.Items, list.index, owner, lists, l)
  }

  /** A new item: its owner has none in the list. */
  ghost predicate Newcomer(list: List, owner: map<ListItem, T.Task>, item: ListItem)
    reads list
    requires forall x :: x in list.Items ==> x in owner
  {
    item !in list.nextOf && item in owner && owner[item] !in Owners(list.Items, owner)
  }

  lemma MembersAre(list: List)
    requires list.Valid()
    ensures list.Members() == Ring<ListItem>(list.listEnd, list.Items)
    ensures NoDuplicates(list.Items) && list.listEnd !in list.Items && list.nextOf.Keys == list.Members()
  {
  }

  lemma MembersWith(list: List, items: seq<ListItem>, k: nat, item: ListItem)
    requires list.Valid() && k <= |items| && list.Items == InsertAt(items, k, item)
    requires NoDuplicates(items) && list.listEnd !in items && item !in Ring<ListItem>(list.listEnd, items)
    ensures list.Members() == Ring<ListItem>(list.listEnd, items) + {item}
  {
    MembersAre(list);
    InsertAtPlaces<ListItem>(list.listEnd, items, k, item);
  }

  lemma MembersWithout(list: List, items: seq<ListItem>, k: nat)
    requires list.Valid() && k < |items| && list.Items == DropAt(items, k)
    requires NoDuplicates(items) && list.listEnd !in items
    ensures list.Members() == Ring<ListItem>(list.listEnd, items) - {items[k]}
  {
    MembersAre(list);
    DropAtPlaces<ListItem>(list.listEnd, items, k);
  }

  method InsertEnd<L(!new)>(list: List, item: ListItem, ghost owner: map<ListItem, T.Task>, ghost lists: T.Lists<L>,
                            ghost l: L)
    requires Represents(list, owner, lists, l) && Newcomer(list, owner, item)
    modifies list`numberOfItems, list`Items, list`nextOf, list`previousOf
    modifies item`next, item`previous, item`container, list.Members()`next, list.Members()`previous
    ensures Represents(list, owner, lists.InsertEnd(l, owner[item]), l)
    ensures list.Members() == old(list.Members()) + {item}
  {
    hide Shows, Wired, Chain;
    ghost var items, index := list.Items, list.index;
    MembersAre(list);
    ghost var k := list.InsertEnd(item);
    MembersWith(list, items, k, item);
    EndPlaceShown(list.listEnd, items, index, owner, lists, l, k);
    InsertShown(list.listEnd, items, index, owner, lists, l, item, k);
  }

  /** The item values of a list are the keys of its owners. */
  ghost predicate Keyed(list: List, owner: map<ListItem, T.Task>, key: map<T.Task, nat>)
    reads list, list.Items
  {
    forall x :: x in list.Items ==> x in owner && owner[x] in key && key[owner[x]] == x.itemValue
  }

  method Insert<L(!new)>(list: List, item: ListItem, ghost owner: map<ListItem, T.Task>, ghost lists: T.Lists<L>,
                         ghost l: L,
                   ghost key: map<T.Task, nat>)
    requires Represents(list, owner, lists, l) && Newcomer(list, owner, item)
    requires Keyed(list, owner, key) && owner[item] in key && key[owner[item]] == item.itemValue
    modifies list`numberOfItems, list`Items, list`nextOf, list`previousOf
    modifies item`next, item`previous, item`container, list.Members()`next, list.Members()`previous
    ensures forall t :: t in lists.Of(l) ==> t in key
    ensures Represents(list, owner, lists.Insert(l, owner[item], key), l)
    ensures list.Members() == old(list.Members()) + {item}
  {
    hide Shows, Wired, Chain;
    ghost var items, index := list.Items, list.index;
    KeysAreValues(list, owner, lists, l, key);
    MembersAre(list);
    ghost var k := list.Insert(item);
    MembersWith(list, items, k, item);
    InsertShown(list.listEnd, items, index, owner, lists, l, item, k);
  }

  lemma KeysAreValues<L(!new)>(list: List, owner: map<ListItem, T.Task>, lists: T.Lists<L>, l: L, key: map<T.Task, nat>)
    requires Represents(list, owner, lists, l) && Keyed(list, owner, key)
    ensures forall t :: t in lists.Of(l) ==> t in key
    ensures T.Keys(lists.Of(l), key) == ItemValues(list.Items)
  {
  }

  method Remove<L(!new)>(list: List, item: ListItem, ghost owner: map<ListItem, T.Task>, ghost lists: T.Lists<L>,
                         ghost l: L)
    requires Represents(list, owner, lists, l) && item.container == list && item in list.Items && item in owner
    requires owner[item] in lists.container && lists.container[owner[item]] == l
    modifies list, item`container, list.Members()`next, list.Members()`previous
    ensures owner[item] in lists.Of(l) && Represents(list, owner, lists.Remove(owner[item]), l)
    ensures list.Members() == old(list.Members()) - {item}
  {
    hide Shows, Wired, Chain;
    ghost var items, index := list.Items, list.index;
    MembersAre(list);
    var remaining, k := IntrusiveList.Remove(item);
    MembersWithout(list, items, k);
    RemoveShown(list.listEnd, items, index, owner, lists, l, k);
  }

  method NextEntry<L(!new)>(list: List, ghost owner: map<ListItem, T.Task>, ghost lists: T.Lists<L>, ghost l: L)
    returns (item: ListItem)
    requires Represents(list, owner, lists, l) && lists.Of(l) != []
    modifies list`index
    ensures Represents(list, owner, lists.Served(l), l)
    ensures item in owner && owner[item] == lists.Of(l)[lists.NextPlace(l)]
  {
    ghost var index := list.index;
    ghost var k;
    item, k := list.NextEntry();
    ServedShown(list.listEnd, list.Items, index, owner, lists, l, k);
  }

  /** The heap of a whole family of lists: no item is in two of them. */
  ghost predicate Apart<L(!new)>(heap: map<L, List>)
    reads heap.Values
  {
    forall l, m :: l in heap && m in heap && l != m ==> heap[l] != heap[m] && heap[l].Members() !! heap[m].Members()
  }

  /** Every list of the heap shows its list of the family, and each owner is in one. */
  ghost predicate Family<L(!new)>(heap: map<L, List>, owner: map<ListItem, T.Task>, lists: T.Lists<L>)
    reads heap.Values, set l, x | l in heap && x in heap[l].Members() :: x
  {
    lists.Linked() && Apart(heap) && forall l :: l in heap ==> Represents(heap[l], owner, lists, l)
  }

  /** The item is in no list of the heap, and its owner in none of the family. */
  ghost predicate Outsider<L(!new)>(heap: map<L, List>, owner: map<ListItem, T.Task>, lists: T.Lists<L>, item: ListItem)
    reads heap.Values
  {
    item in owner && owner[item] !in lists.container && forall l :: l in heap ==> item !in heap[l].Members()
  }

  /** What is said of one list does not depend on the others. */
  ghost predicate SameElsewhere<L(!new)>(lists: T.Lists<L>, after: T.Lists<L>, l: L) {
    forall m :: m != l ==> after.Of(m) == lists.Of(m) && after.Index(m) == lists.Index(m)
  }

  lemma ShowsStill<L(!new)>(list: List, owner: map<ListItem, T.Task>, lists: T.Lists<L>, after: T.Lists<L>, l: L, m: L)
    requires Represents(list, owner, lists, m) && m != l && SameElsewhere(lists, after, l)
    ensures Represents(list, owner, after, m)
  {
  }

  lemma InsertedElsewhere<L(!new)>(lists: T.Lists<L>, l: L, k: nat, t: T.Task)
    requires lists.Linked() && t !in lists.container && k <= |lists.Of(l)|
    ensures lists.InsertPlace(l, k, t).Linked() && SameElsewhere(lists, lists.InsertPlace(l, k, t), l)
  {
    lists.InsertLinked(l, k, t);
  }

  lemma RemovedElsewhere<L(!new)>(lists: T.Lists<L>, l: L, t: T.Task)
    requires lists.Linked() && t in lists.Of(l)
    ensures t in lists.container && lists.container[t] == l
    ensures lists.Remove(t).Linked() && SameElsewhere(lists, lists.Remove(t), l)
  {
    lists.RemoveLinked(t);
  }

  lemma ServedElsewhere<L(!new)>(lists: T.Lists<L>, l: L)
    requires lists.Linked() && lists.Of(l) != []
    ensures lists.Served(l).Linked() && SameElsewhere(lists, lists.Served(l), l)
  {
    lists.ServedLinked(l);
  }

  method InsertEndInto<L(!new)>(list: List, item: ListItem, ghost heap: map<L, List>,
                                ghost owner: map<ListItem, T.Task>,
                                ghost lists: T.Lists<L>, ghost l: L)
    requires Family(heap, owner, lists) && l in heap && heap[l] == list && Outsider(heap, owner, lists, item)
    modifies list`numberOfItems, list`Items, list`nextOf, list`previousOf
    modifies item`next, item`previous, item`container, list.Members()`next, list.Members()`previous
    ensures Family(heap, owner, lists.InsertEnd(l, owner[item]))
  {
    hide Shows, Chain, Wired, Represents, T.Lists.Linked, T.Lists.InsertPlace, SameElsewhere, Owners;
    NewcomerTo(list, owner, lists, l, item);
    InsertedElsewhere(lists, l, lists.EndPlace(l), owner[item]);
    InsertEnd(list, item, owner, lists, l);
    ghost var after := lists.InsertEnd(l, owner[item]);
    forall m | m in heap && m != l
      ensures Represents(heap[m], owner, after, m)
    {
      ShowsStill(heap[m], owner, lists, after, l, m);
    }
  }

  method InsertInto<L(!new)>(list: List, item: ListItem, ghost heap: map<L, List>, ghost owner: map<ListItem, T.Task>,
                             ghost lists: T.Lists<L>, ghost l: L, ghost key: map<T.Task, nat>)
    requires Family(heap, owner, lists) && l in heap && heap[l] == list && Outsider(heap, owner, lists, item)
    requires Keyed(list, owner, key) && owner[item] in key && key[owner[item]] == item.itemValue
    modifies list`numberOfItems, list`Items, list`nextOf, list`previousOf
    modifies item`next, item`previous, item`container, list.Members()`next, list.Members()`previous
    ensures forall t :: t in lists.Of(l) ==> t in key
    ensures Family(heap, owner, lists.Insert(l, owner[item], key))
  {
    hide Shows, Chain, Wired, Represents, T.Lists.Linked, T.Lists.InsertPlace, SameElsewhere, Owners, T.PlaceFor;
    NewcomerTo(list, owner, lists, l, item);
    KeysAreValues(list, owner, lists, l, key);
    InsertedElsewhere(lists, l, T.PlaceFor(lists.Of(l), key, key[owner[item]]), owner[item]);
    Insert(list, item, owner, lists, l, key);
    ghost var after := lists.Insert(l, owner[item], key);
    forall m | m in heap && m != l
      ensures Represents(heap[m], owner, after, m)
    {
      ShowsStill(heap[m], owner, lists, after, l, m);
    }
  }

  /** uxListRemove finds the list that the item records. */
  method RemoveFrom<L(!new)>(list: List, item: ListItem, ghost heap: map<L, List>, ghost owner: map<ListItem, T.Task>,
                             ghost lists: T.Lists<L>, ghost l: L)
    requires Family(heap, owner, lists) && l in heap && heap[l] == list && item in list.Items
    modifies list, item`container, list.Members()`next, list.Members()`previous
    ensures item in owner && owner[item] in lists.container && lists.container[owner[item]] == l
    ensures owner[item] in lists.Of(l)
    ensures Family(heap, owner, lists.Remove(owner[item]))
  {
    hide Shows, Chain, Wired, Represents, T.Lists.Linked, T.Lists.Remove, SameElsewhere, Owners;
    MemberOf(list, owner, lists, l, item);
    RemovedElsewhere(lists, l, owner[item]);
    Remove(list, item, owner, lists, l);
    ghost var after := lists.Remove(owner[item]);
    forall m | m in heap && m != l
      ensures Represents(heap[m], owner, after, m)
    {
      ShowsStill(heap[m], owner, lists, after, l, m);
    }
  }

  method NextEntryOf<L(!new)>(list: List, ghost heap: map<L, List>, ghost owner: map<ListItem, T.Task>,
                              ghost lists: T.Lists<L>, ghost l: L) returns (item: ListItem)
    requires Family(heap, owner, lists) && l in heap && heap[l] == list && lists.Of(l) != []
    modifies list`index
    ensures Family(heap, owner, lists.Served(l))
    ensures item in owner && owner[item] == lists.Of(l)[lists.NextPlace(l)]
  {
    hide Shows, Chain, Wired, Represents, T.Lists.Linked, T.Lists.Served, SameElsewhere, Owners;
    ServedElsewhere(lists, l);
    item := NextEntry(list, owner, lists, l);
    ghost var after := lists.Served(l);
    forall m | m in heap && m != l
      ensures Represents(heap[m], owner, after, m)
    {
      ShowsStill(heap[m], owner, lists, after, l, m);
    }
  }

  lemma MemberOf<L(!new)>(list: List, owner: map<ListItem, T.Task>, lists: T.Lists<L>, l: L, item: ListItem)
    requires Represents(list, owner, lists, l) && item in list.Items
    ensures item.container == list && item in list.Members()
    ensures item in owner && owner[item] in lists.Of(l)
  {
    var k :| 0 <= k < |list.Items| && list.Items[k] == item;
    assert lists.Of(l)[k] == owner[item];
  }

  lemma NewcomerTo<L(!new)>(list: List, owner: map<ListItem, T.Task>, lists: T.Lists<L>, l: L, item: ListItem)
    requires Represents(list, owner, lists, l) && lists.Linked() && item in owner && owner[item] !in lists.container
    requires item !in list.Members()
    ensures (forall x :: x in list.Items ==> x in owner) && Newcomer(list, owner, item)
  {
  }
}
