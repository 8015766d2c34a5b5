/** The circular doubly linked list of list.c, on the heap.

    A list embeds one marker item, `listEnd`; the marker and the items form one ring.
    The ghost field `Items` is the sequence the pointers represent, from the item
    after the marker to the item before it; the two ghost maps say where the pointers
    of the ring lead. */
module IntrusiveList {
  import opened SortedInsertion
  import opened RingLinks

  const PORT_MAX_DELAY: nat := 0xFFFF_FFFF

  type TickType = n: nat | n <= PORT_MAX_DELAY

  type Links = map<ListItem, ListItem>

  class ListItem {
    var itemValue: TickType
    var next: ListItem?
    var previous: ListItem?
    var container: List?

    constructor (value: TickType)
      ensures itemValue == value && container == null
    {
      itemValue := value;
      next, previous, container := null, null, null;
    }

    /** vListInitialiseItem. */
    method Initialise()
      modifies this`container
      ensures container == null
    {
      container := null;
    }
  }

  ghost function ItemValues(s: seq<ListItem>): (v: seq<nat>)
    reads s
    ensures |v| == |s|
    ensures forall i :: 0 <= i < |s| ==> v[i] == s[i].itemValue
  {
    seq(|s|, i requires 0 <= i < |s| reads s => s[i].itemValue)
  }

  ghost predicate NextStored(next: Links)
    reads next.Keys`next
  {
    forall x :: x in next ==> x.next == next[x]
  }

  ghost predicate PreviousStored(previous: Links)
    reads previous.Keys`previous
  {
    forall x :: x in previous ==> x.previous == previous[x]
  }

  ghost predicate ContainedIn(list: List, items: set<ListItem>)
    reads items`container
  {
    forall x :: x in items && x != list.listEnd ==> x.container == list
  }

  /** The heap holds the pointers of the two maps, and each item its container. */
  ghost predicate Wired(list: List, next: Links, previous: Links)
    reads next.Keys, previous.Keys
  {
    && NextStored(next) && PreviousStored(previous) && ContainedIn(list, next.Keys)
    && next.Keys == previous.Keys && list.listEnd in next && list.listEnd.itemValue == PORT_MAX_DELAY
  }

  /** Where an item of the ring is, and where its previous pointer leads. */
  lemma PlaceOf(end: ListItem, s: seq<ListItem>, next: Links, previous: Links, x: ListItem) returns (k: nat)
    requires Chain(end, s, next, previous) && x in next
    ensures k <= |s| && x == At(end, s, k) && (k == |s| <==> x == end) && previous[x] == At(end, s, k as int - 1)
    ensures previous[x] in next
    ensures k < |s| ==> next[x] == At(end, s, k + 1)
    ensures next.Keys == previous.Keys == Ring(end, s)
  {
    if x == end {
      k := |s|;
    } else {
      k :| k < |s| && s[k] == x;
    }
  }

  method LinkForward(item: ListItem, before: ListItem, after: ListItem, ghost next: Links) returns (ghost now: Links)
    requires NextStored(next) && before in next && item !in next
    modifies item`next, before`next
    ensures now == next[before := item][item := after] && NextStored(now)
  {
    item.next := after;
    before.next := item;
    now := next[before := item][item := after];
  }

  method LinkBackward(item: ListItem, before: ListItem, after: ListItem, ghost previous: Links)
    returns (ghost now: Links)
    requires PreviousStored(previous) && after in previous && item !in previous
    modifies item`previous, after`previous
    ensures now == previous[after := item][item := before] && PreviousStored(now)
  {
    item.previous := before;
    after.previous := item;
    now := previous[after := item][item := before];
  }

  class List {
    const listEnd: ListItem
    var index: ListItem
    var numberOfItems: nat
    ghost var Items: seq<ListItem>
    ghost var nextOf: Links
    ghost var previousOf: Links

    ghost function Members(): (r: set<ListItem>)
      reads this
    {
      nextOf.Keys + previousOf.Keys
    }

    ghost predicate Valid()
      reads this, Members()
    {
      && Chain<ListItem>(listEnd, Items, nextOf, previousOf)
      && Wired(this, nextOf, previousOf)
      && index in nextOf && numberOfItems == |Items|
    }

    /** A fresh list: the marker alone in its ring. */
    constructor ()
      ensures Valid() && Items == [] && index == listEnd && fresh(listEnd)
    {
      var marker := new ListItem(PORT_MAX_DELAY);
      listEnd, index, numberOfItems, Items := marker, marker, 0, [];
      nextOf, previousOf := map[marker := marker], map[marker := marker];
      new;
      listEnd.next, listEnd.previous := listEnd, listEnd;
    }

    /** vListInitialise: whatever the list held, it becomes empty. */
    method Initialise()
      modifies this, listEnd
      ensures Valid() && Items == [] && index == listEnd
    {
      index := listEnd;
      listEnd.itemValue := PORT_MAX_DELAY;
      listEnd.next := listEnd;
      listEnd.previous := listEnd;
      numberOfItems := 0;
      Items, nextOf, previousOf := [], map[listEnd := listEnd], map[listEnd := listEnd];
    }

    /** The pointer writes with which both insertions end. */
    method LinkBetween(item: ListItem, before: ListItem, after: ListItem)
      requires Wired(this, nextOf, previousOf) && before in nextOf && after in nextOf
      requires item !in nextOf
      modifies this`nextOf, this`previousOf
      modifies item`next, item`previous, item`container, before`next, after`previous
      ensures Wired(this, nextOf, previousOf)
      ensures nextOf == old(nextOf)[before := item][item := after]
      ensures previousOf == old(previousOf)[after := item][item := before]
    {
      hide NextStored, PreviousStored, ContainedIn;
      ghost var members := nextOf.Keys;
      ghost var forward := LinkForward(item, before, after, nextOf);
      ghost var backward := LinkBackward(item, before, after, previousOf);
      assert NextStored(forward);
      Claim(item, members);
      assert forward.Keys == members + {item} == backward.Keys;
      assert Wired(this, forward, backward);
      nextOf, previousOf := forward, backward;
    }

    method Claim(item: ListItem, ghost members: set<ListItem>)
      requires ContainedIn(this, members)
      modifies item`container
      ensures ContainedIn(this, members + {item})
    {
      item.container := this;
    }

    /** The writes with which both insertions end: `item` becomes the item at place `k`. */
    method Splice(item: ListItem, before: ListItem, after: ListItem, ghost k: nat)
      requires Valid() && item !in nextOf && k <= |Items|
      requires before == At(listEnd, Items, k as int - 1) && after == At(listEnd, Items, k)
      requires nextOf.Keys == Ring<ListItem>(listEnd, Items) && before in nextOf && after in nextOf
      modifies this`numberOfItems, this`Items, this`nextOf, this`previousOf
      modifies item`next, item`previous, item`container, before`next, after`previous
      ensures Valid()
      ensures Items == InsertAt(old(Items), k, item)
    {
      hide Chain, Wired;
      ChainAfterInsertion<ListItem>(listEnd, Items, k, item, nextOf, previousOf);
      numberOfItems, Items := numberOfItems + 1, InsertAt(Items, k, item);
      LinkBetween(item, before, after);
    }

    /** vListInsertEnd: the item goes directly in front of `index`. The ghost result is
        the place it gets. */
    method InsertEnd(item: ListItem) returns (ghost k: nat)
      requires Valid() && item !in nextOf
      modifies this`numberOfItems, this`Items, this`nextOf, this`previousOf
      modifies item`next, item`previous, item`container, Members()`next, Members()`previous
      ensures Valid()
      ensures k <= |old(Items)| && index == At(listEnd, old(Items), k)
      ensures Items == InsertAt(old(Items), k, item)
    {
      k := PlaceOf(listEnd, Items, nextOf, previousOf, index);
      Splice(item, index.previous, index, k);
    }

    /** vListInsert: the item goes in front of the first item with a larger value, so
        behind the ones with an equal value; portMAX_DELAY goes last without a scan. The
        marker's own value, the largest of all, ends the scan. */
    method Insert(item: ListItem) returns (ghost k: nat)
      requires Valid() && item !in nextOf
      modifies this`numberOfItems, this`Items, this`nextOf, this`previousOf
      modifies item`next, item`previous, item`container, Members()`next, Members()`previous
      ensures Valid()
      ensures k == old(InsertPosition(ItemValues(Items), item.itemValue))
      ensures Items == InsertAt(old(Items), k, item)
    {
      hide Chain, Wired;
      var value := item.itemValue;
      var cursor: ListItem;
      if value == PORT_MAX_DELAY {
        cursor, k := FindLast();
      } else {
        cursor, k := Scan(value);
      }
      Splice(item, cursor, cursor.next, k);
    }

    method FindLast() returns (cursor: ListItem, ghost k: nat)
      requires Valid()
      ensures k == |Items| && AtPlace(cursor, k) && InsertPosition(ItemValues(Items), PORT_MAX_DELAY) == k
    {
      cursor, k := listEnd.previous, |Items|;
      PositionUnique(ItemValues(Items), PORT_MAX_DELAY, k);
    }

    /** The scan of vListInsert. */
    method Scan(value: TickType) returns (cursor: ListItem, ghost k: nat)
      requires Valid() && value < PORT_MAX_DELAY
      ensures k <= |Items| && AtPlace(cursor, k) && InsertPosition(ItemValues(Items), value) == k
    {
      hide Chain, Wired;
      cursor, k := listEnd, 0;
      ghost var values := ItemValues(Items);
      NextAt(cursor, k);
      while cursor.next.itemValue <= value
        invariant 0 <= k <= |Items| && AtPlace(cursor, k)
        invariant forall i :: 0 <= i < k ==> values[i] <= value
        decreases |Items| - k
      {
        cursor := cursor.next;
        k := k + 1;
        NextAt(cursor, k);
      }
      PositionUnique(values, value, k);
    }

    lemma MemberLinks(item: ListItem)
      requires Valid() && item in Items
      ensures item in nextOf && item in previousOf && item != listEnd
      ensures item.next == nextOf[item] && item.previous == previousOf[item]
      ensures nextOf[item] in nextOf && previousOf[item] in nextOf && previousOf[item] != item
    {
    }

    /** The item in front of place `k`, whose next pointer leads to that place. */
    ghost predicate AtPlace(cursor: ListItem, k: nat)
      requires k <= |Items|
      reads this, cursor, Members()
    {
      && cursor == At(listEnd, Items, k as int - 1) && cursor.next == At(listEnd, Items, k)
      && cursor in nextOf && cursor.next in nextOf && nextOf.Keys == Ring<ListItem>(listEnd, Items)
      && cursor.next.itemValue == if k < |Items| then Items[k].itemValue else PORT_MAX_DELAY
    }

    lemma NextAt(cursor: ListItem, k: nat)
      requires Valid() && k <= |Items| && cursor == At(listEnd, Items, k as int - 1)
      ensures AtPlace(cursor, k)
    {
    }

    /** listGET_OWNER_OF_NEXT_ENTRY: moves `index` on, skipping the marker. */
    method NextEntry() returns (item: ListItem, ghost k: nat)
      requires Valid() && Items != []
      modifies this`index
      ensures Valid() && item == index
      ensures k <= |Items| && old(index) == At(listEnd, Items, k)
      ensures item == Items[if k < |Items| - 1 then k + 1 else 0]
    {
      k := PlaceOf(listEnd, Items, nextOf, previousOf, index);
      index := index.next;
      if index == listEnd {
        index := index.next;
      }
      item := index;
    }
  }

  /** Only one position has smaller-or-equal values before it and a larger one at it. */
  lemma PositionUnique(values: seq<nat>, v: nat, k: nat)
    requires k <= |values|
    requires forall i :: 0 <= i < k ==> values[i] <= v
    requires k < |values| ==> values[k] > v
    ensures InsertPosition(values, v) == k
  {
  }

  /** The pointer writes of a removal: the neighbours of `item` are led past it. */
  method LinkPast(item: ListItem, before: ListItem, after: ListItem, ghost next: Links, ghost previous: Links)
    requires NextStored(next) && PreviousStored(previous) && before in next && after in previous
    requires item.next == after && item.previous == before
    modifies before`next, after`previous
    ensures NextStored(next[before := after] - {item})
    ensures PreviousStored(previous[after := before] - {item})
  {
    item.next.previous := item.previous;
    before.next := after;
  }

  method TakeOut(list: List, item: ListItem, before: ListItem, after: ListItem)
    requires Wired(list, list.nextOf, list.previousOf) && item != list.listEnd
    requires item.next == after && item.previous == before && after in list.nextOf && before in list.nextOf
    modifies list`nextOf, list`previousOf, item`container, after`previous, before`next
    ensures item.container == null
    ensures list.nextOf == old(list.nextOf)[before := after] - {item}
    ensures list.previousOf == old(list.previousOf)[after := before] - {item}
    ensures Wired(list, list.nextOf, list.previousOf)
  {
    hide NextStored, PreviousStored, ContainedIn;
    ghost var members := list.nextOf.Keys;
    LinkPast(item, before, after, list.nextOf, list.previousOf);
    Release(list, item, members);
    ghost var forward, backward := list.nextOf[before := after] - {item}, list.previousOf[after := before] - {item};
    assert forward.Keys == members - {item} == backward.Keys;
    assert Wired(list, forward, backward);
    list.nextOf, list.previousOf := forward, backward;
  }

  method Release(list: List, item: ListItem, ghost members: set<ListItem>)
    requires ContainedIn(list, members)
    modifies item`container
    ensures item.container == null && ContainedIn(list, members - {item})
  {
    item.container := null;
  }

  /** uxListRemove: unlinks the item from the list it records as its container. An
      `index` that pointed to the item moves to the item before it. */
  method Remove(item: ListItem) returns (remaining: nat, ghost k: nat)
    requires item.container != null && item.container.Valid() && item in item.container.Items
    modifies item.container, item`container
    modifies item.container.Members()`next, item.container.Members()`previous
    ensures item.container == null
    ensures old(item.container).Valid() && remaining == |old(item.container).Items|
    ensures k < |old(item.container.Items)| && old(item.container.Items)[k] == item
    ensures old(item.container).Items == DropAt(old(item.container.Items), k)
    ensures old(item.container).index ==
      if old(item.container.index) == item then At(old(item.container).listEnd, old(item.container.Items), k as int - 1)
      else old(item.container.index)
  {
    hide Chain, Wired;
    var list: List := item.container;
    list.MemberLinks(item);
    k := PlaceOf(list.listEnd, list.Items, list.nextOf, list.previousOf, item);
    ChainAfterRemoval<ListItem>(list.listEnd, list.Items, k, list.nextOf, list.previousOf);
    var before: ListItem, after: ListItem := item.previous, item.next;
    if list.index == item {
      list.index := before;
    }
    list.numberOfItems, list.Items := list.numberOfItems - 1, DropAt(list.Items, k);
    TakeOut(list, item, before, after);
    remaining := list.numberOfItems;
  }
}
