/** The storage area of a queue in queue.c refines a deque of at most `length` items. */
module QueueStorage {
  import opened Arithmetic
  import opened Bytes

  type Item = seq<Byte>

  lemma SlotsApart(i: nat, j: nat, length: nat, size: nat)
    requires i < j < length
    ensures i * size + size <= j * size && j * size + size <= length * size
  {
    assert (i + 1) * size <= j * size;
    assert (j + 1) * size <= length * size;
  }

  lemma SlotInside(i: nat, length: nat, size: nat)
    requires i < length
    ensures i * size + size <= length * size
    ensures i * size + size >= length * size <==> (i + 1 == length || size == 0)
  {
    assert (i + 1) * size <= length * size;
    if i + 1 < length {
      SlotsApart(i, i + 1, length, size);
    }
  }

  /** The slots from `first` on hold the items, in order. */
  ghost predicate Holds(buffer: seq<Byte>, first: nat, items: seq<Item>, length: nat, size: nat) {
    && first < length && |items| <= length && |buffer| == length * size
    && forall i :: 0 <= i < |items| ==>
         var slot := Onward(first, i, length);
         slot * size + size <= |buffer| && Read(buffer, slot * size, size) == items[i]
  }

  lemma HoldsBack(buffer: seq<Byte>, first: nat, items: seq<Item>, length: nat, size: nat, item: Item)
    requires Holds(buffer, first, items, length, size) && |items| < length && |item| == size
    ensures var slot := Onward(first, |items|, length);
      slot * size + size <= |buffer| && Holds(Written(buffer, slot * size, item), first, items + [item], length, size)
  {
    var slot := Onward(first, |items|, length);
    SlotInside(slot, length, size);
    var now := Written(buffer, slot * size, item);
    ReadBack(buffer, slot * size, item);
    forall i | 0 <= i < |items|
      ensures var s := Onward(first, i, length); s * size + size <= |now| && Read(now, s * size, size) == items[i]
    {
      var s := Onward(first, i, length);
      if s < slot {
        SlotsApart(s, slot, length, size);
      } else {
        SlotsApart(slot, s, length, size);
      }
      ReadElsewhere(buffer, slot * size, item, s * size, size);
    }
  }

  function SlotBefore(slot: nat, length: nat): (r: nat)
    requires slot < length
    ensures r < length && Onward(r, 1, length) == slot
  {
    if slot == 0 then length - 1 else slot - 1
  }

  lemma HoldsFront(buffer: seq<Byte>, first: nat, items: seq<Item>, length: nat, size: nat, item: Item)
    requires Holds(buffer, first, items, length, size) && |items| < length && |item| == size
    ensures var slot := SlotBefore(first, length);
      slot * size + size <= |buffer| && Holds(Written(buffer, slot * size, item), slot, [item] + items, length, size)
  {
    var slot := SlotBefore(first, length);
    SlotInside(slot, length, size);
    var now := Written(buffer, slot * size, item);
    ReadBack(buffer, slot * size, item);
    forall i | 0 <= i < |items| + 1
      ensures var s := Onward(slot, i, length);
        s * size + size <= |now| && Read(now, s * size, size) == ([item] + items)[i]
    {
      if i > 0 {
        var s := Onward(first, i - 1, length);
        assert s == Onward(slot, i, length) != slot;
        if s < slot {
          SlotsApart(s, slot, length, size);
        } else {
          SlotsApart(slot, s, length, size);
        }
        ReadElsewhere(buffer, slot * size, item, s * size, size);
      }
    }
  }

  lemma HoldsRest(buffer: seq<Byte>, first: nat, items: seq<Item>, length: nat, size: nat)
    requires Holds(buffer, first, items, length, size) && items != []
    ensures first * size + size <= |buffer| && Read(buffer, first * size, size) == items[0]
    ensures Holds(buffer, Onward(first, 1, length), items[1..], length, size)
  {
    assert Onward(first, 0, length) == first;
    forall i | 0 <= i < |items| - 1
      ensures Onward(Onward(first, 1, length), i, length) == Onward(first, i + 1, length)
    {
    }
  }

  /** The number of messages after one was put in front. */
  function CountInFront(waiting: nat, itemSize: nat, overwrite: bool): (r: nat) {
    if itemSize != 0 && overwrite && waiting > 0 then waiting else waiting + 1
  }

  /** The count after `n` overwrites in a row. */
  function CountAfter(waiting: nat, itemSize: nat, n: nat): (r: nat) {
    if n == 0 then waiting else CountInFront(CountAfter(waiting, itemSize, n - 1), itemSize, true)
  }

  /** Overwriting, however often, keeps a queue of length one within its length, unless its
      items have no bytes: then every token that is overwritten is counted again. */
  lemma {:induction false} OverwriteOfTokens(waiting: nat, itemSize: nat, n: nat)
    requires waiting <= 1
    ensures CountAfter(waiting, itemSize, n) <= 1 <==> itemSize != 0 || waiting + n <= 1
    ensures CountAfter(waiting, itemSize, n) == if itemSize == 0 then waiting + n else if n == 0 then waiting else 1
  {
    if n > 0 {
      OverwriteOfTokens(waiting, itemSize, n - 1);
    }
  }

  lemma NothingWritten(buffer: seq<Byte>, at: nat, item: Item)
    requires at + |item| <= |buffer|
    ensures item == [] ==> Written(buffer, at, item) == buffer
  {
  }

  function Wrapped(wraps: nat, tail: nat): (n: nat) {
    if wraps == 0 then 0 else tail + Wrapped(wraps - 1, tail)
  }

  /** Going back by one item, around the ring when the position would be in front of it. */
  lemma StepBack(slot: nat, length: nat, size: nat)
    requires slot < length
    ensures SlotBefore(slot, length) * size == if size == 0 || slot * size >= size then slot * size - size
      else length * size - size
  {
    if slot > 0 {
      assert (slot - 1) * size == slot * size - size && (slot - 1) * size >= 0;
    } else {
      assert (length - 1) * size == length * size - size;
    }
  }

  class Storage {
    const length: nat
    const itemSize: nat
    const buffer: array<Byte>
    const tail: nat               // pcTail; pcHead is 0
    var writeTo: nat
    var readFrom: nat
    var messagesWaiting: nat
    ghost var first: nat          // the slot of the first item
    ghost var items: seq<Item>

    ghost predicate Valid()
      reads this, buffer
    {
      && length > 0 && tail == length * itemSize
      && Holds(buffer[..], first, items, length, itemSize) && messagesWaiting == |items|
      && (forall i :: 0 <= i < |items| ==> |items[i]| == itemSize)
      && readFrom == SlotBefore(first, length) * itemSize
      && writeTo == Onward(first, messagesWaiting, length) * itemSize
    }

    constructor (length: nat, itemSize: nat)
      requires length > 0
      ensures Valid() && items == [] && this.length == length && this.itemSize == itemSize && fresh(buffer)
    {
      this.length, this.itemSize := length, itemSize;
      tail := length * itemSize;
      var storage := new Byte[length * itemSize];
      buffer := storage;
      writeTo, readFrom, messagesWaiting := 0, (length - 1) * itemSize, 0;
      first, items := 0, [];
    }

    /** xQueueGenericReset, as far as it concerns the storage. */
    method Reset()
      requires Valid()
      modifies this
      ensures Valid() && items == []
    {
      messagesWaiting := 0;
      writeTo := 0;
      readFrom := (length - 1) * itemSize;
      first, items := 0, [];
    }

    /** prvCopyDataToQueue with queueSEND_TO_BACK. */
    method SendToBack(item: Item)
      requires Valid() && messagesWaiting < length && |item| == itemSize
      modifies this, buffer
      ensures Valid() && items == old(items) + [item]
    {
      ghost var slot := Onward(first, messagesWaiting, length);
      HoldsBack(buffer[..], first, items, length, itemSize, item);
      SlotInside(slot, length, itemSize);
      items := items + [item];
      if itemSize != 0 {
        CopyIn(buffer, writeTo, item);
        writeTo := writeTo + itemSize;
        if writeTo >= tail {
          writeTo := 0;
        }
        assert (slot + 1) * itemSize == slot * itemSize + itemSize;
      } else {
        assert Written(buffer[..], writeTo, item) == buffer[..];
      }
      messagesWaiting := messagesWaiting + 1;
    }

    /** The copy of an item in front, at the read position, which goes back by one item. */
    method CopyInFront(item: Item, ghost slot: nat)
      requires slot < length && tail == length * itemSize && buffer.Length == tail && |item| == itemSize
      requires readFrom == slot * itemSize
      modifies this`readFrom, buffer
      ensures slot * itemSize + itemSize <= buffer.Length
      ensures buffer[..] == Written(old(buffer[..]), slot * itemSize, item)
      ensures readFrom == SlotBefore(slot, length) * itemSize
    {
      SlotInside(slot, length, itemSize);
      StepBack(slot, length, itemSize);
      if itemSize != 0 {
        CopyIn(buffer, readFrom, item);
        var position := readFrom - itemSize;
        readFrom := if position < 0 then tail - itemSize else position;
      } else {
        assert Written(buffer[..], readFrom, item) == buffer[..];
      }
    }

    /** The part of prvCopyDataToQueue that puts an item in front; an item that is being
        overwritten is not counted twice, unless it has no bytes. */
    method PutInFront(item: Item, overwrite: bool)
      requires Valid() && |item| == itemSize && (if overwrite then length == 1 else messagesWaiting < length)
      modifies this, buffer
      ensures overwrite ==> (messagesWaiting <= length <==> itemSize != 0 || old(items) == [])
      ensures if overwrite && itemSize == 0 && old(items) != [] then
          && messagesWaiting == 2 && items == old(items) && first == old(first)
          && readFrom == old(readFrom) && writeTo == old(writeTo) && buffer[..] == old(buffer[..])
        else
          Valid() && items == if overwrite then [item] else [item] + old(items)
    {
      hide Written;
      ghost var counts := overwrite && itemSize == 0 && items != [];
      ghost var kept, slot := if overwrite then [] else items, SlotBefore(first, length);
      HoldsFront(buffer[..], first, kept, length, itemSize, item);
      NothingWritten(buffer[..], slot * itemSize, item);
      if !counts {
        assert Onward(first, messagesWaiting, length) == Onward(slot, |[item] + kept|, length);
      }
      CopyInFront(item, slot);
      messagesWaiting := CountInFront(messagesWaiting, itemSize, overwrite);
      if !counts {
        items, first := [item] + kept, slot;
      }
    }

    /** xQueueGenericSend to the front of the queue, without waiting. */
    method SendToFront(item: Item) returns (sent: bool)
      requires Valid() && |item| == itemSize
      modifies this, buffer
      ensures Valid() && sent == (|old(items)| < length) && items == if sent then [item] + old(items) else old(items)
    {
      sent := messagesWaiting < length;
      if sent {
        PutInFront(item, false);
      }
    }

    /** xQueueOverwrite, for a queue of length one. It stays within its length exactly when
        its items have bytes or it was empty. */
    method Overwrite(item: Item)
      requires Valid() && length == 1 && |item| == itemSize
      modifies this, buffer
      ensures messagesWaiting <= length <==> itemSize != 0 || old(items) == []
      ensures messagesWaiting <= length ==> Valid() && items == [item]
      ensures messagesWaiting > length ==>
        messagesWaiting == 2 && readFrom == old(readFrom) && writeTo == old(writeTo) && buffer[..] == old(buffer[..])
    {
      PutInFront(item, true);
    }

    /** prvCopyDataFromQueue. */
    method CopyFromQueue() returns (item: Item)
      requires Valid() && messagesWaiting > 0
      modifies this`readFrom
      ensures item == items[0] && readFrom == first * itemSize
    {
      HoldsRest(buffer[..], first, items, length, itemSize);
      ghost var slot := SlotBefore(first, length);
      SlotInside(slot, length, itemSize);
      assert (slot + 1) * itemSize == slot * itemSize + itemSize;
      item := [];
      if itemSize != 0 {
        readFrom := readFrom + itemSize;
        if readFrom >= tail {
          readFrom := 0;
        }
        item := CopyOut(buffer, readFrom, itemSize);
      }
    }

    /** The critical section of xQueueReceive. */
    method Receive() returns (item: Item)
      requires Valid() && messagesWaiting > 0
      modifies this
      ensures Valid() && item == old(items)[0] && items == old(items)[1..]
    {
      HoldsRest(buffer[..], first, items, length, itemSize);
      assert Onward(Onward(first, 1, length), messagesWaiting - 1, length) == Onward(first, messagesWaiting, length);
      assert SlotBefore(Onward(first, 1, length), length) == first;
      item := CopyFromQueue();
      messagesWaiting := messagesWaiting - 1;
      first, items := Onward(first, 1, length), items[1..];
    }

    /** The critical section of xQueuePeek: the read position is put back. */
    method Peek() returns (item: Item)
      requires Valid() && messagesWaiting > 0
      modifies this`readFrom
      ensures Valid() && item == items[0] && readFrom == old(readFrom)
    {
      var originalReadPosition := readFrom;
      item := CopyFromQueue();
      readFrom := originalReadPosition;
    }

    /** One item and the waiting messages behind the read position is the write position,
        after at most two wraps. */
    lemma WriteFollowsRead()
      requires Valid()
      ensures exists wraps: nat ::
        wraps <= 2 && readFrom + itemSize + messagesWaiting * itemSize == writeTo + Wrapped(wraps, tail)
    {
      var slot, write := SlotBefore(first, length), Onward(first, messagesWaiting, length);
      var laps := (if first == 0 then 1 else 0) + (if first + messagesWaiting < length then 0 else 1);
      assert slot + 1 + messagesWaiting
        == write + (if laps == 0 then 0 else if laps == 1 then length else length + length);
      assert (slot + 1 + messagesWaiting) * itemSize == slot * itemSize + itemSize + messagesWaiting * itemSize;
      assert (write + length) * itemSize == write * itemSize + tail;
      assert (write + length + length) * itemSize == write * itemSize + tail + tail;
      assert Wrapped(laps, tail) == if laps == 0 then 0 else if laps == 1 then tail else tail + tail;
    }
  }
}
