/**
 The storage of a queue (queue.c): a byte array used as a ring of fixed-size items, with
 the read pointer one item behind the first.  It represents a bounded double-ended queue.
 Semaphores are the case of items of no bytes.
 */
module QueueRing {
  import opened Arith
  import opened Basics

  /** queueSEND_TO_BACK, queueSEND_TO_FRONT and queueOVERWRITE. */
  datatype Position = Back | Front | Overwrite

  /** What a successful send makes of the queue's contents. */
  function Sent<T>(contents: seq<T>, item: T, position: Position): seq<T> {
    match position
    case Back => contents + [item]
    case Front => [item] + contents
    case Overwrite => [item] + if contents == [] then [] else contents[1..]
  }

  /** The i-th slot after slot `r`, going round a ring of `n`. */
  function After(r: nat, i: nat, n: nat): nat
    requires r < n && i < n
  {
    if r + 1 + i < n then r + 1 + i else r + 1 + i - n
  }

  ghost function Slot(storage: seq<Byte>, k: nat, size: nat): seq<Byte>
    requires (k + 1) * size <= |storage|
  {
    SlotBounds(k, k + 1, size);
    storage[k * size..(k + 1) * size]
  }

  lemma SlotBounds(k: nat, n: nat, size: nat)
    requires k < n
    ensures k * size <= (k + 1) * size <= n * size && (k + 1) * size == k * size + size
  {
    MulMono(k + 1, n, size);
  }

  /** Where pointer arithmetic on whole items meets the end of the storage. */
  lemma PointerAtEnd(k: nat, n: nat, size: nat)
    requires k < n
    ensures 0 < size ==> (k * size + size >= n * size <==> k + 1 == n)
    ensures 0 < size ==> (k * size - size < 0 <==> k == 0)
    ensures (n - 1) * size == n * size - size
    ensures 0 < k ==> (k - 1) * size == k * size - size
  {
    SlotBounds(k, n, size);
    if k + 1 < n {
      SlotBounds(k + 1, n, size);
    }
    SlotBounds(n - 1, n, size);
    if 0 < k {
      SlotBounds(k - 1, k, size);
    }
  }

  /** The queued items in order: `count` slots from the one after `r`. */
  ghost function Items(storage: seq<Byte>, r: nat, count: nat, n: nat, size: nat): (items: seq<seq<Byte>>)
    requires |storage| == n * size && r < n && count <= n
    ensures |items| == count
  {
    if count == 0 then []
    else
      SlotBounds(After(r, count - 1, n), n, size);
      Items(storage, r, count - 1, n, size) + [Slot(storage, After(r, count - 1, n), size)]
  }

  /** Writing `item` over slot `k`. */
  ghost predicate Written(was: seq<Byte>, now: seq<Byte>, k: nat, size: nat, item: seq<Byte>) {
    && |now| == |was| && |item| == size && (k + 1) * size <= |was|
    && (forall i :: 0 <= i < |was| ==> now[i] == if k * size <= i < (k + 1) * size then item[i - k * size] else was[i])
  }

  lemma WrittenSlot(was: seq<Byte>, now: seq<Byte>, k: nat, j: nat, size: nat, item: seq<Byte>)
    requires Written(was, now, k, size, item) && (j + 1) * size <= |was|
    ensures Slot(now, j, size) == if j == k then item else Slot(was, j, size)
  {
    SlotBounds(k, k + 1, size);
    SlotBounds(j, j + 1, size);
    if j < k {
      SlotBounds(j, k, size);
    } else if k < j {
      SlotBounds(k, j, size);
    }
  }

  /** A write to a slot that is not in use leaves the items alone. */
  lemma {:induction false} WrittenOutside(was: seq<Byte>, now: seq<Byte>, k: nat, r: nat, count: nat, n: nat, size: nat,
                                          item: seq<Byte>)
    requires Written(was, now, k, size, item) && |was| == n * size && r < n && count <= n
    requires forall i :: 0 <= i < count ==> After(r, i, n) != k
    ensures Items(now, r, count, n, size) == Items(was, r, count, n, size)
  {
    if count > 0 {
      WrittenOutside(was, now, k, r, count - 1, n, size, item);
      SlotBounds(After(r, count - 1, n), n, size);
      WrittenSlot(was, now, k, After(r, count - 1, n), size, item);
    }
  }

  /** Moving the read slot one item on drops the first item; moving it back takes the item there in front. */
  lemma {:induction false} ItemsFront(storage: seq<Byte>, r: nat, count: nat, n: nat, size: nat)
    requires |storage| == n * size && r < n && count < n + 1 && 0 < count
    ensures (After(r, 0, n) + 1) * size <= |storage|
    ensures Items(storage, r, count, n, size)
         == [Slot(storage, After(r, 0, n), size)] + Items(storage, After(r, 0, n), count - 1, n, size)
  {
    SlotBounds(After(r, 0, n), n, size);
    if count > 1 {
      ItemsFront(storage, r, count - 1, n, size);
      assert After(r, count - 1, n) == After(After(r, 0, n), count - 2, n);
    }
  }

  lemma AfterDiffers(r: nat, i: nat, j: nat, n: nat)
    requires r < n && i < n && j < n
    ensures i != j ==> After(r, i, n) != After(r, j, n)
    ensures i + 1 < n ==> After(r, i, n) != r
  {
  }

  /** Sending to the back: the slot after the last item is written. */
  lemma SentBack(was: seq<Byte>, now: seq<Byte>, r: nat, count: nat, n: nat, size: nat, item: seq<Byte>)
    requires r < n && count < n && |was| == n * size && Written(was, now, After(r, count, n), size, item)
    ensures Items(now, r, count + 1, n, size) == Items(was, r, count, n, size) + [item]
  {
    forall i | 0 <= i < count ensures After(r, i, n) != After(r, count, n) {
      AfterDiffers(r, i, count, n);
    }
    WrittenOutside(was, now, After(r, count, n), r, count, n, size, item);
    WrittenSlot(was, now, After(r, count, n), After(r, count, n), size, item);
  }

  /** Sending to the front: the read slot itself is written, then it moves back. */
  lemma SentFront(was: seq<Byte>, now: seq<Byte>, r: nat, count: nat, n: nat, size: nat, item: seq<Byte>)
    requires r < n && count < n && |was| == n * size && Written(was, now, r, size, item)
    ensures Items(now, if r == 0 then n - 1 else r - 1, count + 1, n, size) == [item] + Items(was, r, count, n, size)
  {
    var back := if r == 0 then n - 1 else r - 1;
    assert After(back, 0, n) == r;
    ItemsFront(now, back, count + 1, n, size);
    forall i | 0 <= i < count ensures After(r, i, n) != r {
      AfterDiffers(r, i, i, n);
    }
    WrittenOutside(was, now, r, r, count, n, size, item);
    WrittenSlot(was, now, r, r, size, item);
  }

  /** Overwriting the only slot of a queue of length one. */
  lemma SentOverwrite(was: seq<Byte>, now: seq<Byte>, count: nat, size: nat, item: seq<Byte>)
    requires |was| == 1 * size && Written(was, now, 0, size, item) && count <= 1
    ensures Items(now, 0, 1, 1, size) == Sent(Items(was, 0, count, 1, size), item, Overwrite)
  {
    WrittenSlot(was, now, 0, 0, size, item);
    assert Items(now, 0, 0, 1, size) == [];
  }

  /** Items of no bytes are all alike, so it does not matter at which end one is added. */
  lemma {:induction false} EmptyItems(storage: seq<Byte>, r: nat, count: nat, n: nat)
    requires |storage| == n * 0 && r < n && count <= n
    ensures forall i :: 0 <= i < count ==> Items(storage, r, count, n, 0)[i] == []
  {
    if count > 0 {
      EmptyItems(storage, r, count - 1, n);
    }
  }

  lemma SentEmpty(storage: seq<Byte>, r: nat, count: nat, n: nat, position: Position)
    requires |storage| == n * 0 && r < n && count < n && (position == Overwrite ==> n == 1)
    ensures Items(storage, r, count + 1, n, 0) == Sent(Items(storage, r, count, n, 0), [], position)
  {
    EmptyItems(storage, r, count + 1, n);
    EmptyItems(storage, r, count, n);
  }

  /** Slots and pointers after a send, as the code moves them. */
  ghost predicate Pointers(length: nat, itemSize: nat, readSlot: nat, writeSlot: nat, pcReadFrom: int, pcWriteTo: int,
                           messages: nat)
  {
    && readSlot < length && pcReadFrom == readSlot * itemSize
    && writeSlot < length && pcWriteTo == writeSlot * itemSize
    && messages <= length
    && (0 < itemSize ==> writeSlot == After(readSlot, if messages == length then 0 else messages, length))
  }

  class Queue {
    const length: nat
    const itemSize: nat
    const storage: array<Byte>
    var pcWriteTo: int
    var pcReadFrom: int
    var messagesWaiting: nat
    ghost var writeSlot: nat
    ghost var readSlot: nat

    ghost predicate Valid()
      reads this, storage
    {
      && 0 < length && storage.Length == length * itemSize
      && Pointers(length, itemSize, readSlot, writeSlot, pcReadFrom, pcWriteTo, messagesWaiting)
    }

    ghost function Contents(): (c: seq<seq<Byte>>)
      reads this, storage
      requires Valid()
      ensures |c| == messagesWaiting
    {
      Items(storage[..], readSlot, messagesWaiting, length, itemSize)
    }

    constructor (length: nat, itemSize: nat)
      requires 0 < length
      ensures Valid() && this.length == length && this.itemSize == itemSize && Contents() == [] && fresh(storage)
    {
      this.length, this.itemSize := length, itemSize;
      storage := new Byte[length * itemSize];
      pcWriteTo, pcReadFrom, messagesWaiting := 0, (length - 1) * itemSize, 0;
      writeSlot, readSlot := 0, length - 1;
    }

    /** xQueueGenericReset. */
    method Reset()
      requires Valid()
      modifies this
      ensures Valid() && Contents() == []
    {
      messagesWaiting, pcWriteTo, pcReadFrom := 0, 0, (length - 1) * itemSize;
      writeSlot, readSlot := 0, length - 1;
    }

    /** memcpy of one item to a slot. */
    method CopyIn(offset: int, item: seq<Byte>, ghost slot: nat)
      requires |item| == itemSize && slot < length && offset == slot * itemSize && storage.Length == length * itemSize
      modifies storage
      ensures Written(old(storage[..]), storage[..], slot, itemSize, item)
    {
      SlotBounds(slot, length, itemSize);
      var i := 0;
      while i < itemSize
        invariant 0 <= i <= itemSize
        invariant forall j :: 0 <= j < storage.Length ==>
          storage[j] == if offset <= j < offset + i then item[j - offset] else old(storage[j])
      {
        storage[offset + i] := item[i];
        i := i + 1;
      }
    }

    /**
     prvCopyDataToQueue.  The one call that breaks the queue is overwriting a full queue of
     items of no bytes: its count is not taken back first and exceeds the length.
     */
    method CopyDataToQueue(item: seq<Byte>, position: Position)
      requires Valid() && |item| == itemSize
      requires messagesWaiting < length || position == Overwrite
      requires position == Overwrite ==> length == 1
      modifies this`pcWriteTo, this`pcReadFrom, this`messagesWaiting, this`writeSlot, this`readSlot, storage
      ensures old(messagesWaiting) < length || 0 < itemSize ==>
                Valid() && Contents() == Sent(old(Contents()), item, position)
      ensures old(messagesWaiting) == length && itemSize == 0 ==> messagesWaiting == length + 1 && !Valid()
    {
      hide Items, After;
      var waiting := messagesWaiting;
      if itemSize == 0 {
        assert item == [];
        if messagesWaiting < length {
          SentEmpty(storage[..], readSlot, messagesWaiting, length, position);
        }
      } else if position == Back {
        CopyBack(item);
      } else {
        CopyFront(item, position);
        if position == Overwrite {
          if waiting > 0 {
            waiting := waiting - 1;
          }
        }
      }
      messagesWaiting := waiting + 1;
    }

    /** The branch of prvCopyDataToQueue for the back of the queue. */
    method CopyBack(item: seq<Byte>)
      requires Valid() && 0 < itemSize && |item| == itemSize && messagesWaiting < length
      modifies this`pcWriteTo, this`writeSlot, storage
      ensures Pointers(length, itemSize, readSlot, writeSlot, pcReadFrom, pcWriteTo, messagesWaiting + 1)
      ensures Items(storage[..], readSlot, messagesWaiting + 1, length, itemSize) == old(Contents()) + [item]
    {
      hide Items;
      PointerAtEnd(writeSlot, length, itemSize);
      CopyIn(pcWriteTo, item, writeSlot);
      SentBack(old(storage[..]), storage[..], readSlot, messagesWaiting, length, itemSize, item);
      pcWriteTo := pcWriteTo + itemSize;
      if pcWriteTo >= length * itemSize {
        pcWriteTo := 0;
      }
      SlotBounds(writeSlot, length, itemSize);
      writeSlot := After(writeSlot, 0, length);
    }

    /** Its branch for the front of the queue, which overwriting shares. */
    method CopyFront(item: seq<Byte>, position: Position)
      requires Valid() && 0 < itemSize && |item| == itemSize && position != Back
      requires if position == Front then messagesWaiting < length else length == 1
      modifies this`pcReadFrom, this`readSlot, storage
      ensures var count := if position == Front then messagesWaiting + 1 else 1;
              && Pointers(length, itemSize, readSlot, writeSlot, pcReadFrom, pcWriteTo, count)
              && Items(storage[..], readSlot, count, length, itemSize) == Sent(old(Contents()), item, position)
    {
      hide Items;
      PointerAtEnd(readSlot, length, itemSize);
      CopyIn(pcReadFrom, item, readSlot);
      if position == Front {
        SentFront(old(storage[..]), storage[..], readSlot, messagesWaiting, length, itemSize, item);
      } else {
        SentOverwrite(old(storage[..]), storage[..], messagesWaiting, itemSize, item);
      }
      pcReadFrom := pcReadFrom - itemSize;
      if pcReadFrom < 0 {
        pcReadFrom := length * itemSize - itemSize;
      }
      readSlot := if readSlot == 0 then length - 1 else readSlot - 1;
    }

    /** prvCopyDataFromQueue: moves the read pointer on and copies the item there. */
    method CopyDataFromQueue() returns (item: seq<Byte>)
      requires Valid() && 0 < messagesWaiting
      modifies this`pcReadFrom, this`readSlot
      ensures item == old(Contents())[0]
      ensures Pointers(length, itemSize, readSlot, writeSlot, pcReadFrom, pcWriteTo, messagesWaiting - 1)
      ensures Items(storage[..], readSlot, messagesWaiting - 1, length, itemSize) == old(Contents())[1..]
    {
      hide Items;
      ItemsFront(storage[..], readSlot, messagesWaiting, length, itemSize);
      PointerAtEnd(readSlot, length, itemSize);
      SlotBounds(readSlot, length, itemSize);
      readSlot := After(readSlot, 0, length);
      item := [];
      if itemSize != 0 {
        pcReadFrom := pcReadFrom + itemSize;
        if pcReadFrom >= length * itemSize {
          pcReadFrom := 0;
        }
        SlotBounds(readSlot, length, itemSize);
        item := storage[pcReadFrom..pcReadFrom + itemSize];
      }
    }

    /** The critical section of xQueueGenericSend and xQueueGenericSendFromISR. */
    method Send(item: seq<Byte>, position: Position) returns (ok: bool)
      requires Valid() && |item| == itemSize && (position == Overwrite ==> length == 1)
      modifies this`pcWriteTo, this`pcReadFrom, this`messagesWaiting, this`writeSlot, this`readSlot, storage
      ensures ok == (|old(Contents())| < length || position == Overwrite)
      ensures if position == Overwrite && itemSize == 0 && old(messagesWaiting) == length
              then messagesWaiting == length + 1 && !Valid()
              else Valid() && Contents() == if ok then Sent(old(Contents()), item, position) else old(Contents())
    {
      ok := messagesWaiting < length || position == Overwrite;
      if ok {
        CopyDataToQueue(item, position);
      }
    }

    /** The critical section of xQueueReceive and xQueueReceiveFromISR. */
    method Receive() returns (ok: bool, item: seq<Byte>)
      requires Valid()
      modifies this`pcReadFrom, this`messagesWaiting, this`readSlot
      ensures Valid() && ok == (old(Contents()) != [])
      ensures ok ==> old(Contents()) == [item] + Contents()
      ensures !ok ==> Contents() == []
    {
      ok, item := messagesWaiting > 0, [];
      if ok {
        item := CopyDataFromQueue();
        messagesWaiting := messagesWaiting - 1;
      }
    }

    /** The critical section of xQueuePeek: the read pointer is put back. */
    method Peek() returns (ok: bool, item: seq<Byte>)
      requires Valid()
      modifies this`pcReadFrom, this`readSlot
      ensures Valid() && Contents() == old(Contents()) && ok == (Contents() != [])
      ensures ok ==> item == Contents()[0]
    {
      ok, item := messagesWaiting > 0, [];
      if ok {
        var original := pcReadFrom;
        ghost var slot := readSlot;
        item := CopyDataFromQueue();
        pcReadFrom := original;
        readSlot := slot;
      }
    }
  }

  // ----- every sequence of calls -----

  /** One call on a queue; peeking changes nothing. */
  datatype Call<T> = Post(item: T, position: Position) | Take | Look | Clear

  /** The contents of a queue, what it has accepted and what has been taken from it, in order. */
  datatype History<T> = History(contents: seq<T>, accepted: seq<T>, taken: seq<T>)

  function AfterCall<T>(h: History<T>, c: Call<T>, length: nat): History<T> {
    match c
    case Post(item, position) =>
      if |h.contents| < length || position == Overwrite
      then h.(contents := Sent(h.contents, item, position), accepted := h.accepted + [item])
      else h
    case Take =>
      if h.contents == [] then h else h.(contents := h.contents[1..], taken := h.taken + [h.contents[0]])
    case Look => h
    case Clear => h.(contents := [])
  }

  function AfterAll<T>(h: History<T>, calls: seq<Call<T>>, length: nat): History<T>
    decreases |calls|
  {
    if calls == [] then h else AfterCall(AfterAll(h, calls[..|calls| - 1], length), calls[|calls| - 1], length)
  }

  lemma CallInOrder<T>(h: History<T>, c: Call<T>, length: nat)
    requires h.accepted == h.taken + h.contents && |h.contents| <= length
    requires c.Take? || c.Look? || (c.Post? && c.position == Back)
    ensures var v := AfterCall(h, c, length); v.accepted == v.taken + v.contents && |v.contents| <= length
  {
    match c
    case Post(item, _) =>
      assert h.taken + (h.contents + [item]) == (h.taken + h.contents) + [item];
    case Take =>
      if h.contents != [] {
        assert h.contents == [h.contents[0]] + h.contents[1..];
        assert (h.taken + [h.contents[0]]) + h.contents[1..] == h.taken + ([h.contents[0]] + h.contents[1..]);
      }
    case Look =>
  }

  /** With sends to the back only, items come out in the order in which they were accepted, none lost. */
  lemma {:induction false} FirstInFirstOut<T>(calls: seq<Call<T>>, length: nat)
    requires forall c :: c in calls ==> c.Take? || c.Look? || (c.Post? && c.position == Back)
    ensures var h := AfterAll(History([], [], []), calls, length);
            h.accepted == h.taken + h.contents && |h.contents| <= length
    decreases |calls|
  {
    if calls != [] {
      var before := calls[..|calls| - 1];
      assert forall c :: c in before ==> c in calls;
      FirstInFirstOut(before, length);
      assert calls[|calls| - 1] in calls;
      CallInOrder(AfterAll(History([], [], []), before, length), calls[|calls| - 1], length);
    }
  }

  lemma CallConserves<T>(h: History<T>, c: Call<T>, length: nat)
    requires multiset(h.accepted) == multiset(h.taken) + multiset(h.contents) && |h.contents| <= length
    requires !c.Clear? && (c.Post? ==> c.position != Overwrite)
    ensures var v := AfterCall(h, c, length);
            multiset(v.accepted) == multiset(v.taken) + multiset(v.contents) && |v.contents| <= length
  {
    match c
    case Post(item, position) =>
      assert multiset(h.contents + [item]) == multiset(h.contents) + multiset{item};
      assert multiset([item] + h.contents) == multiset(h.contents) + multiset{item};
    case Take =>
      if h.contents != [] {
        assert h.contents == [h.contents[0]] + h.contents[1..];
        assert multiset(h.taken + [h.contents[0]]) == multiset(h.taken) + multiset{h.contents[0]};
      }
    case Look =>
  }

  /** At either end, nothing is lost or made up as long as nothing is overwritten or cleared. */
  lemma {:induction false} Conservation<T>(calls: seq<Call<T>>, length: nat)
    requires forall c :: c in calls ==> !c.Clear? && (c.Post? ==> c.position != Overwrite)
    ensures var h := AfterAll(History([], [], []), calls, length);
            multiset(h.accepted) == multiset(h.taken) + multiset(h.contents) && |h.contents| <= length
    decreases |calls|
  {
    if calls != [] {
      var before := calls[..|calls| - 1];
      assert forall c :: c in before ==> c in calls;
      Conservation(before, length);
      assert calls[|calls| - 1] in calls;
      CallConserves(AfterAll(History([], [], []), before, length), calls[|calls| - 1], length);
    }
  }

  /** What is sent to the front is taken next, and leaves what was there before. */
  lemma FrontIsTakenNext<T>(h: History<T>, x: T, length: nat)
    requires |h.contents| < length
    ensures AfterCall(AfterCall(h, Post(x, Front), length), Take, length)
         == History(h.contents, h.accepted + [x], h.taken + [x])
  {
    assert ([x] + h.contents)[1..] == h.contents;
  }

  /** In a queue of one an overwriting send always leaves exactly its item to be taken. */
  lemma OverwriteIsTakenAlone<T>(h: History<T>, x: T)
    requires |h.contents| <= 1
    ensures AfterCall(AfterCall(h, Post(x, Overwrite), 1), Take, 1) == History([], h.accepted + [x], h.taken + [x])
  {
  }

  /** The call that breaks the ring: it overwrites a full queue of items of no bytes. */
  ghost predicate Breaks(h: History<seq<Byte>>, c: Call<seq<Byte>>, length: nat, itemSize: nat) {
    c.Post? && c.position == Overwrite && itemSize == 0 && |h.contents| == length
  }

  /** From a new queue two overwriting sends reach the broken state. */
  method OverwriteTwice() returns (q: Queue, first: bool, second: bool)
    ensures first && second
    ensures fresh(q) && q.length == 1 && q.itemSize == 0 && q.messagesWaiting == 2 && !q.Valid()
  {
    q := new Queue(1, 0);
    first := q.Send([], Overwrite);
    second := q.Send([], Overwrite);
  }

  /** Any sequence of calls on the ring of which none breaks it does to its contents what it does to a plain sequence. */
  method Perform(q: Queue, calls: seq<Call<seq<Byte>>>) returns (taken: seq<seq<Byte>>)
    requires q.Valid()
    requires forall i :: 0 <= i < |calls| && calls[i].Post? ==>
               |calls[i].item| == q.itemSize && (calls[i].position == Overwrite ==> q.length == 1)
    requires forall i :: 0 <= i < |calls| ==>
               !Breaks(AfterAll(History(q.Contents(), [], []), calls[..i], q.length), calls[i], q.length, q.itemSize)
    modifies q, q.storage
    ensures q.Valid()
    ensures var h := AfterAll(History(old(q.Contents()), [], []), calls, q.length);
            q.Contents() == h.contents && taken == h.taken
  {
    taken := [];
    ghost var start := History(q.Contents(), [], []);
    var i := 0;
    while i < |calls|
      invariant 0 <= i <= |calls| && q.Valid()
      invariant q.Contents() == AfterAll(start, calls[..i], q.length).contents
      invariant taken == AfterAll(start, calls[..i], q.length).taken
    {
      assert calls[..i + 1][..i] == calls[..i];
      assert !Breaks(AfterAll(start, calls[..i], q.length), calls[i], q.length, q.itemSize);
      match calls[i] {
        case Post(item, position) => {
          var ok := q.Send(item, position);
        }
        case Take => {
          var ok, item := q.Receive();
          if ok {
            taken := taken + [item];
          }
        }
        case Look => {
          var ok, item := q.Peek();
        }
        case Clear => {
          q.Reset();
        }
      }
      i := i + 1;
    }
    assert calls[..i] == calls;
  }
}
