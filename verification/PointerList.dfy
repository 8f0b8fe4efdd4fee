/**
 The kernel's circular doubly linked list (list.c), with its end marker, walking index
 and container back pointers.  A list stands for the finite sequence `Items()`; the ghost
 `ring` is that sequence behind the end marker.
 */
module PointerList {
  import opened Entries

  /** portMAX_DELAY: the value of the end marker, and the largest tick value. */
  const MAX_DELAY: nat := 0xFFFF_FFFF

  class ListItem {
    var value: nat
    const owner: nat
    var next: ListItem?
    var previous: ListItem?
    var container: List?

    /** vListInitialiseItem. */
    constructor (owner: nat, value: nat)
      ensures this.owner == owner && this.value == value && container == null
    {
      this.owner := owner;
      this.value := value;
      next, previous, container := null, null, null;
    }
  }

  /** The index after `i` going round. */
  function Succ(i: nat, n: nat): nat
    requires i < n
  {
    if i + 1 == n then 0 else i + 1
  }

  ghost predicate Distinct(ring: seq<ListItem>) {
    forall i, j :: 0 <= i < j < |ring| ==> ring[i] != ring[j]
  }

  /** The links between position `i` and the one after it are each other's inverse. */
  ghost predicate LinkAt(ring: seq<ListItem>, i: nat)
    requires i < |ring|
    reads ring`next, ring`previous
  {
    ring[i].next == ring[Succ(i, |ring|)] && ring[Succ(i, |ring|)].previous == ring[i]
  }

  ghost predicate Linked(ring: seq<ListItem>)
    reads ring`next, ring`previous
  {
    forall i :: 0 <= i < |ring| ==> LinkAt(ring, i)
  }

  lemma AllLinked(ring: seq<ListItem>)
    requires Linked(ring)
    ensures forall i :: 0 <= i < |ring| ==> LinkAt(ring, i)
  {
  }

  lemma Neighbours(ring: seq<ListItem>, p: nat)
    requires Linked(ring) && 1 <= p < |ring|
    ensures ring[p].previous == ring[p - 1] && ring[p].next == ring[Succ(p, |ring|)]
  {
    assert LinkAt(ring, p - 1) && LinkAt(ring, p);
  }

  /** The two items between which ring position `p` lies. */
  lemma Between(ring: seq<ListItem>, p: nat)
    requires Linked(ring) && 1 <= p <= |ring|
    ensures var q := if p == |ring| then 0 else p;
            ring[p - 1].next == ring[q] && ring[q].previous == ring[p - 1]
  {
    assert LinkAt(ring, p - 1);
  }

  ghost function Splice(ring: seq<ListItem>, p: nat, x: ListItem): (r: seq<ListItem>)
    requires p <= |ring|
    ensures |r| == |ring| + 1
    ensures forall i :: 0 <= i <= |ring| ==> r[i] == if i < p then ring[i] else if i == p then x else ring[i - 1]
  {
    ring[..p] + [x] + ring[p..]
  }

  /** Where vListInsertEnd puts an item: before the index, which for the end marker is the ring's end. */
  ghost function EndPosition(ring: seq<ListItem>, at: nat): (p: nat)
    requires at < |ring|
    ensures 1 <= p <= |ring|
  {
    if at == 0 then |ring| else at
  }

  lemma DistinctAt(ring: seq<ListItem>, i: nat, j: nat)
    requires Distinct(ring) && i < |ring| && j < |ring|
    ensures i != j ==> ring[i] != ring[j]
  {
  }

  lemma SpliceDistinct(ring: seq<ListItem>, p: nat, x: ListItem)
    requires Distinct(ring) && x !in ring && p <= |ring|
    ensures Distinct(Splice(ring, p, x))
  {
    var r := Splice(ring, p, x);
    forall i, j | 0 <= i < j < |r| ensures r[i] != r[j] {
      assert i != p ==> r[i] in ring;
      assert j != p ==> r[j] in ring;
    }
  }

  /** The four pointer writes that put `x` before ring position `p`; every other link is still a ring link. */
  ghost predicate LinkedIn(ring: seq<ListItem>, p: nat, x: ListItem)
    requires 1 <= p <= |ring|
    reads ring, x
  {
    var q := if p == |ring| then 0 else p;
    && x.next == ring[q] && x.previous == ring[p - 1]
    && ring[p - 1].next == x && ring[q].previous == x
    && (forall i :: 0 <= i < |ring| && i != p - 1 ==> LinkAt(ring, i))
  }

  lemma SplicedLinked(ring: seq<ListItem>, p: nat, x: ListItem)
    requires 1 <= p <= |ring| && LinkedIn(ring, p, x)
    ensures Linked(Splice(ring, p, x))
  {
    var r := Splice(ring, p, x);
    forall i | 0 <= i < |r| ensures LinkAt(r, i) {
      if i < p - 1 {
        assert LinkAt(ring, i);
      } else if p < i {
        assert LinkAt(ring, i - 1);
      }
    }
  }

  /** The items in the order in which walking on from position `k` of the ring meets them. */
  ghost function VisitOrder(ring: seq<ListItem>, k: nat): seq<ListItem>
    requires k < |ring|
  {
    ring[k + 1..] + ring[1..k + 1]
  }

  /** The pointer writes that both insertions make between two neighbours. */
  method LinkIn(before: ListItem, x: ListItem, after: ListItem, ghost ring: seq<ListItem>, ghost p: nat)
    requires Distinct(ring) && Linked(ring) && x !in ring && 1 <= p <= |ring|
    requires before == ring[p - 1] && after == ring[if p == |ring| then 0 else p]
    modifies x`next, x`previous, before`next, after`previous
    ensures Linked(Splice(ring, p, x))
  {
    AllLinked(ring);
    x.next := after;
    x.previous := before;
    before.next := x;
    after.previous := x;
    assert LinkedIn(ring, p, x) by {
      forall i | 0 <= i < |ring| && i != p - 1 ensures LinkAt(ring, i) {
        assert old(LinkAt(ring, i));
        DistinctAt(ring, i, p - 1);
        DistinctAt(ring, Succ(i, |ring|), if p == |ring| then 0 else p);
      }
    }
    SplicedLinked(ring, p, x);
  }

  ghost function Unsplice(ring: seq<ListItem>, p: nat): (r: seq<ListItem>)
    requires p < |ring|
    ensures |r| == |ring| - 1
    ensures forall i :: 0 <= i < |r| ==> r[i] == if i < p then ring[i] else ring[i + 1]
  {
    ring[..p] + ring[p + 1..]
  }

  /** Where the index is after item `p` is gone: it steps back when it stood there. */
  lemma UnspliceAt(ring: seq<ListItem>, p: nat, at: nat)
    requires 1 <= p < |ring| && at < |ring|
    ensures |Unsplice(ring, p)| == |ring| - 1 && Unsplice(ring, p)[0] == ring[0]
    ensures Unsplice(ring, p)[if at < p then at else at - 1] == if at == p then ring[p - 1] else ring[at]
  {
  }

  lemma UnspliceDistinct(ring: seq<ListItem>, p: nat)
    requires Distinct(ring) && p < |ring|
    ensures Distinct(Unsplice(ring, p)) && ring[p] !in Unsplice(ring, p)
  {
  }

  lemma UnsplicedLinked(ring: seq<ListItem>, p: nat)
    requires 1 <= p < |ring|
    requires var q := Succ(p, |ring|); ring[p - 1].next == ring[q] && ring[q].previous == ring[p - 1]
    requires forall i :: 0 <= i < |ring| && i != p - 1 && i != p ==> LinkAt(ring, i)
    ensures Linked(Unsplice(ring, p))
  {
    var r := Unsplice(ring, p);
    forall i | 0 <= i < |r| ensures LinkAt(r, i) {
      if i < p - 1 {
        assert LinkAt(ring, i);
      } else if p <= i {
        assert LinkAt(ring, i + 1);
      }
    }
  }

  /** The pointer writes of uxListRemove: the neighbours of ring position `p` are linked to each other. */
  method LinkOut(before: ListItem, after: ListItem, ghost ring: seq<ListItem>, ghost p: nat)
    requires Distinct(ring) && Linked(ring) && 1 <= p < |ring|
    requires before == ring[p - 1] && after == ring[Succ(p, |ring|)]
    modifies before`next, after`previous
    ensures Linked(Unsplice(ring, p))
  {
    AllLinked(ring);
    after.previous := before;
    before.next := after;
    forall i | 0 <= i < |ring| && i != p - 1 && i != p ensures LinkAt(ring, i) {
      assert old(LinkAt(ring, i));
      DistinctAt(ring, i, p - 1);
      DistinctAt(ring, Succ(i, |ring|), Succ(p, |ring|));
    }
    UnsplicedLinked(ring, p);
  }

  /** Values and owners of the items, as the sorted-sequence specification sees them. */
  ghost function EntriesOf(items: seq<ListItem>): seq<Entry>
    reads items`value
  {
    if items == [] then [] else [Entry(items[0].value, items[0].owner)] + EntriesOf(items[1..])
  }

  lemma {:induction false} EntriesOfSplice(items: seq<ListItem>, p: nat, x: ListItem)
    requires p <= |items|
    requires forall i :: 0 <= i < p ==> items[i].value <= x.value
    requires p < |items| ==> x.value < items[p].value
    ensures EntriesOf(Splice(items, p, x)) == InsertSorted(EntriesOf(items), Entry(x.value, x.owner))
  {
    if p == 0 {
      assert Splice(items, 0, x)[1..] == items;
    } else {
      assert Splice(items, p, x)[1..] == Splice(items[1..], p - 1, x);
      EntriesOfSplice(items[1..], p - 1, x);
    }
  }

  lemma InsertEntries(ring: seq<ListItem>, p: nat, x: ListItem)
    requires 1 <= p <= |ring|
    requires forall i :: 1 <= i < p ==> ring[i].value <= x.value
    requires p < |ring| ==> x.value < ring[p].value
    ensures EntriesOf(Splice(ring, p, x)[1..]) == InsertSorted(EntriesOf(ring[1..]), Entry(x.value, x.owner))
  {
    assert Splice(ring, p, x)[1..] == Splice(ring[1..], p - 1, x);
    EntriesOfSplice(ring[1..], p - 1, x);
  }

  /** An order of visits with one item taken out. */
  ghost function Unvisit(visits: seq<ListItem>, x: ListItem): seq<ListItem> {
    if visits == [] then [] else (if visits[0] == x then [] else [visits[0]]) + Unvisit(visits[1..], x)
  }

  ghost predicate DistinctOwners(items: seq<ListItem>) {
    forall i, j :: 0 <= i < j < |items| ==> items[i].owner != items[j].owner
  }

  /** When no two items have the same owner, taking an item out is dropping the entries of its owner. */
  lemma {:induction false} UnvisitEntries(items: seq<ListItem>, x: ListItem)
    requires DistinctOwners(items) && x in items
    ensures EntriesOf(Unvisit(items, x)) == Without(EntriesOf(items), x.owner)
  {
    if items[0] == x {
      forall i | 0 <= i < |items| - 1 ensures items[1..][i].owner != x.owner {
        assert items[i + 1].owner != items[0].owner;
      }
      OwnerAbsent(items[1..], x);
      assert Unvisit(items, x) == items[1..];
      EntriesOfCons(items[0], items[1..], x.owner);
      assert items == [items[0]] + items[1..];
    } else {
      assert x in items[1..];
      assert items[0].owner != x.owner by {
        var k :| 1 <= k < |items| && items[k] == x;
      }
      UnvisitEntries(items[1..], x);
      EntriesOfCons(items[0], items[1..], x.owner);
      EntriesOfCons(items[0], Unvisit(items[1..], x), x.owner);
      assert items == [items[0]] + items[1..];
    }
  }

  lemma EntriesOfCons(x: ListItem, items: seq<ListItem>, id: nat)
    ensures EntriesOf([x] + items) == [Entry(x.value, x.owner)] + EntriesOf(items)
    ensures Without(EntriesOf([x] + items), id)
         == (if x.owner == id then [] else [Entry(x.value, x.owner)]) + Without(EntriesOf(items), id)
  {
    assert ([x] + items)[1..] == items;
    assert ([Entry(x.value, x.owner)] + EntriesOf(items))[1..] == EntriesOf(items);
  }

  lemma {:induction false} OwnerAbsent(items: seq<ListItem>, x: ListItem)
    requires forall i :: 0 <= i < |items| ==> items[i].owner != x.owner
    ensures Unvisit(items, x) == items && Without(EntriesOf(items), x.owner) == EntriesOf(items)
  {
    if items != [] {
      OwnerAbsent(items[1..], x);
    }
  }

  /** An item put in at the end position is met last, but for the index's own item. */
  lemma InsertEndVisits(ring: seq<ListItem>, at: nat, x: ListItem)
    requires at < |ring|
    ensures var now := VisitOrder(Splice(ring, EndPosition(ring, at), x), if at == 0 then 0 else at + 1);
            var was := VisitOrder(ring, at);
            now == if at == 0 then was + [x] else was[..|was| - 1] + [x, ring[at]]
  {
    var r := Splice(ring, EndPosition(ring, at), x);
    if at == 0 {
      assert r[1..] == ring[1..] + [x];
    } else {
      assert r[at + 2..] == ring[at + 1..];
      assert r[1..at + 2] == ring[1..at] + [x, ring[at]];
      assert VisitOrder(ring, at)[..|ring| - 2] == ring[at + 1..] + ring[1..at];
    }
  }

  /** Where the index stands after one move of a walk. */
  ghost function NextAt(ring: seq<ListItem>, at: nat): (r: nat)
    requires at < |ring| && 2 <= |ring|
    ensures 1 <= r < |ring|
  {
    if at + 1 == |ring| then 1 else at + 1
  }

  /** One move of a walk takes the front item and puts it last, so a walk meets every item in turn. */
  lemma NextVisits(ring: seq<ListItem>, at: nat)
    requires at < |ring| && 2 <= |ring|
    ensures var was := VisitOrder(ring, at);
            was != [] && was[0] == ring[NextAt(ring, at)] && VisitOrder(ring, NextAt(ring, at)) == was[1..] + [was[0]]
  {
    if at + 1 == |ring| {
      assert ring[at + 1..] == [] && VisitOrder(ring, at) == ring[1..];
    } else {
      assert ring[at + 1..] == [ring[at + 1]] + ring[at + 2..];
      assert ring[1..at + 2] == ring[1..at + 1] + [ring[at + 1]];
    }
  }

  lemma {:induction false} UnvisitAt(visits: seq<ListItem>, k: nat)
    requires k < |visits| && forall i :: 0 <= i < |visits| && i != k ==> visits[i] != visits[k]
    ensures Unvisit(visits, visits[k]) == visits[..k] + visits[k + 1..]
  {
    if k == 0 {
      UnvisitNone(visits[1..], visits[0]);
    } else {
      UnvisitAt(visits[1..], k - 1);
      assert visits[..k] == [visits[0]] + visits[1..][..k - 1];
    }
  }

  lemma {:induction false} UnvisitNone(visits: seq<ListItem>, x: ListItem)
    requires x !in visits
    ensures Unvisit(visits, x) == visits
  {
    if visits != [] {
      UnvisitNone(visits[1..], x);
    }
  }

  lemma {:induction false} UnvisitConcat(a: seq<ListItem>, b: seq<ListItem>, x: ListItem)
    ensures Unvisit(a + b, x) == Unvisit(a, x) + Unvisit(b, x)
  {
    if a == [] {
      assert a + b == b;
    } else {
      assert (a + b)[1..] == a[1..] + b;
      UnvisitConcat(a[1..], b, x);
    }
  }

  lemma NotInSlice(ring: seq<ListItem>, p: nat, lo: nat, hi: nat)
    requires Distinct(ring) && p < |ring| && lo <= hi <= |ring| && (p < lo || hi <= p)
    ensures ring[p] !in ring[lo..hi]
  {
  }

  lemma UnvisitSlice(ring: seq<ListItem>, p: nat, lo: nat, hi: nat)
    requires Distinct(ring) && p < |ring| && lo <= hi <= |ring|
    ensures Unvisit(ring[lo..hi], ring[p]) == if lo <= p < hi then ring[lo..p] + ring[p + 1..hi] else ring[lo..hi]
  {
    if lo <= p < hi {
      var s := ring[lo..hi];
      assert s[p - lo] == ring[p];
      UnvisitAt(s, p - lo);
      assert s[..p - lo] == ring[lo..p] && s[p - lo + 1..] == ring[p + 1..hi];
    } else {
      NotInSlice(ring, p, lo, hi);
      UnvisitNone(ring[lo..hi], ring[p]);
    }
  }

  lemma UnspliceAll(ring: seq<ListItem>, p: nat)
    requires p < |ring|
    ensures |Unsplice(ring, p)| == |ring| - 1
    ensures forall k :: 0 <= k < |ring| - 1 ==> Unsplice(ring, p)[k] == ring[if k < p then k else k + 1]
  {
  }

  /** A slice of the ring without its p-th item, in the positions of the shorter ring. */
  lemma UnspliceSlice(ring: seq<ListItem>, p: nat, lo: nat, hi: nat)
    requires p < |ring| && lo <= hi <= |ring|
    ensures var u := Unsplice(ring, p);
            var a := if lo <= p then lo else lo - 1;
            var b := if hi <= p then hi else hi - 1;
            a <= b ==> u[a..b] == if lo <= p < hi then ring[lo..p] + ring[p + 1..hi] else ring[lo..hi]
  {
    var u := Unsplice(ring, p);
    UnspliceAll(ring, p);
    if lo <= p < hi {
      assert u[lo..hi - 1] == ring[lo..p] + ring[p + 1..hi];
    } else if p < lo {
      forall k | 0 <= k < hi - lo ensures u[lo - 1..hi - 1][k] == ring[lo..hi][k] {
        assert u[lo - 1 + k] == ring[lo + k];
      }
      assert u[lo - 1..hi - 1] == ring[lo..hi];
    } else {
      assert u[lo..hi] == ring[lo..hi];
    }
  }

  lemma UnvisitIsUnsplice(ring: seq<ListItem>, p: nat, lo: nat, hi: nat)
    requires Distinct(ring) && p < |ring| && lo <= hi <= |ring|
    ensures var u := Unsplice(ring, p);
            var a := if lo <= p then lo else lo - 1;
            var b := if hi <= p then hi else hi - 1;
            a <= b ==> Unvisit(ring[lo..hi], ring[p]) == u[a..b]
  {
    UnvisitSlice(ring, p, lo, hi);
    UnspliceSlice(ring, p, lo, hi);
  }

  /** Removing an item, with the index stepping back when it stood there, only takes it out of the order of visits. */
  lemma RemoveVisits(ring: seq<ListItem>, p: nat, at: nat)
    requires Distinct(ring) && 1 <= p < |ring| && at < |ring|
    ensures VisitOrder(Unsplice(ring, p), if at < p then at else at - 1) == Unvisit(VisitOrder(ring, at), ring[p])
  {
    hide Distinct, Unvisit, Unsplice;
    var u := Unsplice(ring, p);
    var next := (if at < p then at else at - 1) + 1;
    assert ring[at + 1..] == ring[at + 1..|ring|] && u[next..|u|] == u[next..];
    UnvisitConcat(ring[at + 1..], ring[1..at + 1], ring[p]);
    UnvisitIsUnsplice(ring, p, at + 1, |ring|);
    UnvisitIsUnsplice(ring, p, 1, at + 1);
  }

  lemma RemoveItems(ring: seq<ListItem>, p: nat)
    requires Distinct(ring) && 1 <= p < |ring|
    ensures Unsplice(ring, p)[1..] == Unvisit(ring[1..], ring[p])
  {
    UnvisitSlice(ring, p, 1, |ring|);
    UnspliceSlice(ring, p, 1, |ring|);
    assert ring[1..] == ring[1..|ring|];
  }

  /** Every item behind the end marker is recorded as being in `list`. */
  ghost predicate Owned(list: List, ring: seq<ListItem>)
    reads ring`container, ring`value
  {
    forall i :: 1 <= i < |ring| ==> ring[i].container == list && ring[i].value <= MAX_DELAY
  }

  /** Where the index's own item is after the insertion. */
  lemma SpliceAt(ring: seq<ListItem>, p: nat, at: nat, x: ListItem)
    requires 1 <= p <= |ring| && at < |ring|
    ensures |Splice(ring, p, x)| == |ring| + 1 && Splice(ring, p, x)[0] == ring[0]
    ensures Splice(ring, p, x)[if at < p then at else at + 1] == ring[at]
  {
  }

  lemma SpliceOwned(list: List, ring: seq<ListItem>, p: nat, x: ListItem)
    requires Owned(list, ring) && 1 <= p <= |ring| && x.container == list && x.value <= MAX_DELAY
    ensures Owned(list, Splice(ring, p, x))
  {
  }

  lemma UnspliceOwned(list: List, ring: seq<ListItem>, p: nat)
    requires Owned(list, ring) && 1 <= p < |ring|
    ensures Owned(list, Unsplice(ring, p))
  {
  }

  lemma SpliceLast(ring: seq<ListItem>, x: ListItem)
    requires 0 < |ring|
    ensures Splice(ring, |ring|, x)[1..] == ring[1..] + [x]
  {
  }

  class List {
    const end: ListItem
    var index: ListItem
    var count: nat
    ghost var ring: seq<ListItem>
    ghost var at: nat

    ghost predicate Valid()
      reads this, ring
    {
      && 0 < |ring| && ring[0] == end
      && Distinct(ring) && Linked(ring)
      && end.value == MAX_DELAY
      && Owned(this, ring)
      && at < |ring| && index == ring[at]
      && count == |ring| - 1
    }

    ghost function Items(): seq<ListItem>
      reads this
      requires 0 < |ring|
    {
      ring[1..]
    }

    /** The items from where the index stands, itself last. */
    ghost function Visits(): seq<ListItem>
      reads this
      requires at < |ring|
    {
      VisitOrder(ring, at)
    }

    /** vListInitialise. */
    constructor ()
      ensures Valid() && Items() == [] && fresh(end)
    {
      var e := new ListItem(0, MAX_DELAY);
      end, index, count, ring, at := e, e, 0, [e], 0;
      new;
      e.next, e.previous := e, e;
    }

    /** The pointer writes and bookkeeping that both insertions share. */
    method Attach(x: ListItem, before: ListItem, after: ListItem, ghost p: nat)
      requires Valid() && x !in ring && x.value <= MAX_DELAY && 1 <= p <= |ring|
      requires before == ring[p - 1] && after == ring[if p == |ring| then 0 else p]
      modifies this`count, this`ring, this`at, x`next, x`previous, x`container, ring`next, ring`previous
      ensures Valid() && index == old(index) && x.container == this
      ensures ring == Splice(old(ring), p, x) && at == if old(at) < p then old(at) else old(at) + 1
    {
      hide Distinct, Linked, LinkAt, Owned, Splice;
      SpliceDistinct(ring, p, x);
      SpliceAt(ring, p, at, x);
      x.container := this;
      SpliceOwned(this, ring, p, x);
      ghost var longer := Splice(ring, p, x);
      assert Owned(this, longer);
      LinkIn(before, x, after, ring, p);
      assert Owned(this, longer) && Linked(longer);
      count := count + 1;
      ring := longer;
      at := if at < p then at else at + 1;
    }

    /** vListInsertEnd: the new item goes just before the index, wherever that is. */
    method InsertEnd(x: ListItem)
      requires Valid() && x !in ring && x.value <= MAX_DELAY
      modifies this`count, this`ring, this`at, x`next, x`previous, x`container, ring`next, ring`previous
      ensures Valid() && index == old(index) && x.container == this
      ensures ring == Splice(old(ring), EndPosition(old(ring), old(at)), x)
      ensures at == if old(at) == 0 then 0 else old(at) + 1
      ensures var was := old(Visits());
              Visits() == if old(at) == 0 then was + [x] else was[..|was| - 1] + [x, index]
      ensures old(at) == 0 ==> Items() == old(Items()) + [x]
    {
      hide Distinct, Linked, LinkAt, Owned, Splice, VisitOrder;
      InsertEndVisits(ring, at, x);
      SpliceLast(ring, x);
      Between(ring, EndPosition(ring, at));
      Attach(x, index.previous, index, EndPosition(ring, at));
    }

    /** The search loop of vListInsert: it stops before the first item with a larger value. */
    method FindPosition(value: nat) returns (cursor: ListItem, ghost p: nat)
      requires Valid() && value <= MAX_DELAY
      ensures 1 <= p <= |ring| && cursor == ring[p - 1]
      ensures forall i :: 1 <= i < p ==> ring[i].value <= value
      ensures p < |ring| ==> value < ring[p].value
    {
      AllLinked(ring);
      cursor, p := end, 1;
      if value == MAX_DELAY {
        p := |ring|;
        assert LinkAt(ring, p - 1);
        cursor := end.previous;
      } else {
        assert LinkAt(ring, 0);
        while cursor.next.value <= value
          invariant 1 <= p <= |ring| && cursor == ring[p - 1] && LinkAt(ring, p - 1)
          invariant forall i :: 1 <= i < p ==> ring[i].value <= value
          decreases |ring| - p
        {
          cursor := cursor.next;
          p := p + 1;
          assert LinkAt(ring, p - 1);
        }
      }
    }

    /** vListInsert: after the first run of items whose values are not larger. */
    method Insert(x: ListItem) returns (ghost p: nat)
      requires Valid() && x !in ring && x.value <= MAX_DELAY
      modifies this`count, this`ring, this`at, x`next, x`previous, x`container, ring`next, ring`previous
      ensures Valid() && index == old(index) && x.container == this
      ensures 1 <= p <= |old(ring)| && ring == Splice(old(ring), p, x)
      ensures forall i :: 1 <= i < p ==> old(ring)[i].value <= x.value
      ensures p < |old(ring)| ==> x.value < old(ring)[p].value
      ensures EntriesOf(Items()) == InsertSorted(old(EntriesOf(Items())), Entry(x.value, x.owner))
    {
      hide Distinct, Linked, LinkAt, Owned, Splice, EntriesOf, InsertSorted;
      var cursor;
      cursor, p := FindPosition(x.value);
      InsertEntries(ring, p, x);
      Between(ring, p);
      ghost var items := Splice(ring, p, x)[1..];
      ghost var sorted := EntriesOf(items);
      Attach(x, cursor, cursor.next, p);
      assert EntriesOf(items) == sorted;
    }

    /** The pointer writes and bookkeeping of uxListRemove, for the item at ring position `p`. */
    method Detach(x: ListItem, ghost p: nat)
      requires Valid() && 1 <= p < |ring| && ring[p] == x
      modifies this`index, this`count, this`ring, this`at, x`container, ring`next, ring`previous
      ensures Valid() && x.container == null && ring == Unsplice(old(ring), p)
      ensures at == if old(at) < p then old(at) else old(at) - 1
    {
      hide Distinct, Linked, LinkAt, Owned, Unsplice;
      ghost var rest := Unsplice(ring, p);
      Neighbours(ring, p);
      DistinctAt(ring, at, p);
      UnspliceDistinct(ring, p);
      UnspliceOwned(this, ring, p);
      UnspliceAt(ring, p, at);
      assert x !in rest && Owned(this, rest);
      var before, after := x.previous, x.next;
      LinkOut(before, after, ring, p);
      if index == x {
        index := before;
      }
      x.container := null;
      assert Owned(this, rest) && Linked(rest);
      count := count - 1;
      ring := rest;
      at := if at < p then at else at - 1;
    }

    /** uxListRemove, for an item whose container is this list. */
    method Remove(x: ListItem) returns (left: nat, ghost p: nat)
      requires Valid() && x in Items()
      modifies this`index, this`count, this`ring, this`at, x`container, ring`next, ring`previous
      ensures Valid() && left == count && x.container == null
      ensures 1 <= p < |old(ring)| && old(ring)[p] == x && ring == Unsplice(old(ring), p)
      ensures at == if old(at) < p then old(at) else old(at) - 1
      ensures Items() == Unvisit(old(Items()), x) && Visits() == Unvisit(old(Visits()), x)
      ensures old(DistinctOwners(Items())) ==> EntriesOf(Items()) == Without(old(EntriesOf(Items())), x.owner)
    {
      hide Distinct, Linked, LinkAt, Owned, Unsplice, Unvisit, VisitOrder, EntriesOf, Without, DistinctOwners;
      p :| 1 <= p < |ring| && ring[p] == x;
      RemoveItems(ring, p);
      RemoveVisits(ring, p, at);
      ghost var items := Unsplice(ring, p)[1..];
      if DistinctOwners(Items()) {
        UnvisitEntries(Items(), x);
      }
      Detach(x, p);
      assert EntriesOf(items) == old(EntriesOf(items));
      left := count;
    }

    /** listGET_OWNER_OF_NEXT_ENTRY: the index moves on to the next item, over the end marker. */
    method GetOwnerOfNextEntry() returns (owner: nat)
      requires Valid() && count > 0
      modifies this`index, this`at
      ensures Valid() && at == NextAt(ring, old(at))
      ensures owner == old(Visits())[0].owner
    {
      assert LinkAt(ring, at) && LinkAt(ring, 0);
      index := index.next;
      at := Succ(at, |ring|);
      if index == end {
        DistinctAt(ring, at, 0);
        index := index.next;
        at := Succ(at, |ring|);
      }
      owner := index.owner;
    }
  }
}
