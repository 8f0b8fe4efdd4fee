/**
 The value order that vListInsert keeps: a sequence of entries with nondecreasing
 keys, where an entry with a key already present goes after the old ones.
 The pointer list (PointerList) refines it, and the two timer lists hold values of it.
 */
module Entries {
  datatype Entry = Entry(key: nat, id: nat)

  ghost predicate Sorted(list: seq<Entry>) {
    forall i, j :: 0 <= i < j < |list| ==> list[i].key <= list[j].key
  }

  function InsertSorted(list: seq<Entry>, x: Entry): (r: seq<Entry>)
    ensures |r| == |list| + 1
  {
    if list == [] || x.key < list[0].key then [x] + list
    else [list[0]] + InsertSorted(list[1..], x)
  }

  /** Drops every entry of one owner. */
  function Without(list: seq<Entry>, id: nat): seq<Entry> {
    if list == [] then []
    else (if list[0].id == id then [] else [list[0]]) + Without(list[1..], id)
  }

  /** The keys that one owner has in the list, in list order. */
  function KeysOf(list: seq<Entry>, id: nat): seq<nat> {
    if list == [] then []
    else (if list[0].id == id then [list[0].key] else []) + KeysOf(list[1..], id)
  }

  ghost predicate DistinctIds(list: seq<Entry>) {
    forall i, j :: 0 <= i < j < |list| ==> list[i].id != list[j].id
  }

  /** A list whose keys are offsets from `base`, read with absolute keys. */
  function Lift(list: seq<Entry>, base: nat): seq<Entry> {
    if list == [] then [] else [Entry(base + list[0].key, list[0].id)] + Lift(list[1..], base)
  }

  lemma {:induction false} LiftAt(list: seq<Entry>, base: nat)
    ensures |Lift(list, base)| == |list|
    ensures forall i :: 0 <= i < |list| ==> Lift(list, base)[i] == Entry(base + list[i].key, list[i].id)
  {
    if list != [] {
      LiftAt(list[1..], base);
    }
  }

  /** The position that a sorted insertion chooses: after every entry that is not larger. */
  lemma {:induction false} InsertPosition(list: seq<Entry>, x: Entry, p: nat)
    requires p <= |list|
    requires forall i :: 0 <= i < p ==> list[i].key <= x.key
    requires p < |list| ==> x.key < list[p].key
    ensures InsertSorted(list, x) == list[..p] + [x] + list[p..]
  {
    if p > 0 {
      InsertPosition(list[1..], x, p - 1);
      assert list[1..][..p - 1] == list[1..p] && list[1..][p - 1..] == list[p..];
      assert [list[0]] + list[1..p] == list[..p];
    }
  }

  lemma {:induction false} InsertMembers(list: seq<Entry>, x: Entry)
    ensures forall e :: e in InsertSorted(list, x) <==> e == x || e in list
  {
    if list == [] || x.key < list[0].key {
    } else {
      InsertMembers(list[1..], x);
      assert list == [list[0]] + list[1..];
    }
  }

  lemma {:induction false} InsertKeepsSorted(list: seq<Entry>, x: Entry)
    requires Sorted(list)
    ensures Sorted(InsertSorted(list, x))
  {
    if list == [] || x.key < list[0].key {
    } else {
      InsertKeepsSorted(list[1..], x);
      InsertMembers(list[1..], x);
      var r := InsertSorted(list[1..], x);
      forall i | 0 <= i < |r| ensures list[0].key <= r[i].key {
        assert r[i] in r;
        assert r[i] == x || r[i] in list[1..];
      }
    }
  }

  lemma {:induction false} InsertKeepsDistinct(list: seq<Entry>, x: Entry)
    requires DistinctIds(list)
    requires forall e :: e in list ==> e.id != x.id
    ensures DistinctIds(InsertSorted(list, x))
  {
    if list == [] || x.key < list[0].key {
    } else {
      InsertKeepsDistinct(list[1..], x);
      InsertMembers(list[1..], x);
      var r := InsertSorted(list[1..], x);
      forall i | 0 <= i < |r| ensures list[0].id != r[i].id {
        assert r[i] in r;
        assert r[i] == x || r[i] in list[1..];
      }
    }
  }

  lemma {:induction false} LiftInsert(list: seq<Entry>, x: Entry, base: nat)
    ensures Lift(InsertSorted(list, x), base) == InsertSorted(Lift(list, base), Entry(base + x.key, x.id))
  {
    if list == [] || x.key < list[0].key {
      assert ([x] + list)[1..] == list;
    } else {
      LiftInsert(list[1..], x, base);
      assert Lift(list, base)[1..] == Lift(list[1..], base);
    }
  }

  /** Insertion below a block of larger keys does not disturb that block. */
  lemma {:induction false} InsertLeft(a: seq<Entry>, b: seq<Entry>, x: Entry)
    requires forall i :: 0 <= i < |b| ==> x.key < b[i].key
    ensures InsertSorted(a + b, x) == InsertSorted(a, x) + b
  {
    if a == [] {
      assert a + b == b;
      InsertPosition(b, x, 0);
    } else if x.key < a[0].key {
    } else {
      assert (a + b)[1..] == a[1..] + b;
      InsertLeft(a[1..], b, x);
    }
  }

  /** Insertion above a block of keys that are not larger does not disturb that block. */
  lemma {:induction false} InsertRight(a: seq<Entry>, b: seq<Entry>, x: Entry)
    requires forall i :: 0 <= i < |a| ==> a[i].key <= x.key
    ensures InsertSorted(a + b, x) == a + InsertSorted(b, x)
  {
    if a == [] {
      assert a + b == b;
    } else {
      assert (a + b)[1..] == a[1..] + b;
      InsertRight(a[1..], b, x);
    }
  }

  lemma {:induction false} WithoutConcat(a: seq<Entry>, b: seq<Entry>, id: nat)
    ensures Without(a + b, id) == Without(a, id) + Without(b, id)
  {
    if a == [] {
      assert a + b == b;
    } else {
      assert (a + b)[1..] == a[1..] + b;
      WithoutConcat(a[1..], b, id);
    }
  }

  lemma {:induction false} LiftWithout(list: seq<Entry>, base: nat, id: nat)
    ensures Lift(Without(list, id), base) == Without(Lift(list, base), id)
  {
    if list != [] {
      LiftWithout(list[1..], base, id);
      assert Lift(list, base)[1..] == Lift(list[1..], base);
      var rest := Without(list[1..], id);
      if list[0].id != id {
        assert Without(list, id) == [list[0]] + rest;
        assert ([list[0]] + rest)[1..] == rest;
      } else {
        assert Without(list, id) == rest;
      }
    }
  }

  lemma {:induction false} WithoutMembers(list: seq<Entry>, id: nat)
    ensures forall e :: e in Without(list, id) <==> e in list && e.id != id
  {
    if list != [] {
      WithoutMembers(list[1..], id);
      assert list == [list[0]] + list[1..];
    }
  }

  lemma {:induction false} WithoutKeepsOrder(list: seq<Entry>, id: nat)
    ensures Sorted(list) ==> Sorted(Without(list, id))
    ensures DistinctIds(list) ==> DistinctIds(Without(list, id))
  {
    if list != [] {
      WithoutKeepsOrder(list[1..], id);
      WithoutMembers(list[1..], id);
      var r := Without(list[1..], id);
      forall i | 0 <= i < |r| ensures r[i] in list[1..] {
        assert r[i] in r;
      }
    }
  }

  lemma {:induction false} KeysOfConcat(a: seq<Entry>, b: seq<Entry>, id: nat)
    ensures KeysOf(a + b, id) == KeysOf(a, id) + KeysOf(b, id)
  {
    if a == [] {
      assert a + b == b;
    } else {
      var head := if a[0].id == id then [a[0].key] else [];
      assert (a + b)[1..] == a[1..] + b;
      assert KeysOf(a + b, id) == head + KeysOf(a[1..] + b, id);
      KeysOfConcat(a[1..], b, id);
      assert head + (KeysOf(a[1..], id) + KeysOf(b, id)) == (head + KeysOf(a[1..], id)) + KeysOf(b, id);
    }
  }

  lemma {:induction false} KeysOfWithout(list: seq<Entry>, id: nat, other: nat)
    ensures KeysOf(Without(list, other), id) == if id == other then [] else KeysOf(list, id)
  {
    if list != [] {
      KeysOfWithout(list[1..], id, other);
      KeysOfConcat(if list[0].id == other then [] else [list[0]], Without(list[1..], other), id);
    }
  }

  lemma {:induction false} KeysOfInsert(list: seq<Entry>, x: Entry, id: nat)
    requires x.id != id || KeysOf(list, id) == []
    ensures KeysOf(InsertSorted(list, x), id) == if x.id == id then [x.key] else KeysOf(list, id)
  {
    if list == [] || x.key < list[0].key {
      assert ([x] + list)[1..] == list;
    } else {
      KeysOfInsert(list[1..], x, id);
    }
  }

  lemma {:induction false} KeysOfMember(list: seq<Entry>, e: Entry)
    ensures e in list <==> e.key in KeysOf(list, e.id)
  {
    if list != [] {
      KeysOfMember(list[1..], e);
      assert list == [list[0]] + list[1..];
    }
  }
}
