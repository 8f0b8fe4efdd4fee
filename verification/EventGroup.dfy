/**
 Event groups (event_groups.c).  A word of event bits is the set of its bit positions: |,
 & and &~ are union, intersection and difference.  The top byte of a waiter's list item
 holds control bits beside the bits that it waits for.
 */
module EventGroup {
  type Bits = set<nat>

  /** eventCLEAR_EVENTS_ON_EXIT_BIT, eventUNBLOCKED_DUE_TO_BIT_SET and eventWAIT_FOR_ALL_BITS. */
  const CLEAR_ON_EXIT: nat := 24
  const UNBLOCKED: nat := 25
  const WAIT_FOR_ALL: nat := 26

  /** eventEVENT_BITS_CONTROL_BYTES. */
  const CONTROL: Bits := {24, 25, 26, 27, 28, 29, 30, 31}

  /** A task on xTasksWaitingForBits, with the value of its list item. */
  datatype Waiter = Waiter(task: nat, value: Bits)

  datatype Group = Group(bits: Bits, waiting: seq<Waiter>)

  /** The list item's value for a task that waits for `bits`. */
  function ItemValue(bits: Bits, clearOnExit: bool, waitForAll: bool): Bits {
    bits + (if clearOnExit then {CLEAR_ON_EXIT} else {}) + (if waitForAll then {WAIT_FOR_ALL} else {})
  }

  /** prvTestWaitCondition. */
  predicate TestWaitCondition(current: Bits, waitFor: Bits, waitForAll: bool) {
    if waitForAll then current * waitFor == waitFor else current * waitFor != {}
  }

  /** The wait condition that is packed into a list item. */
  predicate Satisfied(current: Bits, w: Waiter) {
    TestWaitCondition(current, w.value - CONTROL, WAIT_FOR_ALL in w.value)
  }

  /** The waiters that stay blocked, and those that are released, in list order. */
  function Unsatisfied(waiting: seq<Waiter>, current: Bits): seq<Waiter> {
    if waiting == [] then []
    else
      var n := |waiting| - 1;
      Unsatisfied(waiting[..n], current) + if Satisfied(current, waiting[n]) then [] else [waiting[n]]
  }

  function Released(waiting: seq<Waiter>, current: Bits): seq<Waiter> {
    if waiting == [] then []
    else
      var n := |waiting| - 1;
      Released(waiting[..n], current) + if Satisfied(current, waiting[n]) then [waiting[n]] else []
  }

  /** The bits that the released waiters asked to be cleared. */
  ghost function Cleared(waiting: seq<Waiter>, current: Bits): Bits {
    set w, b | w in waiting && Satisfied(current, w) && CLEAR_ON_EXIT in w.value && b in w.value - CONTROL :: b
  }

  // ----- what the calls do -----

  ghost function AfterSetBits(g: Group, bits: Bits): Group {
    var now := g.bits + bits;
    Group(now - Cleared(g.waiting, now), Unsatisfied(g.waiting, now))
  }

  /** The new group, and whether the call returns without blocking. */
  ghost function AfterWaitBits(g: Group, task: nat, waitFor: Bits, clearOnExit: bool, waitForAll: bool,
                               mayBlock: bool): (Group, bool)
  {
    if TestWaitCondition(g.bits, waitFor, waitForAll)
    then (if clearOnExit then g.(bits := g.bits - waitFor) else g, true)
    else if !mayBlock then (g, true)
    else (g.(waiting := g.waiting + [Waiter(task, ItemValue(waitFor, clearOnExit, waitForAll))]), false)
  }

  ghost function AfterSync(g: Group, task: nat, bits: Bits, waitFor: Bits, mayBlock: bool): (Group, bool) {
    var after := AfterSetBits(g, bits);
    if (g.bits + bits) * waitFor == waitFor then (after.(bits := after.bits - waitFor), true)
    else if !mayBlock then (after, true)
    else (after.(waiting := after.waiting + [Waiter(task, ItemValue(waitFor, true, true))]), false)
  }

  /** No event bit is a control bit, every waiter waits for something, and no blocked waiter is satisfied. */
  ghost predicate NoneStranded(g: Group) {
    && g.bits !! CONTROL
    && forall w :: w in g.waiting ==> w.value - CONTROL != {} && !Satisfied(g.bits, w)
  }

  /** Clearing bits satisfies nobody. */
  lemma FewerBits(current: Bits, fewer: Bits, w: Waiter)
    requires fewer <= current && !Satisfied(current, w) && w.value - CONTROL != {}
    ensures !Satisfied(fewer, w)
  {
  }

  lemma {:induction false} UnsatisfiedMembers(waiting: seq<Waiter>, current: Bits)
    ensures forall w :: w in Unsatisfied(waiting, current) <==> w in waiting && !Satisfied(current, w)
    ensures forall w :: w in Released(waiting, current) <==> w in waiting && Satisfied(current, w)
  {
    if waiting != [] {
      var n := |waiting| - 1;
      UnsatisfiedMembers(waiting[..n], current);
      assert waiting == waiting[..n] + [waiting[n]];
    }
  }

  /** SetBits strands nobody, whatever waited before: it releases exactly the satisfied waiters. */
  lemma SetBitsStrandsNobody(g: Group, bits: Bits)
    requires NoneStranded(g) && bits !! CONTROL
    ensures NoneStranded(AfterSetBits(g, bits))
  {
    var now := g.bits + bits;
    UnsatisfiedMembers(g.waiting, now);
    forall w | w in AfterSetBits(g, bits).waiting ensures !Satisfied(AfterSetBits(g, bits).bits, w) {
      FewerBits(now, AfterSetBits(g, bits).bits, w);
    }
  }

  lemma ItemUnpacks(waitFor: Bits, clearOnExit: bool, waitForAll: bool)
    requires waitFor !! CONTROL
    ensures var v := ItemValue(waitFor, clearOnExit, waitForAll);
            v - CONTROL == waitFor && (CLEAR_ON_EXIT in v <==> clearOnExit) && (WAIT_FOR_ALL in v <==> waitForAll)
  {
  }

  lemma WaitBitsStrandsNobody(g: Group, task: nat, waitFor: Bits, clearOnExit: bool, waitForAll: bool, mayBlock: bool)
    requires NoneStranded(g) && waitFor !! CONTROL && waitFor != {}
    ensures NoneStranded(AfterWaitBits(g, task, waitFor, clearOnExit, waitForAll, mayBlock).0)
  {
    ItemUnpacks(waitFor, clearOnExit, waitForAll);
    forall w | w in g.waiting ensures !Satisfied(g.bits - waitFor, w) {
      FewerBits(g.bits, g.bits - waitFor, w);
    }
  }

  lemma SyncStrandsNobody(g: Group, task: nat, bits: Bits, waitFor: Bits, mayBlock: bool)
    requires NoneStranded(g) && bits !! CONTROL && waitFor !! CONTROL && waitFor != {}
    ensures NoneStranded(AfterSync(g, task, bits, waitFor, mayBlock).0)
  {
    ItemUnpacks(waitFor, true, true);
    SetBitsStrandsNobody(g, bits);
    var after := AfterSetBits(g, bits);
    forall w | w in after.waiting ensures !Satisfied(after.bits - waitFor, w) {
      FewerBits(after.bits, after.bits - waitFor, w);
    }
    var own := Waiter(task, ItemValue(waitFor, true, true));
    if (g.bits + bits) * waitFor != waitFor {
      FewerBits(g.bits + bits, after.bits, own);
    }
  }

  lemma CountAppend(list: seq<Waiter>, x: Waiter, w: Waiter)
    ensures multiset(list + [x])[w] == multiset(list)[w] + if x == w then 1 else 0
  {
    assert multiset(list + [x]) == multiset(list) + multiset{x};
  }

  lemma {:induction false} UnsatisfiedCount(waiting: seq<Waiter>, current: Bits, w: Waiter)
    ensures multiset(Unsatisfied(waiting, current))[w] == if Satisfied(current, w) then 0 else multiset(waiting)[w]
    ensures multiset(Released(waiting, current))[w] == if Satisfied(current, w) then multiset(waiting)[w] else 0
  {
    hide Satisfied;
    if waiting != [] {
      var n := |waiting| - 1;
      var x := waiting[n];
      UnsatisfiedCount(waiting[..n], current, w);
      assert waiting == waiting[..n] + [x];
      CountAppend(waiting[..n], x, w);
      if Satisfied(current, x) {
        CountAppend(Released(waiting[..n], current), x, w);
        assert Unsatisfied(waiting, current) == Unsatisfied(waiting[..n], current);
      } else {
        CountAppend(Unsatisfied(waiting[..n], current), x, w);
        assert Released(waiting, current) == Released(waiting[..n], current);
      }
    }
  }

  /** Who is released and what is cleared does not depend on the order of the list. */
  lemma OrderDoesNotMatter(a: seq<Waiter>, b: seq<Waiter>, current: Bits)
    requires multiset(a) == multiset(b)
    ensures multiset(Released(a, current)) == multiset(Released(b, current))
    ensures multiset(Unsatisfied(a, current)) == multiset(Unsatisfied(b, current))
    ensures Cleared(a, current) == Cleared(b, current)
  {
    forall w ensures multiset(Released(a, current))[w] == multiset(Released(b, current))[w]
                  && multiset(Unsatisfied(a, current))[w] == multiset(Unsatisfied(b, current))[w]
                  && (w in a <==> w in b)
    {
      UnsatisfiedCount(a, current, w);
      UnsatisfiedCount(b, current, w);
      assert w in a <==> w in multiset(a);
      assert w in b <==> w in multiset(b);
    }
  }

  function Notices(ws: seq<Waiter>, current: Bits): seq<Waiter> {
    if ws == [] then []
    else
      var n := |ws| - 1;
      Notices(ws[..n], current) + [Waiter(ws[n].task, current + {UNBLOCKED})]
  }

  /** What the walk tests of a list item, after splitting its value, is its wait condition. */
  lemma ControlBits(w: Waiter, current: Bits)
    ensures CLEAR_ON_EXIT in w.value * CONTROL <==> CLEAR_ON_EXIT in w.value
    ensures var waitedFor := w.value - CONTROL;
            Satisfied(current, w) <==>
              if WAIT_FOR_ALL !in w.value * CONTROL then waitedFor * current != {} else waitedFor * current == waitedFor
  {
  }

  /** What one more item adds to the results. */
  lemma WalkStep(all: seq<Waiter>, done: nat, current: Bits)
    requires done < |all|
    ensures var w := all[done];
            && Unsatisfied(all[..done + 1], current)
               == Unsatisfied(all[..done], current) + (if Satisfied(current, w) then [] else [w])
            && Notices(Released(all[..done + 1], current), current)
               == Notices(Released(all[..done], current), current)
                  + (if Satisfied(current, w) then [Waiter(w.task, current + {UNBLOCKED})] else [])
            && Cleared(all[..done + 1], current)
               == Cleared(all[..done], current)
                  + (if Satisfied(current, w) && CLEAR_ON_EXIT in w.value then w.value - CONTROL else {})
  {
    var w := all[done];
    assert all[..done + 1][..done] == all[..done];
    assert all[..done + 1] == all[..done] + [w];
    var r := Released(all[..done], current);
    assert (r + [w])[..|r|] == r;
    assert Released(all[..done + 1], current) == if Satisfied(current, w) then r + [w] else r;
  }

  /**
   The walk of xEventGroupSetBits has looked at the first `done` of `all` waiters: `list` is
   what was kept and what comes next, from position `i` on; `told` are the notices so far.
   */
  ghost predicate Walked(all: seq<Waiter>, done: nat, current: Bits, list: seq<Waiter>, i: nat, toClear: Bits,
                         told: seq<Waiter>)
  {
    && done <= |all|
    && list == Unsatisfied(all[..done], current) + all[done..]
    && i == |Unsatisfied(all[..done], current)|
    && toClear == Cleared(all[..done], current)
    && told == Notices(Released(all[..done], current), current)
  }

  lemma WalkStart(all: seq<Waiter>, current: Bits)
    ensures Walked(all, 0, current, all, 0, {}, [])
  {
  }

  lemma WalkBounds(all: seq<Waiter>, done: nat, current: Bits, list: seq<Waiter>, i: nat, toClear: Bits,
    told: seq<Waiter>)
    requires Walked(all, done, current, list, i, toClear, told)
    ensures i <= |list| && done <= |all| && |list| - i == |all| - done
  {
  }

  lemma WalkEnd(all: seq<Waiter>, current: Bits, list: seq<Waiter>, i: nat, toClear: Bits, told: seq<Waiter>)
    requires Walked(all, |all|, current, list, i, toClear, told)
    ensures list == Unsatisfied(all, current) && toClear == Cleared(all, current)
    ensures told == Notices(Released(all, current), current)
  {
    assert all[..|all|] == all && all[|all|..] == [];
  }

  lemma WalkTurn(all: seq<Waiter>, done: nat, current: Bits, list: seq<Waiter>, i: nat, toClear: Bits,
    told: seq<Waiter>)
    requires Walked(all, done, current, list, i, toClear, told) && done < |all|
    ensures i < |list|
    ensures var w := list[i];
            if Satisfied(current, w)
            then Walked(all, done + 1, current, list[..i] + list[i + 1..], i,
              toClear + (if CLEAR_ON_EXIT in w.value then w.value - CONTROL else {}),
              told + [Waiter(w.task, current + {UNBLOCKED})])
            else Walked(all, done + 1, current, list, i + 1, toClear, told)
  {
    hide Unsatisfied, Released, Cleared, Notices, Satisfied;
    var kept := Unsatisfied(all[..done], current);
    WalkStep(all, done, current);
    assert list[i] == all[done] && all[done..] == [all[done]] + all[done + 1..];
    assert list[..i] == kept && list[i + 1..] == all[done + 1..];
    assert list == (kept + [all[done]]) + all[done + 1..];
  }

  class EventGroup {
    var bits: Bits
    var waiting: seq<Waiter>
    /** What vTaskRemoveFromUnorderedEventList stored for each released task. */
    var released: seq<Waiter>

    ghost predicate Valid()
      reads this
    {
      NoneStranded(Value())
    }

    ghost function Value(): Group
      reads this
    {
      Group(bits, waiting)
    }

    constructor ()
      ensures Valid() && Value() == Group({}, []) && released == []
    {
      bits, waiting, released := {}, [], [];
    }

    /** xEventGroupSetBits, which returns the bits that are left. */
    method SetBits(bitsToSet: Bits) returns (now: Bits)
      requires Valid() && bitsToSet !! CONTROL
      modifies this
      ensures Valid() && Value() == AfterSetBits(old(Value()), bitsToSet) && now == bits
      ensures released == old(released) + Notices(Released(old(waiting), old(bits) + bitsToSet), old(bits) + bitsToSet)
    {
      hide Unsatisfied, Released, Cleared, Notices, NoneStranded, Satisfied, TestWaitCondition, Walked;
      ghost var all := waiting;
      ghost var done: nat := 0;
      ghost var told: seq<Waiter> := [];
      SetBitsStrandsNobody(Value(), bitsToSet);
      var toClear: Bits := {};
      bits := bits + bitsToSet;
      WalkStart(all, bits);
      var i := 0;
      while i < |waiting|
        invariant bits == old(bits) + bitsToSet && 0 <= i && done <= |all| && |waiting| - i == |all| - done
        invariant Walked(all, done, bits, waiting, i, toClear, told) && released == old(released) + told
        decreases |all| - done
      {
        var item := waiting[i];
        var control := item.value * CONTROL;
        var waitedFor := item.value - CONTROL;
        var matchFound := false;
        if WAIT_FOR_ALL !in control {
          matchFound := waitedFor * bits != {};
        } else {
          matchFound := waitedFor * bits == waitedFor;
        }
        ControlBits(item, bits);
        WalkTurn(all, done, bits, waiting, i, toClear, told);
        done := done + 1;
        if matchFound {
          if CLEAR_ON_EXIT in control {
            toClear := toClear + waitedFor;
          } else {
            assert toClear + {} == toClear;
          }
          released := released + [Waiter(item.task, bits + {UNBLOCKED})];
          told := told + [Waiter(item.task, bits + {UNBLOCKED})];
          waiting := waiting[..i] + waiting[i + 1..];
        } else {
          i := i + 1;
        }
        WalkBounds(all, done, bits, waiting, i, toClear, told);
      }
      WalkEnd(all, bits, waiting, i, toClear, told);
      bits := bits - toClear;
      now := bits;
    }

    /** xEventGroupClearBits. */
    method ClearBits(bitsToClear: Bits) returns (before: Bits)
      requires Valid() && bitsToClear !! CONTROL
      modifies this`bits
      ensures Valid() && before == old(bits) && Value() == Group(old(bits) - bitsToClear, old(waiting))
    {
      forall w | w in waiting ensures !Satisfied(bits - bitsToClear, w) {
        FewerBits(bits, bits - bitsToClear, w);
      }
      before := bits;
      bits := bits - bitsToClear;
    }

    /** xEventGroupWaitBits up to the point where the task blocks or returns; `mayBlock` is a block time that is not zero. */
    method WaitBits(task: nat, waitFor: Bits, clearOnExit: bool, waitForAll: bool, mayBlock: bool)
      returns (done: bool, seen: Bits)
      requires Valid() && waitFor !! CONTROL && waitFor != {}
      modifies this`bits, this`waiting
      ensures Valid() && (done ==> seen == old(bits))
      ensures (Value(), done) == AfterWaitBits(old(Value()), task, waitFor, clearOnExit, waitForAll, mayBlock)
    {
      WaitBitsStrandsNobody(Value(), task, waitFor, clearOnExit, waitForAll, mayBlock);
      done, seen := true, bits;
      if TestWaitCondition(bits, waitFor, waitForAll) {
        if clearOnExit {
          bits := bits - waitFor;
        }
      } else if mayBlock {
        waiting := waiting + [Waiter(task, ItemValue(waitFor, clearOnExit, waitForAll))];
        done, seen := false, {};
      }
    }

    /** xEventGroupSync up to the point where the task blocks or returns. */
    method Sync(task: nat, bitsToSet: Bits, waitFor: Bits, mayBlock: bool) returns (done: bool, seen: Bits)
      requires Valid() && bitsToSet !! CONTROL && waitFor !! CONTROL && waitFor != {}
      modifies this
      ensures Valid()
      ensures done ==> seen == if waitFor <= old(bits) + bitsToSet then old(bits) + bitsToSet else bits
      ensures (Value(), done) == AfterSync(old(Value()), task, bitsToSet, waitFor, mayBlock)
    {
      hide NoneStranded, Unsatisfied, Cleared;
      SyncStrandsNobody(Value(), task, bitsToSet, waitFor, mayBlock);
      var original := bits;
      var now := SetBits(bitsToSet);
      done, seen := true, now;
      if (original + bitsToSet) * waitFor == waitFor {
        seen := original + bitsToSet;
        bits := bits - waitFor;
      } else if mayBlock {
        waiting := waiting + [Waiter(task, ItemValue(waitFor, true, true))];
        done, seen := false, {};
      }
    }

    /** The kernel takes a task whose block time has run out off the list; the task goes on later, in Resumed. */
    method TimedOut(task: nat)
      requires Valid()
      modifies this`waiting
      ensures Valid() && waiting == Others(old(waiting), task)
      ensures forall w :: w in waiting <==> w in old(waiting) && w.task != task
    {
      OthersMembers(waiting, task);
      waiting := Others(waiting, task);
    }

    /**
     How a call goes on after its task was blocked.  A task that was released returns the bits that released it.
     A task that timed out makes up for bits that were set since then: it leaves the group as a call would that
     does not block.
     */
    method Resumed(task: nat, itemValue: Bits, waitFor: Bits, clearOnExit: bool, waitForAll: bool) returns (seen: Bits)
      requires Valid()
      modifies this`bits
      ensures Valid()
      ensures UNBLOCKED in itemValue ==> seen == itemValue - CONTROL && bits == old(bits)
      ensures UNBLOCKED !in itemValue ==>
                seen == old(bits) && Value() == AfterWaitBits(old(Value()), task, waitFor, clearOnExit, waitForAll, false).0
    {
      forall w | w in waiting ensures !Satisfied(bits - waitFor, w) {
        FewerBits(bits, bits - waitFor, w);
      }
      seen := itemValue;
      if UNBLOCKED !in seen {
        seen := bits;
        if TestWaitCondition(seen, waitFor, waitForAll) {
          if clearOnExit {
            bits := bits - waitFor;
          }
        }
      }
      seen := seen - CONTROL;
    }
  }

  /** What a released task finds in its list item: bits that meet the condition that it waited with. */
  lemma {:induction false} NoticesSatisfy(ws: seq<Waiter>, current: Bits)
    requires current !! CONTROL && forall w :: w in ws ==> Satisfied(current, w)
    ensures |Notices(ws, current)| == |ws|
    ensures forall i :: 0 <= i < |ws| ==>
              var n := Notices(ws, current)[i];
              n.task == ws[i].task && UNBLOCKED in n.value && n.value - CONTROL == current && Satisfied(n.value - CONTROL, ws[i])
  {
    if ws != [] {
      assert ws == ws[..|ws| - 1] + [ws[|ws| - 1]];
      NoticesSatisfy(ws[..|ws| - 1], current);
      assert (current + {UNBLOCKED}) - CONTROL == current;
    }
  }

  function Others(waiting: seq<Waiter>, task: nat): seq<Waiter> {
    if waiting == [] then [] else (if waiting[0].task == task then [] else [waiting[0]]) + Others(waiting[1..], task)
  }

  lemma {:induction false} OthersMembers(waiting: seq<Waiter>, task: nat)
    ensures forall w :: w in Others(waiting, task) <==> w in waiting && w.task != task
  {
    if waiting != [] {
      OthersMembers(waiting[1..], task);
      assert waiting == [waiting[0]] + waiting[1..];
    }
  }
}
