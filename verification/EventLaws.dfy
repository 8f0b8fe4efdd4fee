/** How the calls on an event group combine: setting, waiting and the rendezvous against each other. */
module EventLaws {
  import opened EventGroup

  /** A task that setting bits releases, and that had asked to clear the bit. */
  ghost predicate ClearedBy(g: Group, bits: Bits, b: nat, w: Waiter) {
    w in Released(g.waiting, g.bits + bits) && CLEAR_ON_EXIT in w.value && b in w.value - CONTROL
  }

  /** A bit is left after setting bits exactly if no released waiter had asked to clear it. */
  lemma LeftAfterSet(g: Group, bits: Bits, b: nat)
    ensures b in AfterSetBits(g, bits).bits <==>
              (b in g.bits || b in bits) && forall w :: w in g.waiting ==> !ClearedBy(g, bits, b, w)
  {
    hide Satisfied, Released, Unsatisfied;
    var now := g.bits + bits;
    UnsatisfiedMembers(g.waiting, now);
    if b in Cleared(g.waiting, now) {
      var w :| w in g.waiting && Satisfied(now, w) && CLEAR_ON_EXIT in w.value && b in w.value - CONTROL;
      assert ClearedBy(g, bits, b, w);
    }
    if w :| w in g.waiting && ClearedBy(g, bits, b, w) {
      assert b in Cleared(g.waiting, now);
    }
  }

  /** A call that returns at once clears the bits it waited for exactly if it was told to and they met its condition. */
  lemma LeftAfterWait(g: Group, task: nat, waitFor: Bits, clearOnExit: bool, waitForAll: bool, mayBlock: bool, b: nat)
    ensures var (v, done) := AfterWaitBits(g, task, waitFor, clearOnExit, waitForAll, mayBlock);
            && (done <==> TestWaitCondition(g.bits, waitFor, waitForAll) || !mayBlock)
            && (b in v.bits <==>
                  b in g.bits && !(clearOnExit && b in waitFor && TestWaitCondition(g.bits, waitFor, waitForAll)))
            && (done ==> v.waiting == g.waiting)
  {
  }

  // ----- waiting and setting -----

  lemma OneMoreWaiter(waiting: seq<Waiter>, own: Waiter, current: Bits)
    ensures Unsatisfied(waiting + [own], current)
         == Unsatisfied(waiting, current) + if Satisfied(current, own) then [] else [own]
    ensures Cleared(waiting + [own], current)
         == Cleared(waiting, current)
            + if Satisfied(current, own) && CLEAR_ON_EXIT in own.value then own.value - CONTROL else {}
  {
    hide Satisfied;
    assert (waiting + [own])[..|waiting|] == waiting;
  }

  /** What setting bits makes of a group in which one more task is blocked. */
  lemma SetAfterBlocking(g: Group, task: nat, waitFor: Bits, clearOnExit: bool, waitForAll: bool, bits: Bits)
    requires NoneStranded(g) && waitFor !! CONTROL && waitFor != {} && bits !! CONTROL
    requires !TestWaitCondition(g.bits, waitFor, waitForAll)
    ensures var blocked := AfterWaitBits(g, task, waitFor, clearOnExit, waitForAll, true).0;
            var own := Waiter(task, ItemValue(waitFor, clearOnExit, waitForAll));
            var after := AfterSetBits(g, bits);
            AfterSetBits(blocked, bits)
              == if TestWaitCondition(g.bits + bits, waitFor, waitForAll)
                 then after.(bits := after.bits - if clearOnExit then waitFor else {})
                 else after.(waiting := after.waiting + [own])
  {
    hide NoneStranded, Unsatisfied, Cleared;
    var own := Waiter(task, ItemValue(waitFor, clearOnExit, waitForAll));
    ItemUnpacks(waitFor, clearOnExit, waitForAll);
    OneMoreWaiter(g.waiting, own, g.bits + bits);
  }

  /** Bits that are cleared leave an unmet condition unmet. */
  lemma FewerDoNotMeet(current: Bits, fewer: Bits, waitFor: Bits, waitForAll: bool)
    requires fewer <= current && waitFor != {} && !TestWaitCondition(current, waitFor, waitForAll)
    ensures !TestWaitCondition(fewer, waitFor, waitForAll)
  {
  }

  /**
   Blocking first and being released, or coming when the bits are set: it makes no difference
   to the group, exactly unless another released task clears what the late-comer needs.
   */
  lemma SettingCommutesWithWaiting(g: Group, task: nat, waitFor: Bits, clearOnExit: bool, waitForAll: bool, bits: Bits)
    requires NoneStranded(g) && waitFor !! CONTROL && waitFor != {} && bits !! CONTROL
    requires !TestWaitCondition(g.bits, waitFor, waitForAll)
    ensures var blocked := AfterWaitBits(g, task, waitFor, clearOnExit, waitForAll, true).0;
            var after := AfterSetBits(g, bits);
            AfterSetBits(blocked, bits) == AfterWaitBits(after, task, waitFor, clearOnExit, waitForAll, true).0 <==>
            (TestWaitCondition(g.bits + bits, waitFor, waitForAll) ==> TestWaitCondition(after.bits, waitFor, waitForAll))
  {
    hide NoneStranded, Unsatisfied, Cleared, TestWaitCondition;
    SetAfterBlocking(g, task, waitFor, clearOnExit, waitForAll, bits);
    var after := AfterSetBits(g, bits);
    if !TestWaitCondition(g.bits + bits, waitFor, waitForAll) {
      FewerDoNotMeet(g.bits + bits, after.bits, waitFor, waitForAll);
    }
    if clearOnExit {
    } else {
      assert after.bits - {} == after.bits;
    }
  }

  // ----- the rendezvous -----

  /**
   A rendezvous is setting the own bits and waiting for all, as long as no task that it
   releases clears them in between; and then it goes on all the same, where a wait would block.
   */
  lemma SyncIsSetThenWait(g: Group, task: nat, bits: Bits, waitFor: Bits, mayBlock: bool)
    requires waitFor != {}
    ensures var after := AfterSetBits(g, bits);
            var sync := AfterSync(g, task, bits, waitFor, mayBlock);
            var wait := AfterWaitBits(after, task, waitFor, true, true, mayBlock);
            if waitFor <= g.bits + bits && !(waitFor <= after.bits)
            then sync == (after.(bits := after.bits - waitFor), true) && (mayBlock ==> !wait.1)
            else sync == wait
  {
    hide Unsatisfied, Cleared;
    var after := AfterSetBits(g, bits);
    MeetsAll(g.bits + bits, waitFor);
    MeetsAll(after.bits, waitFor);
  }

  lemma MeetsAll(current: Bits, waitFor: Bits)
    ensures current * waitFor == waitFor <==> waitFor <= current
  {
    if waitFor <= current {
      assert current * waitFor == waitFor;
    }
  }
}
