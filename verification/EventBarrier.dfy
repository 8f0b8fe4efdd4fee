/**
 xEventGroupSync as a barrier: tasks 0, 1, ... each set a bit of their own and wait, without
 a time limit, for everybody's bits, again and again.
 */
module EventBarrier {
  import opened EventGroup

  /** `arrived` counts each task's calls of xEventGroupSync, `passed` its returns from them. */
  datatype Barrier = Barrier(g: Group, arrived: seq<nat>, passed: seq<nat>)

  ghost predicate OwnBits(bitOf: seq<nat>) {
    && bitOf != []
    && (forall i, j :: 0 <= i < j < |bitOf| ==> bitOf[i] != bitOf[j])
    && (forall i :: 0 <= i < |bitOf| ==> bitOf[i] !in CONTROL)
  }

  ghost function AllBits(bitOf: seq<nat>): Bits {
    set i | 0 <= i < |bitOf| :: bitOf[i]
  }

  /** The list entry of a task that waits in the barrier. */
  function Entry(task: nat, all: Bits): Waiter {
    Waiter(task, ItemValue(all, true, true))
  }

  ghost predicate WellFormed(b: Barrier, bitOf: seq<nat>) {
    |b.arrived| == |bitOf| == |b.passed|
  }

  /** A task that is not blocked in the barrier calls it again. */
  ghost predicate MayArrive(b: Barrier, bitOf: seq<nat>, task: nat) {
    WellFormed(b, bitOf) && task < |bitOf| && b.arrived[task] == b.passed[task]
  }

  ghost function Arrive(b: Barrier, bitOf: seq<nat>, task: nat): Barrier
    requires MayArrive(b, bitOf, task)
  {
    var r := AfterSync(b.g, task, {bitOf[task]}, AllBits(bitOf), true);
    var released := Released(b.g.waiting, b.g.bits + {bitOf[task]});
    Barrier(r.0, b.arrived[task := b.arrived[task] + 1],
      seq(|bitOf|, i requires 0 <= i < |bitOf| =>
        b.passed[i] + if (i == task && r.1) || Entry(i, AllBits(bitOf)) in released then 1 else 0))
  }

  /** Round `r`: everybody has passed r times, and those who have arrived once more wait with their bits set. */
  ghost predicate Round(b: Barrier, bitOf: seq<nat>, r: nat) {
    && WellFormed(b, bitOf)
    && (forall i :: 0 <= i < |bitOf| ==> b.passed[i] == r && r <= b.arrived[i] <= r + 1)
    && (exists i :: 0 <= i < |bitOf| && b.arrived[i] == r)
    && b.g.bits <= AllBits(bitOf)
    && (forall i :: 0 <= i < |bitOf| ==> (bitOf[i] in b.g.bits <==> b.arrived[i] == r + 1))
    && (forall i :: 0 <= i < |bitOf| ==> (Entry(i, AllBits(bitOf)) in b.g.waiting <==> b.arrived[i] == r + 1))
    && (forall w :: w in b.g.waiting ==> w.task < |bitOf| && w == Entry(w.task, AllBits(bitOf)))
  }

  lemma EntrySatisfied(task: nat, bitOf: seq<nat>, current: Bits)
    requires OwnBits(bitOf)
    ensures Satisfied(current, Entry(task, AllBits(bitOf))) <==> AllBits(bitOf) <= current
    ensures Entry(task, AllBits(bitOf)).value - CONTROL == AllBits(bitOf)
    ensures CLEAR_ON_EXIT in Entry(task, AllBits(bitOf)).value
  {
    ItemUnpacks(AllBits(bitOf), true, true);
    var all := AllBits(bitOf);
    assert current * all == all <==> all <= current;
  }

  /** What a call does while somebody is missing: the task joins the waiters, and nobody passes. */
  lemma EarlyState(b: Barrier, bitOf: seq<nat>, task: nat, r: nat, missing: nat)
    requires OwnBits(bitOf) && MayArrive(b, bitOf, task) && Round(b, bitOf, r)
    requires missing < |bitOf| && missing != task && b.arrived[missing] == r
    ensures Arrive(b, bitOf, task) == Barrier(
      Group(b.g.bits + {bitOf[task]}, b.g.waiting + [Entry(task, AllBits(bitOf))]),
      b.arrived[task := r + 1], b.passed)
  {
    hide Satisfied, Unsatisfied, Released, Cleared, ItemValue;
    var all := AllBits(bitOf);
    var now := b.g.bits + {bitOf[task]};
    assert bitOf[missing] !in now && bitOf[missing] in all;
    forall i | 0 <= i < |b.g.waiting| ensures !Satisfied(now, b.g.waiting[i]) {
      assert b.g.waiting[i] in b.g.waiting;
      EntrySatisfied(b.g.waiting[i].task, bitOf, now);
    }
    NoneSatisfied(b.g.waiting, now);
    NoneCleared(b.g.waiting, now);
    assert bitOf[missing] !in now * all;
    var v := Arrive(b, bitOf, task);
    assert now - {} == now;
    assert AfterSetBits(b.g, {bitOf[task]}) == Group(now, b.g.waiting);
    assert v.g == Group(now, b.g.waiting + [Waiter(task, ItemValue(all, true, true))]);
    assert v.passed == b.passed;
  }

  /** Somebody is still missing: the round goes on. */
  lemma ArriveEarly(b: Barrier, bitOf: seq<nat>, task: nat, r: nat, missing: nat)
    requires OwnBits(bitOf) && MayArrive(b, bitOf, task) && Round(b, bitOf, r)
    requires missing < |bitOf| && missing != task && b.arrived[missing] == r
    ensures Round(Arrive(b, bitOf, task), bitOf, r)
  {
    hide Arrive, ItemValue;
    EarlyState(b, bitOf, task, r, missing);
    var v := Arrive(b, bitOf, task);
    assert v.arrived[missing] == r;
    assert v.g.bits <= AllBits(bitOf);
  }

  lemma {:induction false} NoneSatisfied(waiting: seq<Waiter>, current: Bits)
    requires forall i :: 0 <= i < |waiting| ==> !Satisfied(current, waiting[i])
    ensures Unsatisfied(waiting, current) == waiting && Released(waiting, current) == []
  {
    hide Satisfied;
    if waiting != [] {
      var n := |waiting| - 1;
      NoneSatisfied(waiting[..n], current);
      assert waiting == waiting[..n] + [waiting[n]];
    }
  }

  lemma NoneCleared(waiting: seq<Waiter>, current: Bits)
    requires forall i :: 0 <= i < |waiting| ==> !Satisfied(current, waiting[i])
    ensures Cleared(waiting, current) == {}
  {
    hide Satisfied;
  }

  lemma {:induction false} AllSatisfied(waiting: seq<Waiter>, current: Bits)
    requires forall i :: 0 <= i < |waiting| ==> Satisfied(current, waiting[i])
    ensures Unsatisfied(waiting, current) == [] && Released(waiting, current) == waiting
  {
    hide Satisfied;
    if waiting != [] {
      var n := |waiting| - 1;
      AllSatisfied(waiting[..n], current);
      assert waiting == waiting[..n] + [waiting[n]];
    }
  }

  /** The last task releases everybody, goes on itself and leaves no bit set. */
  lemma ArriveLast(b: Barrier, bitOf: seq<nat>, task: nat, r: nat)
    requires OwnBits(bitOf) && MayArrive(b, bitOf, task) && Round(b, bitOf, r)
    requires forall i :: 0 <= i < |bitOf| && i != task ==> b.arrived[i] == r + 1
    ensures Round(Arrive(b, bitOf, task), bitOf, r + 1)
  {
    var all := AllBits(bitOf);
    var now := b.g.bits + {bitOf[task]};
    assert now == all;
    forall i | 0 <= i < |b.g.waiting| ensures Satisfied(now, b.g.waiting[i]) {
      assert b.g.waiting[i] in b.g.waiting;
      EntrySatisfied(b.g.waiting[i].task, bitOf, now);
    }
    AllSatisfied(b.g.waiting, now);
    assert now * all == all;
    var v := Arrive(b, bitOf, task);
    assert v.g.waiting == [] && v.g.bits == {};
    forall i | 0 <= i < |bitOf| ensures v.passed[i] == r + 1 && v.arrived[i] == r + 1 {
    }
    assert v.arrived[task] == r + 1;
  }

  lemma ArriveKeepsRound(b: Barrier, bitOf: seq<nat>, task: nat, r: nat)
    requires OwnBits(bitOf) && MayArrive(b, bitOf, task) && Round(b, bitOf, r)
    ensures exists q :: Round(Arrive(b, bitOf, task), bitOf, q)
  {
    if missing: nat :| missing < |bitOf| && missing != task && b.arrived[missing] == r {
      ArriveEarly(b, bitOf, task, r, missing);
    } else {
      ArriveLast(b, bitOf, task, r);
    }
  }

  ghost predicate Possible(b: Barrier, bitOf: seq<nat>, tasks: seq<nat>)
    decreases |tasks|
  {
    tasks == [] || (MayArrive(b, bitOf, tasks[0]) && Possible(Arrive(b, bitOf, tasks[0]), bitOf, tasks[1..]))
  }

  ghost function Run(b: Barrier, bitOf: seq<nat>, tasks: seq<nat>): Barrier
    requires Possible(b, bitOf, tasks)
    decreases |tasks|
  {
    if tasks == [] then b else Run(Arrive(b, bitOf, tasks[0]), bitOf, tasks[1..])
  }

  lemma {:induction false} RunKeepsRound(b: Barrier, bitOf: seq<nat>, tasks: seq<nat>, r: nat)
    requires OwnBits(bitOf) && Possible(b, bitOf, tasks) && Round(b, bitOf, r)
    ensures exists q :: Round(Run(b, bitOf, tasks), bitOf, q)
    decreases |tasks|
  {
    hide Round, Arrive, MayArrive;
    if tasks != [] {
      ArriveKeepsRound(b, bitOf, tasks[0], r);
      var q :| Round(Arrive(b, bitOf, tasks[0]), bitOf, q);
      RunKeepsRound(Arrive(b, bitOf, tasks[0]), bitOf, tasks[1..], q);
      assert Run(b, bitOf, tasks) == Run(Arrive(b, bitOf, tasks[0]), bitOf, tasks[1..]);
    } else {
      assert Round(Run(b, bitOf, tasks), bitOf, r);
    }
  }

  lemma MemberOfNonempty(ws: seq<Waiter>)
    ensures ws != [] ==> exists w :: w in ws
  {
    if ws != [] {
      assert ws[0] in ws;
    }
  }

  lemma RoundMeans(b: Barrier, bitOf: seq<nat>, r: nat)
    requires OwnBits(bitOf) && Round(b, bitOf, r)
    ensures forall i, j :: 0 <= i < |bitOf| && 0 <= j < |bitOf| ==> b.passed[i] <= b.arrived[j]
    ensures forall i, j :: 0 <= i < |bitOf| && 0 <= j < |bitOf| ==> b.passed[i] == b.passed[j]
    ensures (forall i :: 0 <= i < |bitOf| ==> b.arrived[i] == b.arrived[0]) ==>
              b.arrived == b.passed && b.g.waiting == [] && b.g.bits == {}
  {
    hide Entry;
    if forall i :: 0 <= i < |bitOf| ==> b.arrived[i] == b.arrived[0] {
      assert forall i :: 0 <= i < |bitOf| ==> b.arrived[i] == r;
      assert b.arrived == b.passed;
      MemberOfNonempty(b.g.waiting);
    }
  }

  function Start(n: nat): Barrier {
    Barrier(Group({}, []), seq(n, i => 0), seq(n, i => 0))
  }

  /**
   A reusable barrier, in whatever order the tasks arrive: nobody returns from the k-th call
   before everybody has made it, all have returned equally often, and when all have called
   equally often nobody is left waiting.
   */
  lemma ReusableBarrier(bitOf: seq<nat>, tasks: seq<nat>)
    requires OwnBits(bitOf) && Possible(Start(|bitOf|), bitOf, tasks)
    ensures var b := Run(Start(|bitOf|), bitOf, tasks);
            && WellFormed(b, bitOf)
            && (forall i, j :: 0 <= i < |bitOf| && 0 <= j < |bitOf| ==> b.passed[i] <= b.arrived[j])
            && (forall i, j :: 0 <= i < |bitOf| && 0 <= j < |bitOf| ==> b.passed[i] == b.passed[j])
            && ((forall i :: 0 <= i < |bitOf| ==> b.arrived[i] == b.arrived[0]) ==>
                  b.arrived == b.passed && b.g.waiting == [] && b.g.bits == {})
  {
    hide Run, Possible, Arrive;
    var s := Start(|bitOf|);
    assert s.arrived[0] == 0;
    assert Round(s, bitOf, 0);
    RunKeepsRound(s, bitOf, tasks, 0);
    var r :| Round(Run(s, bitOf, tasks), bitOf, r);
    RoundMeans(Run(s, bitOf, tasks), bitOf, r);
  }
}
