/**
 The timer daemon as it is built: 32-bit ticks that wrap, a current and an overflow list
 that are swapped when the tick count wraps, and a queue of commands stamped with 32-bit
 ticks.  The ghost field `world` is the same daemon in unbounded time (TimerSpec); each
 method moves it by exactly one of the steps defined there.
 */
module TimerTask {
  import opened Entries
  import opened TimerSpec

  /** A TickType_t as the hardware counter holds it. */
  function Tick(t: nat): nat { t % WRAP }

  /** A command as it is stored in the timer queue: the stamp keeps 32 bits. */
  function Stored(c: Command): Command {
    if c.Start? then Start(c.id, Tick(c.stamp)) else c
  }

  ghost predicate AllStored(absolute: seq<Command>, queue: seq<Command>) {
    |absolute| == |queue| && forall i :: 0 <= i < |queue| ==> queue[i] == Stored(absolute[i])
  }

  /** The callbacks that ran, by timer. */
  ghost predicate Called(log: seq<Callback>, calls: seq<nat>) {
    |log| == |calls| && forall i :: 0 <= i < |calls| ==> calls[i] == log[i].id
  }

  /** Two lists of 32-bit expiry times that stand for one list of absolute ones. */
  ghost predicate Shape(current: seq<Entry>, overflow: seq<Entry>, base: nat, armed: seq<Entry>) {
    && (forall i :: 0 <= i < |current| ==> current[i].key < WRAP)
    && (forall i :: 0 <= i < |overflow| ==> overflow[i].key < WRAP)
    && armed == Lift(current, base) + Lift(overflow, base + WRAP)
  }

  // ----- wrap-around arithmetic -----

  /** The two tests of prvInsertTimerInActiveList on 32-bit values. */
  predicate AlreadyExpired(next: nat, now: nat, command: nat, period: nat) {
    if next <= now then (now + WRAP - command) % WRAP >= period
    else now < command && next >= command
  }

  /** The tick value of a time that is less than a wrap in the past. */
  lemma RecentTick(t: nat, now: nat)
    requires t <= now < t + WRAP
    ensures t == Epoch(now) * WRAP + Tick(t) || t + WRAP == Epoch(now) * WRAP + Tick(t)
    ensures Tick(t) <= Tick(now) <==> t == Epoch(now) * WRAP + Tick(t)
  {
    EpochCases(t, now);
  }

  /**
   The fast test on wrapped ticks decides the comparison in unbounded time, and a timer
   that has not expired belongs to the current list exactly when it expires in this epoch.
   */
  lemma InsertionTest(command: nat, period: nat, now: nat)
    requires 0 < period < WRAP && command <= now < command + WRAP
    ensures var next := Tick(Tick(command) + period);
            && (AlreadyExpired(next, Tick(now), Tick(command), period) <==> command + period <= now)
            && (now < command + period ==>
                  command + period == (if Tick(now) < next then Epoch(now) * WRAP else EpochEnd(now)) + next)
  {
    RecentTick(command, now);
    EpochCases(now, now);
  }

  /** Sampling finds a wrap exactly when the epoch has changed, given that samples are close enough. */
  lemma WrapTest(last: nat, now: nat)
    requires last <= now < last + WRAP
    ensures Tick(now) < Tick(last) <==> Epoch(last) < Epoch(now)
  {
    EpochCases(last, now);
  }

  // ----- the two lists as one -----

  lemma ShapeInsertCurrent(current: seq<Entry>, overflow: seq<Entry>, base: nat, armed: seq<Entry>, x: Entry)
    requires Shape(current, overflow, base, armed) && x.key < WRAP
    ensures Shape(InsertSorted(current, x), overflow, base, InsertSorted(armed, Entry(base + x.key, x.id)))
  {
    LiftInsert(current, x, base);
    LiftAt(overflow, base + WRAP);
    InsertLeft(Lift(current, base), Lift(overflow, base + WRAP), Entry(base + x.key, x.id));
    KeysBelow(current, x);
  }

  lemma ShapeInsertOverflow(current: seq<Entry>, overflow: seq<Entry>, base: nat, armed: seq<Entry>, x: Entry)
    requires Shape(current, overflow, base, armed) && x.key < WRAP
    ensures Shape(current, InsertSorted(overflow, x), base, InsertSorted(armed, Entry(base + WRAP + x.key, x.id)))
  {
    LiftInsert(overflow, x, base + WRAP);
    LiftAt(current, base);
    InsertRight(Lift(current, base), Lift(overflow, base + WRAP), Entry(base + WRAP + x.key, x.id));
    KeysBelow(overflow, x);
  }

  lemma KeysBelow(list: seq<Entry>, x: Entry)
    requires x.key < WRAP && forall i :: 0 <= i < |list| ==> list[i].key < WRAP
    ensures forall i :: 0 <= i <= |list| ==> InsertSorted(list, x)[i].key < WRAP
  {
    InsertMembers(list, x);
    forall i | 0 <= i <= |list| ensures InsertSorted(list, x)[i].key < WRAP {
      assert InsertSorted(list, x)[i] in InsertSorted(list, x);
    }
  }

  lemma ShapeWithout(current: seq<Entry>, overflow: seq<Entry>, base: nat, armed: seq<Entry>, id: nat)
    requires Shape(current, overflow, base, armed)
    ensures Shape(Without(current, id), Without(overflow, id), base, Without(armed, id))
  {
    LiftWithout(current, base, id);
    LiftWithout(overflow, base + WRAP, id);
    WithoutConcat(Lift(current, base), Lift(overflow, base + WRAP), id);
    WithoutBelow(current, id);
    WithoutBelow(overflow, id);
  }

  lemma WithoutBelow(list: seq<Entry>, id: nat)
    requires forall i :: 0 <= i < |list| ==> list[i].key < WRAP
    ensures forall i :: 0 <= i < |Without(list, id)| ==> Without(list, id)[i].key < WRAP
  {
    WithoutMembers(list, id);
    forall i | 0 <= i < |Without(list, id)| ensures Without(list, id)[i].key < WRAP {
      assert Without(list, id)[i] in Without(list, id);
    }
  }

  lemma ShapeHead(current: seq<Entry>, overflow: seq<Entry>, base: nat, armed: seq<Entry>)
    requires Shape(current, overflow, base, armed) && current != []
    ensures armed != [] && armed[0] == Entry(base + current[0].key, current[0].id)
    ensures Shape(current[1..], overflow, base, armed[1..])
  {
    var head := [Entry(base + current[0].key, current[0].id)];
    assert armed == head + (Lift(current[1..], base) + Lift(overflow, base + WRAP));
    assert armed[1..] == Lift(current[1..], base) + Lift(overflow, base + WRAP);
  }

  /** With the current list drained, the overflow list is the current list of the next epoch. */
  lemma ShapeSwap(overflow: seq<Entry>, base: nat, armed: seq<Entry>)
    requires Shape([], overflow, base, armed)
    ensures Shape(overflow, [], base + WRAP, armed)
    ensures armed == [] || base + WRAP <= armed[0].key
  {
  }

  // ----- the concrete state and the world it stands for -----

  ghost predicate Stands(current: seq<Entry>, overflow: seq<Entry>, queue: seq<Command>, calls: seq<nat>,
                         w: World, base: nat)
  {
    && Shape(current, overflow, base, w.armed)
    && AllStored(w.queue, queue)
    && Called(w.log, calls)
  }

  lemma HeadKnown(current: seq<Entry>, overflow: seq<Entry>, queue: seq<Command>, calls: seq<nat>, w: World, base: nat)
    requires Stands(current, overflow, queue, calls, w, base) && current != [] && Known(w)
    ensures w.armed != [] && current[0].id in w.timers
    ensures w.armed[0] == Entry(base + current[0].key, current[0].id)
    ensures w.armed[0].key < base + WRAP && current[0].key < WRAP
  {
    ShapeHead(current, overflow, base, w.armed);
    assert w.armed[0] in w.armed;
  }

  lemma SwapStands(overflow: seq<Entry>, queue: seq<Command>, calls: seq<nat>, w: World, base: nat)
    requires Stands([], overflow, queue, calls, w, base)
    ensures Stands(overflow, [], queue, calls, w, base + WRAP)
    ensures w.armed == [] || base + WRAP <= w.armed[0].key
  {
    ShapeSwap(overflow, base, w.armed);
  }

  /** The stamp of a reload, stored in 32 bits, is the 32-bit expiry. */
  lemma StoredReload(id: nat, base: nat, next: nat)
    requires base % WRAP == 0 && next < WRAP
    ensures Stored(Start(id, base + next)) == Start(id, next)
  {
  }

  /** A wrapped reload value is larger than the expiry exactly when the reload is in the same epoch. */
  lemma ReloadTest(next: nat, period: nat)
    requires next < WRAP && 0 < period < WRAP
    ensures (next + period) % WRAP > next <==> next + period < WRAP
    ensures (next + period) % WRAP > next ==> (next + period) % WRAP == next + period
  {
  }

  lemma ArmCurrentStands(current: seq<Entry>, overflow: seq<Entry>, queue: seq<Command>, calls: seq<nat>, w: World,
                         base: nat, x: Entry)
    requires Stands(current, overflow, queue, calls, w, base) && x.key < WRAP
    ensures Stands(InsertSorted(current, x), overflow, queue, calls, Arm(w, x.id, base + x.key), base)
  {
    ShapeInsertCurrent(current, overflow, base, w.armed, x);
  }

  lemma ArmOverflowStands(current: seq<Entry>, overflow: seq<Entry>, queue: seq<Command>, calls: seq<nat>, w: World,
                          base: nat, x: Entry)
    requires Stands(current, overflow, queue, calls, w, base) && x.key < WRAP
    ensures Stands(current, InsertSorted(overflow, x), queue, calls, Arm(w, x.id, base + WRAP + x.key), base)
  {
    ShapeInsertOverflow(current, overflow, base, w.armed, x);
  }

  /** The oldest command is taken off both queues and its timer out of every list. */
  lemma TakenStands(current: seq<Entry>, overflow: seq<Entry>, queue: seq<Command>, calls: seq<nat>, w: World, base: nat)
    requires Stands(current, overflow, queue, calls, w, base) && w.queue != []
    ensures queue != [] && queue[0] == Stored(w.queue[0])
    ensures Stands(Without(current, queue[0].id), Without(overflow, queue[0].id), queue[1..], calls, Taken(w), base)
  {
    ShapeWithout(current, overflow, base, w.armed, queue[0].id);
  }

  lemma HeadStands(current: seq<Entry>, overflow: seq<Entry>, queue: seq<Command>, calls: seq<nat>, w: World, base: nat)
    requires Stands(current, overflow, queue, calls, w, base) && current != []
    ensures w.armed != [] && w.armed[0] == Entry(base + current[0].key, current[0].id)
    ensures Stands(current[1..], overflow, queue, calls, w.(armed := w.armed[1..]), base)
  {
    ShapeHead(current, overflow, base, w.armed);
  }

  lemma PostStands(current: seq<Entry>, overflow: seq<Entry>, queue: seq<Command>, calls: seq<nat>, w: World, base: nat,
                   c: Command)
    requires Stands(current, overflow, queue, calls, w, base)
    ensures Stands(current, overflow, queue + [Stored(c)], calls, Post(w, c), base)
  {
  }

  lemma FireStands(current: seq<Entry>, overflow: seq<Entry>, queue: seq<Command>, calls: seq<nat>, w: World, base: nat,
                   id: nat, due: nat)
    requires Stands(current, overflow, queue, calls, w, base)
    ensures Stands(current, overflow, queue, calls + [id], Fire(w, id, due), base)
  {
  }

  /** One turn of the switch loop: where the concrete head goes is where the world's head goes. */
  lemma TurnStands(current: seq<Entry>, overflow: seq<Entry>, queue: seq<Command>, calls: seq<nat>, w: World,
                   base: nat, current': seq<Entry>, queue': seq<Command>)
    requires Stands(current, overflow, queue, calls, w, base) && current != [] && Known(w) && base % WRAP == 0
    requires current[0].id in w.timers
    requires var e := current[0];
             var t := w.timers[e.id];
             var reload := (e.key + t.period) % WRAP;
             && current' == (if t.autoReload && reload > e.key
                             then InsertSorted(current[1..], Entry(reload, e.id)) else current[1..])
             && queue' == (if t.autoReload && reload <= e.key then queue + [Start(e.id, e.key)] else queue)
    ensures w.armed != []
    ensures Stands(current', overflow, queue', calls + [current[0].id], DrainOne(w, base + WRAP), base)
  {
    hide Stands;
    var e := current[0];
    var t := w.timers[e.id];
    HeadKnown(current, overflow, queue, calls, w, base);
    HeadStands(current, overflow, queue, calls, w, base);
    ReloadTest(e.key, t.period);
    StoredReload(e.id, base, e.key);
    var rest := w.(armed := w.armed[1..]);
    var fired := Fire(rest, e.id, base + e.key);
    FireStands(current[1..], overflow, queue, calls, rest, base, e.id, base + e.key);
    if t.autoReload && e.key + t.period < WRAP {
      ArmCurrentStands(current[1..], overflow, queue, calls + [e.id], fired, base, Entry(e.key + t.period, e.id));
    } else if t.autoReload {
      PostStands(current[1..], overflow, queue, calls + [e.id], fired, base, Start(e.id, base + e.key));
    }
  }

  /** Where the head of the armed list is found, and that an empty current list leaves only later epochs. */
  lemma HeadOfArmed(current: seq<Entry>, overflow: seq<Entry>, queue: seq<Command>, calls: seq<nat>, w: World, base: nat)
    requires Stands(current, overflow, queue, calls, w, base) && Sorted(w.armed)
    ensures current != [] ==> w.armed != [] && w.armed[0].key == base + current[0].key && current[0].key < WRAP
    ensures current == [] ==> forall e :: e in w.armed ==> base + WRAP <= e.key
    ensures current != [] ==> forall e :: e in w.armed ==> base + current[0].key <= e.key
    ensures w.armed == [] <==> current == [] && overflow == []
  {
    LiftAt(current, base);
    LiftAt(overflow, base + WRAP);
    if current != [] {
      ShapeHead(current, overflow, base, w.armed);
    }
  }

  /** What a sample does, told by the wrapped tick values. */
  lemma SampleByTicks(w: World, t: nat)
    requires Inv(w) && w.now <= t && (t - w.now < WRAP || w.armed == [])
    ensures Known(w.(now := t))
    ensures Inv(Sample(w, t)) && Sample(w, t).now == t && Sample(w, t).timers == w.timers
    ensures w.armed == [] ==> Sample(w, t) == w.(now := t)
    ensures t - w.now < WRAP ==> (Tick(t) < Tick(w.now) <==> Epoch(w.now) < Epoch(t))
    ensures t - w.now < WRAP && Tick(t) < Tick(w.now) ==>
              && Sample(w, t) == Drain(w.(now := t), Epoch(w.now) * WRAP + WRAP)
              && Epoch(t) * WRAP == Epoch(w.now) * WRAP + WRAP
    ensures t - w.now < WRAP && Tick(t) >= Tick(w.now) ==> Sample(w, t) == w.(now := t) && Epoch(t) == Epoch(w.now)
  {
    SampleKeepsInv(w, t);
    if t - w.now < WRAP {
      WrapTest(w.now, t);
      EpochCases(w.now, t);
    }
  }

  /** With no timer armed both lists are empty, in whatever epoch. */
  lemma EmptyStands(current: seq<Entry>, overflow: seq<Entry>, queue: seq<Command>, calls: seq<nat>, w: World,
                    base: nat, base': nat)
    requires Stands(current, overflow, queue, calls, w, base) && w.armed == []
    ensures current == [] && overflow == [] && Stands(current, overflow, queue, calls, w, base')
  {
    LiftAt(current, base);
    LiftAt(overflow, base + WRAP);
  }

  lemma ClockStands(current: seq<Entry>, overflow: seq<Entry>, queue: seq<Command>, calls: seq<nat>, w: World,
                    base: nat, t: nat)
    requires Stands(current, overflow, queue, calls, w, base)
    ensures Stands(current, overflow, queue, calls, w.(now := t), base)
  {
  }

  class TimerTask {
    var current: seq<Entry>
    var overflow: seq<Entry>
    var lastTime: nat
    var timers: map<nat, Timer>
    var queue: seq<Command>
    var calls: seq<nat>
    ghost var world: World

    /** Everything but the time: lists, queue, timers and callbacks are those of the world. */
    ghost predicate Consistent(base: nat)
      reads this
    {
      Stands(current, overflow, queue, calls, world, base) && timers == world.timers
    }

    /** The daemon between two steps: it stands for `world`, whose epoch invariant holds. */
    ghost predicate Valid()
      reads this
    {
      && Inv(world)
      && lastTime == Tick(world.now)
      && Consistent(Epoch(world.now) * WRAP)
    }

    constructor (timers: map<nat, Timer>)
      ensures Valid() && world == World(0, [], timers, [], [])
    {
      current, overflow, lastTime, queue, calls := [], [], 0, [], [];
      this.timers := timers;
      world := World(0, [], timers, [], []);
    }

    /** prvSwitchTimerLists: drains the current list, then swaps the two. */
    method SwitchTimerLists(ghost base: nat)
      requires Consistent(base) && Known(world) && base % WRAP == 0
      modifies this`current, this`overflow, this`queue, this`calls, this`world
      ensures world == Drain(old(world), base + WRAP)
      ensures Consistent(base + WRAP) && overflow == []
    {
      hide Stands, Known, DrainOne;
      ghost var end := base + WRAP;
      while current != []
        invariant Consistent(base) && Known(world) && world.timers == old(world.timers)
        invariant Drain(world, end) == Drain(old(world), end)
        decreases Load(world.armed, end)
      {
        HeadKnown(current, overflow, queue, calls, world, base);
        DrainOneProgress(world, end);
        ghost var current0, queue0, calls0 := current, queue, calls;
        var next := current[0].key;
        var id := current[0].id;
        current := current[1..];
        calls := calls + [id];
        if timers[id].autoReload {
          var reload := (next + timers[id].period) % WRAP;
          if reload > next {
            current := InsertSorted(current, Entry(reload, id));
          } else {
            queue := queue + [Start(id, next)];
          }
        }
        TurnStands(current0, overflow, queue0, calls0, world, base, current, queue);
        world := DrainOne(world, end);
      }
      SwapStands(overflow, queue, calls, world, base);
      current, overflow := overflow, current;
    }

    /** prvSampleTimeNow at tick count `tick`, the low bits of the time `t`. */
    method SampleTimeNow(tick: nat, ghost t: nat) returns (switched: bool)
      requires Valid() && tick == Tick(t)
      requires world.now <= t && (t - world.now < WRAP || world.armed == [])
      modifies this
      ensures Valid() && world == Sample(old(world), t) && world.now == t && timers == old(timers)
      ensures t - old(world.now) < WRAP ==> (switched <==> Epoch(old(world.now)) < Epoch(t))
      ensures old(world.armed) == [] ==> world.armed == []
      ensures !switched ==> current == old(current) && overflow == old(overflow)
    {
      hide Inv, Stands, Tick, Epoch;
      ghost var base := Epoch(world.now) * WRAP;
      SampleByTicks(world, t);
      EpochStarts(world.now);
      ClockStands(current, overflow, queue, calls, world, base, t);
      ghost var idle := world.armed == [];
      world := world.(now := t);
      if idle {
        EmptyStands(current, overflow, queue, calls, world, base, Epoch(t) * WRAP);
      }
      if tick < lastTime {
        SwitchTimerLists(base);
        if idle {
          EmptyStands(current, overflow, queue, calls, world, base + WRAP, Epoch(t) * WRAP);
        }
        switched := true;
      } else {
        switched := false;
      }
      lastTime := tick;
    }

    /** xTimerGenericCommand: `stored` is the message that keeps 32 bits of `c`, `room` whether the queue takes it. */
    method GenericCommand(stored: Command, room: bool, ghost c: Command) returns (posted: bool)
      requires Valid() && c.id in timers && stored == Stored(c)
      modifies this`queue, this`world
      ensures Valid() && posted == room
      ensures world == if room then Step(old(world), Send(c)) else old(world)
    {
      hide Stands;
      posted := room;
      if posted {
        PostStands(current, overflow, queue, calls, world, Epoch(world.now) * WRAP, c);
        queue := queue + [stored];
        world := Post(world, c);
      }
    }

    /** prvInsertTimerInActiveList, called as the daemon calls it: `next` is the command time plus the period. */
    method InsertTimerInActiveList(id: nat, next: nat, now: nat, commandTime: nat, ghost command: nat)
      returns (processNow: bool)
      requires Valid() && id in timers && (forall e :: e in world.armed ==> e.id != id)
      requires command <= world.now < command + WRAP
      requires now == Tick(world.now) && commandTime == Tick(command)
      requires next == Tick(commandTime + timers[id].period)
      modifies this`current, this`overflow, this`world
      ensures Valid()
      ensures processNow <==> command + timers[id].period <= world.now
      ensures world == if processNow then old(world) else Arm(old(world), id, command + timers[id].period)
    {
      hide Inv, Stands, Epoch;
      ghost var due := command + timers[id].period;
      ghost var base := Epoch(world.now) * WRAP;
      InsertionTest(command, timers[id].period, world.now);
      EpochStarts(world.now);
      processNow := false;
      if next <= now {
        if (now + WRAP - commandTime) % WRAP >= timers[id].period {
          processNow := true;
        } else {
          ArmOverflowStands(current, overflow, queue, calls, world, base, Entry(next, id));
          overflow := InsertSorted(overflow, Entry(next, id));
        }
      } else {
        if now < commandTime && next >= commandTime {
          processNow := true;
        } else {
          ArmCurrentStands(current, overflow, queue, calls, world, base, Entry(next, id));
          current := InsertSorted(current, Entry(next, id));
        }
      }
      if !processNow {
        ArmKeepsInv(world, id, due);
        world := Arm(world, id, due);
      }
    }

    /** prvProcessExpiredTimer: the head of the current list expires at `next`, which has passed. */
    method ProcessExpiredTimer(next: nat, now: nat)
      requires Valid() && current != [] && next == current[0].key && now == Tick(world.now) && next <= now
      requires Known(world) && world.armed != []
      modifies this
      ensures Valid() && world == Expire(old(world))
    {
      hide Inv, Stands, Tick, Epoch;
      ghost var base := Epoch(world.now) * WRAP;
      ghost var e := world.armed[0];
      HeadStands(current, overflow, queue, calls, world, base);
      ExpiredHead(world, current[0]);
      var id := current[0].id;
      TailKeepsInv(world);
      current := current[1..];
      world := world.(armed := world.armed[1..]);
      if timers[id].autoReload {
        var expired := InsertTimerInActiveList(id, (next + timers[id].period) % WRAP, now, next, e.key);
        if expired {
          var posted := GenericCommand(Start(id, next), true, Start(id, e.key));
        }
      }
      FireKeepsInv(world, id, e.key);
      FireStands(current, overflow, queue, calls, world, base, id, e.key);
      calls := calls + [id];
      world := Fire(world, id, e.key);
    }

    /** What the daemon knows of the next expiry: the head of the current list, or that none is due in this epoch. */
    ghost predicate NextExpiry(next: nat, listWasEmpty: bool)
      reads this
    {
      if listWasEmpty then
        next == 0 && current == [] && forall e :: e in world.armed ==> EpochEnd(world.now) <= e.key
      else
        && current != [] && next == current[0].key
        && world.armed != [] && world.armed[0].key == Epoch(world.now) * WRAP + next
        && forall e :: e in world.armed ==> world.armed[0].key <= e.key
    }

    /** prvGetNextExpireTime. */
    method GetNextExpireTime() returns (next: nat, listWasEmpty: bool)
      requires Valid()
      ensures NextExpiry(next, listWasEmpty)
    {
      hide Inv, Stands;
      NextIs(current, overflow, queue, calls, world);
      listWasEmpty := current == [];
      next := if listWasEmpty then 0 else current[0].key;
    }

    /**
     prvProcessTimerOrBlockTask.  When the task blocks it sleeps until the earliest expiry in
     this epoch or, with none, until the wrap, and without a limit exactly when no timer is
     armed.  (At tick 0 the wait for the wrap is a wait of no ticks.)
     */
    method ProcessTimerOrBlockTask(next: nat, listWasEmpty: bool, tick: nat, ghost t: nat)
      returns (blocked: bool, ticks: nat, indefinitely: bool)
      requires Valid() && NextExpiry(next, listWasEmpty)
      requires tick == Tick(t) && Known(world) && Enabled(world, Process(t))
      modifies this
      ensures Valid() && world == Step(old(world), Process(t)) && world.now == t
      ensures blocked ==> t + ticks == WakeTime(world, listWasEmpty)
      ensures blocked ==> (indefinitely <==> world.armed == [])
    {
      hide Inv, Stands, Epoch, Tick;
      blocked, ticks, indefinitely := false, 0, false;
      ArmedHead(current, overflow, queue, calls, world);
      var switched := SampleTimeNow(tick, t);
      ArmedHead(current, overflow, queue, calls, world);
      if !switched {
        if !listWasEmpty && next <= tick {
          ghost var sampled := world;
          ProcessExpiredTimer(next, tick);
          ExpireNow(sampled);
        } else {
          indefinitely := listWasEmpty;
          if listWasEmpty {
            indefinitely := overflow == [];
          }
          BlockTime(current, overflow, queue, calls, world);
          ticks := (next + WRAP - tick) % WRAP;
          blocked := true;
        }
      }
    }

    /** A start handled after its expiry: the callback runs now and an auto-reload timer posts its own reload. */
    method FireLate(id: nat, expiry: nat, ghost due: nat)
      requires Valid() && id in timers && due <= world.now && expiry == Tick(due)
      modifies this`calls, this`queue, this`world
      ensures Valid()
      ensures world == if timers[id].autoReload then Post(Fire(old(world), id, due), Start(id, due))
                       else Fire(old(world), id, due)
    {
      hide Inv, Stands, Epoch, Tick;
      FireStands(current, overflow, queue, calls, world, Epoch(world.now) * WRAP, id, due);
      FireKeepsInv(world, id, due);
      calls := calls + [id];
      world := Fire(world, id, due);
      if timers[id].autoReload {
        var posted := GenericCommand(Start(id, expiry), true, Start(id, due));
      }
    }

    /** The switch on the message in prvProcessReceivedCommands; the timer is in no list by now. */
    method ExecuteCommand(c: Command, tick: nat, ghost absolute: Command)
      requires Valid() && c == Stored(absolute) && c.id in timers && tick == Tick(world.now)
      requires forall e :: e in world.armed ==> e.id != c.id
      requires absolute.Start? ==> absolute.stamp <= world.now < absolute.stamp + WRAP
      modifies this
      ensures Valid() && world == Execute(old(world), absolute)
    {
      hide Inv, Stands, Epoch, Tick;
      ExecuteKeepsInv(world, absolute);
      match c
      case Start(id, value) => {
        StartTicks(absolute.stamp, timers[id].period);
        var expired := InsertTimerInActiveList(id, (value + timers[id].period) % WRAP, tick, value, absolute.stamp);
        if expired {
          FireLate(id, (value + timers[id].period) % WRAP, absolute.stamp + timers[id].period);
        }
      }
      case Stop(_) => {
      }
      case ChangePeriod(id, period) => {
        StartTicks(world.now, period);
        RetimedKeepsInv(world, id, period);
        TimersStand(current, overflow, queue, calls, world, Epoch(world.now) * WRAP,
                    timers[id := timers[id].(period := period)]);
        timers := timers[id := timers[id].(period := period)];
        world := world.(timers := timers);
        var expired := InsertTimerInActiveList(id, (tick + period) % WRAP, tick, tick, world.now);
      }
      case Delete(id) => {
        TimersStand(current, overflow, queue, calls, world, Epoch(world.now) * WRAP, timers - {id});
        timers := timers - {id};
        world := world.(timers := timers);
      }
    }

    /** One turn of the loop in prvProcessReceivedCommands. */
    method ProcessReceivedCommand(tick: nat, ghost t: nat)
      requires Valid() && tick == Tick(t) && Known(world) && Enabled(world, Handle(t))
      modifies this
      ensures Valid() && world == Step(old(world), Handle(t))
    {
      hide Inv, Stands, Epoch, Tick, Without;
      ghost var absolute := world.queue[0];
      TakenStands(current, overflow, queue, calls, world, Epoch(world.now) * WRAP);
      TakenKeepsInv(world);
      var c := queue[0];
      queue := queue[1..];
      current, overflow := Without(current, c.id), Without(overflow, c.id);
      world := Taken(world);
      SampledUnarmed(world, t, c.id);
      var switched := SampleTimeNow(tick, t);
      ExecuteCommand(c, tick, absolute);
    }

    /** Commands that tasks send, one after the other. */
    method SendAll(arrived: seq<Command>, ghost cs: seq<Command>, ghost rest: seq<Event>)
      requires Valid() && AllStored(cs, arrived) && Possible(world, Sends(cs) + rest)
      modifies this`queue, this`world
      ensures Valid() && Possible(world, rest) && Run(world, rest) == Run(old(world), Sends(cs) + rest)
      ensures world.armed == old(world.armed) && world.now == old(world.now)
    {
      hide Inv, Stands, Stored, Possible, Run;
      ghost var all := Sends(cs) + rest;
      var i := 0;
      assert cs[0..] == cs;
      while i < |arrived|
        invariant i <= |arrived| && Valid() && world.armed == old(world.armed) && world.now == old(world.now)
        invariant Possible(world, Sends(cs[i..]) + rest) && Run(world, Sends(cs[i..]) + rest) == Run(old(world), all)
      {
        assert Sends(cs[i..]) + rest == [Send(cs[i])] + (Sends(cs[i + 1..]) + rest);
        RunCons(world, Send(cs[i]), Sends(cs[i + 1..]) + rest);
        var posted := GenericCommand(arrived[i], true, cs[i]);
        i := i + 1;
      }
      assert Sends(cs[i..]) + rest == rest;
    }

    /** prvProcessReceivedCommands: the loop ends when it finds the queue empty. */
    method ProcessReceivedCommands(moments: seq<Reading>, ghost ms: seq<Moment>)
      requires Valid() && AllRead(ms, moments)
      requires Possible(world, HandleEvents(ms)) && Run(world, HandleEvents(ms)).queue == []
      modifies this
      ensures Valid() && world == Run(old(world), HandleEvents(ms)) && queue == []
    {
      hide Inv, Stands, Tick, AllStored, Step, Enabled, Possible, Run;
      var i := 0;
      assert ms[0..] == ms;
      if i < |moments| {
        Arrive(ms, 0);
        SendAll(moments[i].arrived, ms[i].arrived, HandledThen(ms, i));
      }
      NoEvents(world);
      SameQueue(this);
      while queue != []
        invariant Valid() && i <= |ms|
        invariant Possible(world, HandledThen(ms, i)) && Run(world, HandledThen(ms, i)) == Run(old(world), HandleEvents(ms))
        invariant i == |ms| ==> queue == []
        decreases |ms| - i
      {
        RunCons(world, Handle(ms[i].t), HandleEvents(ms[i + 1..]));
        ProcessReceivedCommand(moments[i].tick, ms[i].t);
        i := i + 1;
        if i < |moments| {
          Arrive(ms, i);
          SendAll(moments[i].arrived, ms[i].arrived, HandledThen(ms, i));
        }
        NoEvents(world);
        SameQueue(this);
      }
      if i < |ms| {
        HandleNeedsCommand(world, ms, i);
        SameQueue(this);
      }
      NoEvents(world);
    }

    /** prvTimerTask, for as many turns as are given. */
    method Serve(turns: seq<TurnReadings>, ghost ts: seq<Turn>)
      requires Valid() && |turns| == |ts| && (forall i :: 0 <= i < |ts| ==> TurnRead(ts[i], turns[i]))
      requires LoopAllows(world, ts)
      modifies this
      ensures Valid() && Possible(old(world), LoopEvents(ts)) && world == Run(old(world), LoopEvents(ts))
    {
      hide Inv, Stands, Tick, AllStored, AllRead, Step, Enabled, Possible, Run, LoopAllows, TurnEvents;
      ghost var start := world;
      var k := 0;
      assert ts[0..] == ts && ts[..0] == [];
      NoEvents(world);
      while k < |turns|
        invariant k <= |turns| && Valid() && LoopAllows(world, ts[k..])
        invariant Possible(start, LoopEvents(ts[..k])) && world == Run(start, LoopEvents(ts[..k]))
      {
        ghost var before := world;
        ghost var turn := ts[k];
        assert TurnRead(turn, turns[k]);
        TurnOf(world, ts, k);
        var next, listWasEmpty := GetNextExpireTime();
        ghost var rest := [Process(turn.wake.t)] + HandleEvents(turn.handled);
        SendAll(turns[k].wake.arrived, turn.wake.arrived, rest);
        RunCons(world, Process(turn.wake.t), HandleEvents(turn.handled));
        var blocked, ticks, indefinitely := ProcessTimerOrBlockTask(next, listWasEmpty, turns[k].wake.tick, turn.wake.t);
        ProcessReceivedCommands(turns[k].handled, turn.handled);
        OneMoreTurn(start, ts, k, before);
        k := k + 1;
      }
      assert ts[..k] == ts;
    }
  }

  /** What the daemon reads and receives of a moment: a tick count and stored messages. */
  datatype Reading = Reading(arrived: seq<Command>, tick: nat)

  datatype TurnReadings = TurnReadings(wake: Reading, handled: seq<Reading>)

  ghost predicate Read(m: Moment, r: Reading) {
    AllStored(m.arrived, r.arrived) && r.tick == Tick(m.t)
  }

  ghost predicate AllRead(ms: seq<Moment>, rs: seq<Reading>) {
    |ms| == |rs| && forall i :: 0 <= i < |ms| ==> Read(ms[i], rs[i])
  }

  ghost predicate TurnRead(t: Turn, r: TurnReadings) {
    Read(t.wake, r.wake) && AllRead(t.handled, r.handled)
  }

  lemma NoEvents(w: World)
    requires Inv(w)
    ensures Possible(w, []) && Run(w, []) == w
  {
  }

  lemma SameQueue(task: TimerTask)
    requires task.Valid()
    ensures task.queue == [] <==> task.world.queue == []
  {
  }

  lemma Arrive(ms: seq<Moment>, i: nat)
    requires i < |ms|
    ensures HandleEvents(ms[i..]) == Sends(ms[i].arrived) + HandledThen(ms, i)
  {
    assert ms[i..][1..] == ms[i + 1..];
    assert Sends(ms[i].arrived) + [Handle(ms[i].t)] + HandleEvents(ms[i + 1..])
        == Sends(ms[i].arrived) + ([Handle(ms[i].t)] + HandleEvents(ms[i + 1..]));
  }

  lemma HandleNeedsCommand(w: World, ms: seq<Moment>, i: nat)
    requires Inv(w) && i < |ms| && Possible(w, HandledThen(ms, i))
    ensures w.queue != []
  {
    RunCons(w, Handle(ms[i].t), HandleEvents(ms[i + 1..]));
  }

  lemma TurnOf(w: World, ts: seq<Turn>, k: nat)
    requires Inv(w) && k < |ts| && LoopAllows(w, ts[k..])
    ensures var events := TurnEvents(ts[k]);
            && events == Sends(ts[k].wake.arrived) + ([Process(ts[k].wake.t)] + HandleEvents(ts[k].handled))
            && Possible(w, events) && Run(w, events).queue == []
            && Inv(Run(w, events)) && LoopAllows(Run(w, events), ts[k + 1..])
  {
    hide Inv, Possible, Run;
    assert ts[k..][0] == ts[k] && ts[k..][1..] == ts[k + 1..];
    RunKeepsInv(w, TurnEvents(ts[k]));
    assert TurnEvents(ts[k]) == Sends(ts[k].wake.arrived) + ([Process(ts[k].wake.t)] + HandleEvents(ts[k].handled));
  }

  lemma {:induction false} LoopEventsAppend(ts: seq<Turn>, t: Turn)
    ensures LoopEvents(ts + [t]) == LoopEvents(ts) + TurnEvents(t)
  {
    hide TurnEvents;
    if ts == [] {
      assert ts + [t] == [t] && LoopEvents([t]) == TurnEvents(t) + LoopEvents([]);
    } else {
      assert (ts + [t])[1..] == ts[1..] + [t];
      LoopEventsAppend(ts[1..], t);
    }
  }

  lemma OneMoreTurn(start: World, ts: seq<Turn>, k: nat, before: World)
    requires Inv(start) && k < |ts| && Possible(start, LoopEvents(ts[..k])) && before == Run(start, LoopEvents(ts[..k]))
    requires Inv(before) && Possible(before, TurnEvents(ts[k]))
    ensures Possible(start, LoopEvents(ts[..k + 1]))
    ensures Run(start, LoopEvents(ts[..k + 1])) == Run(before, TurnEvents(ts[k]))
  {
    hide Inv, Possible, Run, TurnEvents;
    assert ts[..k + 1] == ts[..k] + [ts[k]];
    LoopEventsAppend(ts[..k], ts[k]);
    RunAppend(start, LoopEvents(ts[..k]), TurnEvents(ts[k]));
  }

  /** What follows the arrivals of moment i. */
  function HandledThen(ms: seq<Moment>, i: nat): seq<Event>
    requires i <= |ms|
  {
    if i == |ms| then [] else [Handle(ms[i].t)] + HandleEvents(ms[i + 1..])
  }

  /** The head of the current list, when its tick value has passed, stands for an expiry of this epoch. */
  lemma ExpiredHead(w: World, head: Entry)
    requires Inv(w) && w.armed != [] && w.armed[0] == Entry(Epoch(w.now) * WRAP + head.key, head.id)
    requires head.key <= Tick(w.now)
    ensures head.id in w.timers && w.armed[0].key <= w.now < w.armed[0].key + WRAP && Tick(w.armed[0].key) == head.key
    ensures Stored(Start(head.id, w.armed[0].key)) == Start(head.id, head.key)
    ensures Tick(head.key + w.timers[head.id].period) == (head.key + w.timers[head.id].period) % WRAP
  {
    EpochCases(w.now, w.now);
    assert w.armed[0] in w.armed;
  }

  /** Which list the earliest timer is in. */
  lemma ArmedHead(current: seq<Entry>, overflow: seq<Entry>, queue: seq<Command>, calls: seq<nat>, w: World)
    requires Inv(w) && Stands(current, overflow, queue, calls, w, Epoch(w.now) * WRAP)
    ensures current != [] ==> w.armed != [] && w.armed[0].key == Epoch(w.now) * WRAP + current[0].key
    ensures current == [] && w.armed != [] ==> w.now < w.armed[0].key
    ensures current != [] ==> (current[0].key <= Tick(w.now) <==> w.armed[0].key <= w.now)
  {
    EpochCases(w.now, w.now);
    HeadOfArmed(current, overflow, queue, calls, w, Epoch(w.now) * WRAP);
    if w.armed != [] {
      assert w.armed[0] in w.armed;
    }
  }

  /** When a daemon that blocks at `w.now` wants to be woken. */
  ghost function WakeTime(w: World, listWasEmpty: bool): nat {
    if !listWasEmpty && w.armed != [] then w.armed[0].key
    else if Tick(w.now) == 0 then w.now
    else EpochEnd(w.now)
  }

  lemma ExpireNow(w: World)
    requires Known(w) && w.armed != []
    ensures Expire(w).now == w.now
  {
  }

  lemma NextIs(current: seq<Entry>, overflow: seq<Entry>, queue: seq<Command>, calls: seq<nat>, w: World)
    requires Inv(w) && Stands(current, overflow, queue, calls, w, Epoch(w.now) * WRAP)
    ensures current == [] ==> forall e :: e in w.armed ==> EpochEnd(w.now) <= e.key
    ensures current != [] ==>
              && w.armed != [] && w.armed[0].key == Epoch(w.now) * WRAP + current[0].key
              && forall e :: e in w.armed ==> w.armed[0].key <= e.key
  {
    hide Stands;
    HeadOfArmed(current, overflow, queue, calls, w, Epoch(w.now) * WRAP);
  }

  lemma TicksAhead(now: nat, next: nat)
    requires next < WRAP
    ensures Tick(now) < next ==> now + (next + WRAP - Tick(now)) % WRAP == Epoch(now) * WRAP + next
    ensures next == 0 ==> now + (next + WRAP - Tick(now)) % WRAP == if Tick(now) == 0 then now else EpochEnd(now)
  {
    EpochCases(now, now);
  }

  /** The 32-bit difference to the head, or to the wrap when only later epochs have timers. */
  lemma BlockTime(current: seq<Entry>, overflow: seq<Entry>, queue: seq<Command>, calls: seq<nat>, w: World)
    requires Inv(w) && Stands(current, overflow, queue, calls, w, Epoch(w.now) * WRAP)
    requires current == [] || Tick(w.now) < current[0].key
    ensures var next := if current == [] then 0 else current[0].key;
            var ticks := (next + WRAP - Tick(w.now)) % WRAP;
            && w.now + ticks == WakeTime(w, current == [])
            && w.now + ticks <= EpochEnd(w.now)
            && (forall e :: e in w.armed ==> w.now + ticks <= e.key)
    ensures w.armed == [] <==> current == [] && overflow == []
  {
    hide Stands, Tick;
    EpochCases(w.now, w.now);
    HeadOfArmed(current, overflow, queue, calls, w, Epoch(w.now) * WRAP);
    TicksAhead(w.now, if current == [] then 0 else current[0].key);
  }

  lemma TimersStand(current: seq<Entry>, overflow: seq<Entry>, queue: seq<Command>, calls: seq<nat>, w: World,
                    base: nat, timers: map<nat, Timer>)
    requires Stands(current, overflow, queue, calls, w, base)
    ensures Stands(current, overflow, queue, calls, w.(timers := timers), base)
  {
  }

  lemma SampledUnarmed(w: World, t: nat, id: nat)
    requires Known(w) && forall e :: e in w.armed ==> e.id != id
    ensures forall e :: e in Sample(w, t).armed ==> e.id != id
  {
    DrainArmsNothingNew(w.(now := t), EpochEnd(w.now), id);
  }

  lemma StartTicks(stamp: nat, period: Period)
    ensures Tick(Tick(stamp) + period) == (Tick(stamp) + period) % WRAP
    ensures Tick(stamp + period) == (Tick(stamp) + period) % WRAP
  {
  }

  lemma RetimedKeepsInv(w: World, id: nat, period: Period)
    requires Inv(w) && id in w.timers
    ensures Inv(w.(timers := w.timers[id := w.timers[id].(period := period)]))
  {
  }

  lemma EpochStarts(t: nat)
    ensures (Epoch(t) * WRAP) % WRAP == 0
  {
  }
}
