/**
 The software-timer daemon in unbounded time.  Ticks never wrap here, all armed timers
 are in one list sorted by absolute expiry, and every step is a function of the tick
 count sampled in it.  TimerTask proves that the 32-bit, two-list daemon computes
 exactly these steps.
 */
module TimerSpec {
  import opened Arith
  import opened Entries

  /** The number of values of a TickType_t. */
  const WRAP: nat := 0x1_0000_0000

  type Period = p: nat | 0 < p < WRAP witness 1

  datatype Timer = Timer(period: Period, autoReload: bool)

  /** Start also stands for reset and for the daemon's own reload; its stamp is the time it was issued. */
  datatype Command =
    | Start(id: nat, stamp: nat)
    | Stop(id: nat)
    | ChangePeriod(id: nat, period: Period)
    | Delete(id: nat)

  /** One call of a timer's callback: the expiry it is for and the time the daemon knew when it ran. */
  datatype Callback = Callback(id: nat, due: nat, at: nat)

  datatype World = World(now: nat, armed: seq<Entry>, timers: map<nat, Timer>,
                         queue: seq<Command>, log: seq<Callback>)

  /** Sending a command; draining the list head or blocking; handling the oldest command. */
  datatype Event = Send(c: Command) | Process(t: nat) | Handle(t: nat)

  function Epoch(t: nat): nat { t / WRAP }

  /** The first tick of the epoch after the one of `t`. */
  function EpochEnd(t: nat): nat { (Epoch(t) + 1) * WRAP }

  ghost predicate Known(w: World) {
    forall e :: e in w.armed ==> e.id in w.timers
  }

  // ----- the steps -----

  function Fire(w: World, id: nat, due: nat): World {
    w.(log := w.log + [Callback(id, due, w.now)])
  }

  function Arm(w: World, id: nat, due: nat): World {
    w.(armed := InsertSorted(w.armed, Entry(due, id)))
  }

  function Post(w: World, c: Command): World {
    w.(queue := w.queue + [c])
  }

  /** What a start command does: arm, or run the callback that is already late. */
  function Restart(w: World, id: nat, stamp: nat): World
    requires id in w.timers
  {
    var due := stamp + w.timers[id].period;
    if w.now < due then Arm(w, id, due)
    else if w.timers[id].autoReload then Post(Fire(w, id, due), Start(id, due))
    else Fire(w, id, due)
  }

  /** The list head is taken and, if it reloads, armed again or its reload posted. */
  function Reloaded(w: World): World
    requires w.armed != [] && Known(w)
  {
    var e := w.armed[0];
    var t := w.timers[e.id];
    var rest := w.(armed := w.armed[1..]);
    if !t.autoReload then rest
    else if e.key + t.period <= w.now then Post(rest, Start(e.id, e.key))
    else Arm(rest, e.id, e.key + t.period)
  }

  /** The list head has expired. */
  function Expire(w: World): World
    requires w.armed != [] && Known(w)
  {
    Fire(Reloaded(w), w.armed[0].id, w.armed[0].key)
  }

  /** One turn of the list switch: the head fires, and is due again in this epoch or reloads by command. */
  function DrainOne(w: World, end: nat): World
    requires w.armed != [] && Known(w)
  {
    var e := w.armed[0];
    var t := w.timers[e.id];
    var fired := Fire(w.(armed := w.armed[1..]), e.id, e.key);
    if !t.autoReload then fired
    else if e.key + t.period < end then Arm(fired, e.id, e.key + t.period)
    else Post(fired, Start(e.id, e.key))
  }

  /** Ticks left before `end`, summed over the armed timers: what the list switch uses up. */
  function Load(list: seq<Entry>, end: nat): nat {
    if list == [] then 0
    else (if list[0].key < end then end - list[0].key else 0) + Load(list[1..], end)
  }

  lemma {:induction false} LoadInsert(list: seq<Entry>, x: Entry, end: nat)
    ensures Load(InsertSorted(list, x), end) == Load(list, end) + if x.key < end then end - x.key else 0
  {
    if list == [] || x.key < list[0].key {
      assert ([x] + list)[1..] == list;
    } else {
      LoadInsert(list[1..], x, end);
    }
  }

  lemma DrainOneProgress(w: World, end: nat)
    requires w.armed != [] && Known(w) && w.armed[0].key < end
    ensures Known(DrainOne(w, end)) && DrainOne(w, end).timers == w.timers
    ensures Load(DrainOne(w, end).armed, end) < Load(w.armed, end)
  {
    var e := w.armed[0];
    var x := Entry(e.key + w.timers[e.id].period, e.id);
    InsertMembers(w.armed[1..], x);
    LoadInsert(w.armed[1..], x, end);
  }

  /** The list switch: everything that expires before `end` fires. */
  function Drain(w: World, end: nat): World
    requires Known(w)
    decreases Load(w.armed, end)
  {
    if w.armed == [] || end <= w.armed[0].key then w
    else
      DrainOneProgress(w, end);
      Drain(DrainOne(w, end), end)
  }

  /** The daemon learns that the time is `t`. */
  function Sample(w: World, t: nat): World
    requires Known(w)
  {
    if Epoch(w.now) < Epoch(t) then Drain(w.(now := t), EpochEnd(w.now)) else w.(now := t)
  }

  function Execute(w: World, c: Command): World
    requires c.id in w.timers
  {
    match c
    case Start(id, stamp) => Restart(w, id, stamp)
    case Stop(_) => w
    case ChangePeriod(id, p) =>
      Arm(w.(timers := w.timers[id := w.timers[id].(period := p)]), id, w.now + p)
    case Delete(id) => w.(timers := w.timers - {id})
  }

  /** The command leaves the queue and its timer leaves its list before the time is sampled. */
  function Taken(w: World): World
    requires w.queue != []
  {
    w.(queue := w.queue[1..], armed := Without(w.armed, w.queue[0].id))
  }

  /**
   What a run may assume of its environment: time does not go back, samples are less than
   one wrap apart while a timer is armed, a start is handled less than one wrap after its
   stamp, and commands name timers that exist.
   */
  ghost predicate Enabled(w: World, e: Event) {
    match e
    case Send(c) => c.id in w.timers
    case Process(t) => w.now <= t && (t - w.now < WRAP || w.armed == [])
    case Handle(t) =>
      && w.queue != []
      && w.queue[0].id in w.timers
      && w.now <= t
      && (t - w.now < WRAP || Taken(w).armed == [])
      && (w.queue[0].Start? ==> w.queue[0].stamp <= t < w.queue[0].stamp + WRAP)
  }

  lemma SampleFrame(w: World, t: nat)
    requires Known(w)
    ensures Known(Sample(w, t)) && Sample(w, t).timers == w.timers
  {
    DrainFrame(w.(now := t), EpochEnd(w.now));
  }

  lemma TakenKnown(w: World)
    requires Known(w) && w.queue != []
    ensures Known(Taken(w))
  {
    WithoutMembers(w.armed, w.queue[0].id);
  }

  /** A sample changes neither the timers nor the order of what was queued before. */
  lemma {:induction false} DrainFrame(w: World, end: nat)
    requires Known(w)
    ensures Known(Drain(w, end))
    ensures Drain(w, end).timers == w.timers && Drain(w, end).now == w.now
    ensures w.queue <= Drain(w, end).queue && w.log <= Drain(w, end).log
    decreases Load(w.armed, end)
  {
    if w.armed != [] && w.armed[0].key < end {
      DrainOneProgress(w, end);
      DrainFrame(DrainOne(w, end), end);
    }
  }

  function Step(w: World, e: Event): World
    requires Known(w) && Enabled(w, e)
  {
    match e
    case Send(c) => Post(w, c)
    case Process(t) =>
      var s := Sample(w, t);
      if Epoch(w.now) < Epoch(t) then s
      else if s.armed != [] && s.armed[0].key <= t then Expire(s)
      else s
    case Handle(t) =>
      TakenKnown(w);
      DrainFrame(Taken(w).(now := t), EpochEnd(w.now));
      Execute(Sample(Taken(w), t), w.queue[0])
  }

  // ----- the epoch invariant -----

  /** The armed list is sorted, no timer is in it twice, and every expiry is in this epoch or the next. */
  ghost predicate Inv(w: World) {
    && Known(w)
    && Sorted(w.armed)
    && DistinctIds(w.armed)
    && (forall e :: e in w.armed ==> Epoch(w.now) * WRAP <= e.key < EpochEnd(w.now) + WRAP)
    && (forall c :: c in w.log ==> c.due <= c.at <= w.now)
  }

  /** The part of Inv that does not depend on which epoch it is; the drain works under it. */
  ghost predicate Ordered(w: World, limit: nat) {
    && Known(w)
    && Sorted(w.armed)
    && DistinctIds(w.armed)
    && (forall e :: e in w.armed ==> e.key < limit)
    && (forall c :: c in w.log ==> c.due <= c.at <= w.now)
  }

  lemma TailFacts(w: World, limit: nat)
    requires Ordered(w, limit) && w.armed != []
    ensures Ordered(w.(armed := w.armed[1..]), limit)
    ensures forall e :: e in w.armed[1..] ==> e.id != w.armed[0].id && w.armed[0].key <= e.key
  {
  }

  lemma ArmKeepsOrder(w: World, limit: nat, id: nat, due: nat)
    requires Ordered(w, limit) && due < limit && id in w.timers
    requires forall e :: e in w.armed ==> e.id != id
    ensures Ordered(Arm(w, id, due), limit)
    ensures forall e :: e in Arm(w, id, due).armed <==> e == Entry(due, id) || e in w.armed
  {
    InsertKeepsSorted(w.armed, Entry(due, id));
    InsertKeepsDistinct(w.armed, Entry(due, id));
    InsertMembers(w.armed, Entry(due, id));
  }

  lemma DrainOneKeepsOrder(w: World, end: nat, limit: nat)
    requires Ordered(w, limit) && end <= limit && end <= w.now
    requires w.armed != [] && w.armed[0].key < end
    ensures Ordered(DrainOne(w, end), limit)
    ensures forall e :: e in DrainOne(w, end).armed ==> w.armed[0].key <= e.key
  {
    var e := w.armed[0];
    TailFacts(w, limit);
    var fired := Fire(w.(armed := w.armed[1..]), e.id, e.key);
    if w.timers[e.id].autoReload && e.key + w.timers[e.id].period < end {
      ArmKeepsOrder(fired, limit, e.id, e.key + w.timers[e.id].period);
    }
  }

  lemma {:induction false} DrainKeepsOrder(w: World, end: nat, limit: nat)
    requires Ordered(w, limit) && end <= limit && end <= w.now
    ensures Ordered(Drain(w, end), limit)
    ensures forall e :: e in Drain(w, end).armed ==> end <= e.key
    decreases Load(w.armed, end)
  {
    if w.armed != [] && w.armed[0].key < end {
      DrainOneKeepsOrder(w, end, limit);
      DrainOneProgress(w, end);
      DrainKeepsOrder(DrainOne(w, end), end, limit);
    }
  }

  /** The callbacks that one drain runs. */
  ghost function DrainCalls(w: World, end: nat): seq<Callback>
    requires Known(w)
  {
    DrainFrame(w, end);
    Drain(w, end).log[|w.log|..]
  }

  ghost predicate InExpiryOrder(calls: seq<Callback>, first: nat, end: nat, at: nat) {
    && (forall i :: 0 <= i < |calls| ==> first <= calls[i].due < end && calls[i].at == at)
    && (forall i, j :: 0 <= i < j < |calls| ==> calls[i].due <= calls[j].due)
  }

  lemma DrainCallsUnfold(w: World, end: nat)
    requires Known(w) && w.armed != [] && w.armed[0].key < end
    ensures Known(DrainOne(w, end))
    ensures DrainCalls(w, end)
         == [Callback(w.armed[0].id, w.armed[0].key, w.now)] + DrainCalls(DrainOne(w, end), end)
  {
    DrainOneProgress(w, end);
    DrainFrame(DrainOne(w, end), end);
    DrainFrame(w, end);
  }

  /** The call `c` is for the k-th expiry, counted from the armed one, of the timer of `e`. */
  ghost predicate DueFor(w: World, end: nat, c: Callback, e: Entry, k: nat)
    requires Known(w)
  {
    && e in w.armed && c == Callback(e.id, e.key + k * w.timers[e.id].period, w.now)
    && c.due < end && (k > 0 ==> w.timers[e.id].autoReload)
  }

  /** What is due before `end`: an armed expiry, or a later one of a timer that reloads. */
  ghost predicate IsDue(w: World, end: nat, c: Callback)
    requires Known(w)
  {
    exists e, k :: DueFor(w, end, c, e, k)
  }

  ghost predicate EachOnce(calls: seq<Callback>) {
    forall i, j :: 0 <= i < j < |calls| ==> calls[i] != calls[j]
  }

  lemma LaterExpiry(key: nat, k: nat, p: nat)
    ensures key + p + k * p == key + (k + 1) * p
    ensures k > 0 ==> key + p <= key + k * p
  {
    if k > 0 {
      MulMono(1, k, p);
    }
  }

  /** What is due is the head, and what is due after one turn. */
  lemma DueUnfold(w: World, end: nat, c: Callback)
    requires Known(w) && w.armed != [] && w.armed[0].key < end
    ensures Known(DrainOne(w, end))
    ensures IsDue(w, end, c) <==>
              c == Callback(w.armed[0].id, w.armed[0].key, w.now) || IsDue(DrainOne(w, end), end, c)
  {
    hide DrainOne;
    DrainOneProgress(w, end);
    DrainOneArmed(w, end);
    var head := w.armed[0];
    if e, k: nat :| DueFor(w, end, c, e, k) {
      DueStays(w, end, c, e, k);
    }
    if c == Callback(head.id, head.key, w.now) {
      assert DueFor(w, end, c, head, 0);
    }
    if e, k: nat :| DueFor(DrainOne(w, end), end, c, e, k) {
      DueWas(w, end, c, e, k);
    }
  }

  /** What is due is the head's expiry or is still due after one turn. */
  lemma DueStays(w: World, end: nat, c: Callback, e: Entry, k: nat)
    requires Known(w) && w.armed != [] && w.armed[0].key < end && DueFor(w, end, c, e, k)
    ensures Known(DrainOne(w, end))
    ensures c == Callback(w.armed[0].id, w.armed[0].key, w.now) || IsDue(DrainOne(w, end), end, c)
  {
    hide DrainOne;
    DrainOneProgress(w, end);
    DrainOneArmed(w, end);
    var v := DrainOne(w, end);
    var head := w.armed[0];
    var p := w.timers[head.id].period;
    if e != head {
      assert DueFor(v, end, c, e, k);
    } else if k > 0 {
      LaterExpiry(head.key, k, p);
      LaterExpiry(head.key, k - 1, p);
      assert DueFor(v, end, c, Entry(head.key + p, head.id), k - 1);
    }
  }

  /** What is due after one turn was due before it. */
  lemma DueWas(w: World, end: nat, c: Callback, e: Entry, k: nat)
    requires Known(w) && w.armed != [] && w.armed[0].key < end
    requires Known(DrainOne(w, end)) && DueFor(DrainOne(w, end), end, c, e, k)
    ensures IsDue(w, end, c)
  {
    hide DrainOne;
    DrainOneProgress(w, end);
    DrainOneArmed(w, end);
    var head := w.armed[0];
    if e in w.armed[1..] {
      assert DueFor(w, end, c, e, k);
    } else {
      LaterExpiry(head.key, k, w.timers[head.id].period);
      assert DueFor(w, end, c, head, k + 1);
    }
  }

  /** What one turn leaves armed. */
  lemma DrainOneArmed(w: World, end: nat)
    requires Known(w) && w.armed != [] && w.armed[0].key < end
    ensures var v := DrainOne(w, end);
            var e := w.armed[0];
            var again := Entry(e.key + w.timers[e.id].period, e.id);
            && v.timers == w.timers && v.now == w.now
            && forall x :: x in v.armed <==>
                 x in w.armed[1..] || (x == again && w.timers[e.id].autoReload && again.key < end)
  {
    InsertMembers(w.armed[1..], Entry(w.armed[0].key + w.timers[w.armed[0].id].period, w.armed[0].id));
  }

  /** After one turn the head's timer is due later, so its call does not come again. */
  lemma HeadIsPast(w: World, end: nat, limit: nat)
    requires Ordered(w, limit) && w.armed != [] && w.armed[0].key < end
    ensures Known(DrainOne(w, end))
    ensures !IsDue(DrainOne(w, end), end, Callback(w.armed[0].id, w.armed[0].key, w.now))
  {
    hide DrainOne;
    DrainOneProgress(w, end);
    DrainOneArmed(w, end);
    TailFacts(w, limit);
    var c := Callback(w.armed[0].id, w.armed[0].key, w.now);
    forall e, k: nat ensures !DueFor(DrainOne(w, end), end, c, e, k) {
    }
  }

  /** Calls and their order, one turn at a time. */
  lemma OneMoreCall(first: Callback, rest: seq<Callback>)
    requires EachOnce(rest) && first !in rest
    ensures EachOnce([first] + rest)
  {
    forall i, j | 0 <= i < j < |[first] + rest| ensures ([first] + rest)[i] != ([first] + rest)[j] {
      assert ([first] + rest)[j] == rest[j - 1];
      assert i > 0 ==> ([first] + rest)[i] == rest[i - 1];
    }
  }

  /** The list switch calls what is due before its end, each once, and nothing else. */
  lemma {:induction false} DrainCallsDue(w: World, end: nat, limit: nat)
    requires Ordered(w, limit) && end <= limit && end <= w.now
    ensures forall c :: c in DrainCalls(w, end) <==> IsDue(w, end, c)
    ensures EachOnce(DrainCalls(w, end))
    decreases Load(w.armed, end)
  {
    hide Ordered, DrainOne, EachOnce, IsDue, DrainCalls;
    OrderedKnown(w, limit);
    if w.armed != [] && w.armed[0].key < end {
      var v := DrainOne(w, end);
      var head := Callback(w.armed[0].id, w.armed[0].key, w.now);
      DrainOneKeepsOrder(w, end, limit);
      DrainOneProgress(w, end);
      DrainOneArmed(w, end);
      DrainCallsUnfold(w, end);
      DrainCallsDue(v, end, limit);
      HeadIsPast(w, end, limit);
      OneMoreCall(head, DrainCalls(v, end));
      forall c ensures c in DrainCalls(w, end) <==> IsDue(w, end, c) {
        DueUnfold(w, end, c);
      }
    } else {
      NothingDue(w, end, limit);
    }
  }

  lemma OrderedKnown(w: World, limit: nat)
    requires Ordered(w, limit)
    ensures Known(w)
  {
  }

  lemma NothingDue(w: World, end: nat, limit: nat)
    requires Ordered(w, limit) && (w.armed == [] || end <= w.armed[0].key)
    ensures DrainCalls(w, end) == [] && EachOnce([])
    ensures forall c :: !IsDue(w, end, c)
  {
  }

  /**
   The list switch (total, so it terminates) calls exactly what is due before `end`, each
   once, in nondecreasing order of expiry, none below the list head, and leaves no timer
   armed for a time before `end`.
   */
  lemma {:induction false} DrainSweeps(w: World, end: nat, limit: nat, first: nat)
    requires Ordered(w, limit) && end <= limit && end <= w.now
    requires forall e :: e in w.armed ==> first <= e.key
    ensures forall c :: c in DrainCalls(w, end) <==> IsDue(w, end, c)
    ensures EachOnce(DrainCalls(w, end))
    ensures InExpiryOrder(DrainCalls(w, end), first, end, w.now)
    ensures forall e :: e in Drain(w, end).armed ==> end <= e.key
    decreases Load(w.armed, end)
  {
    hide IsDue, EachOnce, DrainOne;
    DrainKeepsOrder(w, end, limit);
    DrainCallsDue(w, end, limit);
    if w.armed != [] && w.armed[0].key < end {
      DrainOneKeepsOrder(w, end, limit);
      DrainOneProgress(w, end);
      DrainOneArmed(w, end);
      DrainCallsUnfold(w, end);
      DrainSweeps(DrainOne(w, end), end, limit, w.armed[0].key);
    }
  }

  lemma EpochCases(now: nat, t: nat)
    requires now <= t < now + WRAP
    ensures Epoch(t) == Epoch(now) || Epoch(t) == Epoch(now) + 1
    ensures Epoch(now) * WRAP <= now < EpochEnd(now)
    ensures Epoch(t) * WRAP <= t < EpochEnd(t)
  {
  }

  lemma SampleKeepsInv(w: World, t: nat)
    requires Inv(w) && w.now <= t && (t - w.now < WRAP || w.armed == [])
    ensures Inv(Sample(w, t)) && Sample(w, t).now == t && Sample(w, t).timers == w.timers
    ensures forall e :: e in Sample(w, t).armed ==> Epoch(t) * WRAP <= e.key
  {
    var v := w.(now := t);
    if t - w.now < WRAP {
      EpochCases(w.now, t);
      if Epoch(w.now) < Epoch(t) {
        DrainKeepsOrder(v, EpochEnd(w.now), EpochEnd(w.now) + WRAP);
        DrainFrame(v, EpochEnd(w.now));
      }
    }
  }

  lemma ArmKeepsInv(w: World, id: nat, due: nat)
    requires Inv(w) && id in w.timers && w.now < due <= w.now + WRAP
    requires forall e :: e in w.armed ==> e.id != id
    ensures Inv(Arm(w, id, due))
  {
    EpochCases(w.now, w.now);
    ArmKeepsOrder(w, EpochEnd(w.now) + WRAP, id, due);
  }

  lemma FireKeepsInv(w: World, id: nat, due: nat)
    requires Inv(w) && due <= w.now
    ensures Inv(Fire(w, id, due))
  {
  }

  lemma TailKeepsInv(w: World)
    requires Inv(w) && w.armed != []
    ensures Inv(w.(armed := w.armed[1..]))
    ensures forall e :: e in w.armed[1..] ==> e.id != w.armed[0].id
  {
    TailFacts(w, EpochEnd(w.now) + WRAP);
  }

  lemma ReloadedKeepsInv(w: World)
    requires Inv(w) && w.armed != [] && w.armed[0].key <= w.now
    ensures Inv(Reloaded(w))
  {
    TailKeepsInv(w);
    var e := w.armed[0];
    var due := e.key + w.timers[e.id].period;
    if w.now < due {
      ArmKeepsInv(w.(armed := w.armed[1..]), e.id, due);
    }
  }

  lemma ExpireKeepsInv(w: World)
    requires Inv(w) && w.armed != [] && w.armed[0].key <= w.now
    ensures Inv(Expire(w))
  {
    ReloadedKeepsInv(w);
    FireKeepsInv(Reloaded(w), w.armed[0].id, w.armed[0].key);
  }

  lemma ExecuteKeepsInv(w: World, c: Command)
    requires Inv(w) && c.id in w.timers && (c.Start? ==> c.stamp <= w.now)
    requires forall e :: e in w.armed ==> e.id != c.id
    ensures Inv(Execute(w, c))
  {
    match c
    case Start(id, stamp) =>
      if w.now < stamp + w.timers[id].period {
        ArmKeepsInv(w, id, stamp + w.timers[id].period);
      }
    case Stop(_) =>
    case ChangePeriod(id, p) =>
      ArmKeepsInv(w.(timers := w.timers[id := w.timers[id].(period := p)]), id, w.now + p);
    case Delete(id) =>
  }

  lemma TakenKeepsInv(w: World)
    requires Inv(w) && w.queue != []
    ensures Inv(Taken(w))
    ensures forall e :: e in Taken(w).armed ==> e.id != w.queue[0].id
  {
    WithoutMembers(w.armed, w.queue[0].id);
    WithoutKeepsOrder(w.armed, w.queue[0].id);
  }

  /** A drain arms no timer that was not armed before it. */
  lemma {:induction false} DrainArmsNothingNew(w: World, end: nat, id: nat)
    requires Known(w)
    requires forall e :: e in w.armed ==> e.id != id
    ensures forall e :: e in Drain(w, end).armed ==> e.id != id
    decreases Load(w.armed, end)
  {
    if w.armed != [] && w.armed[0].key < end {
      var e := w.armed[0];
      InsertMembers(w.armed[1..], Entry(e.key + w.timers[e.id].period, e.id));
      DrainOneProgress(w, end);
      DrainArmsNothingNew(DrainOne(w, end), end, id);
    }
  }

  /** Every step of the daemon keeps the epoch invariant. */
  lemma StepKeepsInv(w: World, e: Event)
    requires Inv(w) && Enabled(w, e)
    ensures Inv(Step(w, e))
  {
    match e
    case Send(c) =>
    case Process(t) =>
      SampleKeepsInv(w, t);
      var s := Sample(w, t);
      if Epoch(w.now) == Epoch(t) && s.armed != [] && s.armed[0].key <= t {
        ExpireKeepsInv(s);
      }
    case Handle(t) =>
      TakenKeepsInv(w);
      SampleKeepsInv(Taken(w), t);
      DrainArmsNothingNew(Taken(w).(now := t), EpochEnd(w.now), w.queue[0].id);
      ExecuteKeepsInv(Sample(Taken(w), t), w.queue[0]);
  }

  // ----- runs -----

  ghost predicate Possible(w: World, es: seq<Event>)
    requires Inv(w)
    decreases |es|
  {
    es == [] || (Enabled(w, es[0]) && (StepKeepsInv(w, es[0]); Possible(Step(w, es[0]), es[1..])))
  }

  ghost function Run(w: World, es: seq<Event>): World
    requires Inv(w) && Possible(w, es)
    decreases |es|
  {
    if es == [] then w
    else
      StepKeepsInv(w, es[0]);
      Run(Step(w, es[0]), es[1..])
  }

  /** In every state of every run the epoch invariant holds. */
  lemma {:induction false} RunKeepsInv(w: World, es: seq<Event>)
    requires Inv(w) && Possible(w, es)
    ensures Inv(Run(w, es))
    decreases |es|
  {
    if es != [] {
      StepKeepsInv(w, es[0]);
      RunKeepsInv(Step(w, es[0]), es[1..]);
    }
  }

  lemma RunCons(w: World, e: Event, es: seq<Event>)
    requires Inv(w) && Possible(w, [e] + es)
    ensures Known(w) && Enabled(w, e) && Inv(Step(w, e)) && Possible(Step(w, e), es)
    ensures Run(w, [e] + es) == Run(Step(w, e), es)
  {
    hide Inv, Step, Enabled;
    InvKnown(w);
    assert ([e] + es)[0] == e && ([e] + es)[1..] == es;
    StepKeepsInv(w, e);
  }

  // ----- the daemon's loop -----

  /** The daemon reads the time; `arrived` are the commands that tasks sent since it last did. */
  datatype Moment = Moment(arrived: seq<Command>, t: nat)

  /** One turn of the loop: it wakes and processes an expiry or blocks, then handles commands until none is left. */
  datatype Turn = Turn(wake: Moment, handled: seq<Moment>)

  function Sends(cs: seq<Command>): seq<Event> {
    if cs == [] then [] else [Send(cs[0])] + Sends(cs[1..])
  }

  function HandleEvents(ms: seq<Moment>): seq<Event> {
    if ms == [] then [] else Sends(ms[0].arrived) + [Handle(ms[0].t)] + HandleEvents(ms[1..])
  }

  function TurnEvents(turn: Turn): seq<Event> {
    Sends(turn.wake.arrived) + [Process(turn.wake.t)] + HandleEvents(turn.handled)
  }

  function LoopEvents(turns: seq<Turn>): seq<Event> {
    if turns == [] then [] else TurnEvents(turns[0]) + LoopEvents(turns[1..])
  }

  /** Each turn is a possible run, and ends when the daemon finds the command queue empty. */
  ghost predicate LoopAllows(w: World, turns: seq<Turn>)
    requires Inv(w)
    decreases |turns|
  {
    turns == [] ||
    (&& Possible(w, TurnEvents(turns[0]))
     && Run(w, TurnEvents(turns[0])).queue == []
     && (RunKeepsInv(w, TurnEvents(turns[0])); LoopAllows(Run(w, TurnEvents(turns[0])), turns[1..])))
  }

  lemma {:induction false} RunAppend(w: World, a: seq<Event>, b: seq<Event>)
    requires Inv(w) && Possible(w, a)
    ensures Inv(Run(w, a)) && (Possible(w, a + b) <==> Possible(Run(w, a), b))
    ensures Possible(w, a + b) ==> Run(w, a + b) == Run(Run(w, a), b)
    decreases |a|
  {
    hide Inv, Step, Enabled;
    InvKnown(w);
    RunKeepsInv(w, a);
    if a == [] {
      assert a + b == b;
    } else {
      StepKeepsInv(w, a[0]);
      assert (a + b)[0] == a[0] && (a + b)[1..] == a[1..] + b;
      RunAppend(Step(w, a[0]), a[1..], b);
    }
  }

  // ----- auto-reload timers neither drift nor skip -----

  function CallsOf(log: seq<Callback>, id: nat): seq<Callback> {
    if log == [] then []
    else
      var n := |log| - 1;
      CallsOf(log[..n], id) + if log[n].id == id then [log[n]] else []
  }

  function CommandsOf(queue: seq<Command>, id: nat): seq<Command> {
    if queue == [] then []
    else (if queue[0].id == id then [queue[0]] else []) + CommandsOf(queue[1..], id)
  }

  lemma CallsOfAppend(log: seq<Callback>, c: Callback, id: nat)
    ensures CallsOf(log + [c], id) == CallsOf(log, id) + if c.id == id then [c] else []
  {
    assert (log + [c])[..|log|] == log;
  }

  lemma CommandsOfCons(c: Command, queue: seq<Command>, id: nat)
    ensures CommandsOf([c] + queue, id) == (if c.id == id then [c] else []) + CommandsOf(queue, id)
    ensures CommandsOf([], id) == []
  {
    assert ([c] + queue)[1..] == queue;
  }

  lemma {:induction false} CommandsOfAppend(queue: seq<Command>, c: Command, id: nat)
    ensures CommandsOf(queue + [c], id) == CommandsOf(queue, id) + if c.id == id then [c] else []
  {
    hide CommandsOf;
    if queue == [] {
      assert queue + [c] == [c] + [];
      CommandsOfCons(c, [], id);
    } else {
      var rest := queue[1..];
      assert queue == [queue[0]] + rest && queue + [c] == [queue[0]] + (rest + [c]);
      CommandsOfCons(queue[0], rest, id);
      CommandsOfCons(queue[0], rest + [c], id);
      CommandsOfAppend(rest, c, id);
    }
  }

  lemma {:induction false} CallsOfMembers(log: seq<Callback>, id: nat)
    ensures forall c :: c in CallsOf(log, id) ==> c in log
  {
    if log != [] {
      CallsOfMembers(log[..|log| - 1], id);
      assert log == log[..|log| - 1] + [log[|log| - 1]];
    }
  }

  /** The k-th call (from 0) is for the expiry `start + (k + 1) * period`. */
  ghost predicate OnSchedule(calls: seq<Callback>, start: nat, period: nat) {
    forall k :: 0 <= k < |calls| ==> calls[k].due == start + (k + 1) * period
  }

  /** The timer's last expiry was `last`: it is armed for the next one, or its reload is queued. */
  ghost predicate Waiting(w: World, id: nat, last: nat)
    requires id in w.timers
  {
    || (KeysOf(w.armed, id) == [last + w.timers[id].period] && CommandsOf(w.queue, id) == [])
    || (KeysOf(w.armed, id) == [] && CommandsOf(w.queue, id) == [Start(id, last)])
  }

  /** Of the timer's calls, those after the first `skip` were on schedule. */
  ghost predicate Served(w: World, id: nat, start: nat, skip: nat) {
    && id in w.timers && w.timers[id].autoReload
    && skip <= |CallsOf(w.log, id)|
    && OnSchedule(CallsOf(w.log, id)[skip..], start, w.timers[id].period)
  }

  /** The last expiry that was served, or the start time when there was none. */
  ghost function Last(w: World, id: nat, start: nat, skip: nat): nat
    requires Served(w, id, start, skip)
  {
    start + |CallsOf(w.log, id)[skip..]| * w.timers[id].period
  }

  /** All calls were on schedule and the next one is pending. */
  ghost predicate Tracked(w: World, id: nat, start: nat, skip: nat) {
    Served(w, id, start, skip) && Waiting(w, id, Last(w, id, start, skip))
  }

  lemma TrackedCall(w: World, v: World, id: nat, start: nat, skip: nat, at: nat)
    requires Served(w, id, start, skip) && id in v.timers && v.timers[id] == w.timers[id]
    requires v.log == w.log + [Callback(id, Last(w, id, start, skip) + w.timers[id].period, at)]
    requires Waiting(v, id, Last(w, id, start, skip) + w.timers[id].period)
    ensures Tracked(v, id, start, skip)
  {
    hide CallsOf, OnSchedule, Waiting;
    var c := Callback(id, Last(w, id, start, skip) + w.timers[id].period, at);
    var calls := CallsOf(w.log, id)[skip..];
    CallsOfAppend(w.log, c, id);
    assert CallsOf(v.log, id)[skip..] == calls + [c];
    NextMultiple(|calls|, w.timers[id].period);
    OneMoreOnSchedule(calls, c, start, w.timers[id].period);
  }

  lemma OneMoreOnSchedule(calls: seq<Callback>, c: Callback, start: nat, period: nat)
    requires OnSchedule(calls, start, period) && c.due == start + (|calls| + 1) * period
    ensures OnSchedule(calls + [c], start, period)
  {
  }

  lemma NextMultiple(k: nat, p: nat)
    ensures (k + 1) * p == k * p + p
  {
  }

  lemma OtherCall(w: World, v: World, id: nat, start: nat, skip: nat, c: Callback)
    requires Tracked(w, id, start, skip) && id in v.timers && v.timers[id] == w.timers[id]
    requires c.id != id && v.log == w.log + [c]
    requires KeysOf(v.armed, id) == KeysOf(w.armed, id)
    requires CommandsOf(v.queue, id) == CommandsOf(w.queue, id)
    ensures Tracked(v, id, start, skip)
  {
    hide CallsOf, OnSchedule, CommandsOf, KeysOf;
    CallsOfAppend(w.log, c, id);
    assert CallsOf(v.log, id) == CallsOf(w.log, id);
  }

  /** How the list head's departure and return look to one timer. */
  lemma HeadKeys(w: World, id: nat, due: nat)
    requires w.armed != []
    ensures var rest := w.armed[1..];
            var e := w.armed[0];
            && (e.id != id ==> KeysOf(rest, id) == KeysOf(w.armed, id))
            && (e.id != id ==> KeysOf(InsertSorted(rest, Entry(due, e.id)), id) == KeysOf(w.armed, id))
            && (e.id == id && |KeysOf(w.armed, id)| == 1 ==>
                  KeysOf(w.armed, id) == [e.key] && KeysOf(rest, id) == [] &&
                  KeysOf(InsertSorted(rest, Entry(due, id)), id) == [due])
  {
    var e := w.armed[0];
    if e.id != id {
      KeysOfInsert(w.armed[1..], Entry(due, e.id), id);
    } else if |KeysOf(w.armed, id)| == 1 {
      assert KeysOf(w.armed, id) == [e.key] + KeysOf(w.armed[1..], id);
      KeysOfInsert(w.armed[1..], Entry(due, id), id);
    }
  }

  /** Whichever way the head goes on (armed again or posted), a tracked timer stays tracked. */
  lemma HeadTracked(w: World, v: World, id: nat, start: nat, skip: nat)
    requires w.armed != [] && Known(w) && Tracked(w, id, start, skip)
    requires v.timers == w.timers
    requires v.log == w.log + [Callback(w.armed[0].id, w.armed[0].key, w.now)]
    requires var e := w.armed[0];
             || (v.armed == InsertSorted(w.armed[1..], Entry(e.key + w.timers[e.id].period, e.id)) && v.queue == w.queue)
             || (v.armed == w.armed[1..] && v.queue == w.queue + [Start(e.id, e.key)])
             || (v.armed == w.armed[1..] && v.queue == w.queue && !w.timers[e.id].autoReload)
    ensures Tracked(v, id, start, skip)
  {
    var e := w.armed[0];
    HeadKeys(w, id, e.key + w.timers[e.id].period);
    CommandsOfAppend(w.queue, Start(e.id, e.key), id);
    if e.id == id {
      assert KeysOf(w.armed, id) == [e.key] + KeysOf(w.armed[1..], id);
      TrackedCall(w, v, id, start, skip, w.now);
    } else {
      OtherCall(w, v, id, start, skip, Callback(e.id, e.key, w.now));
    }
  }

  lemma {:induction false} DrainTracked(w: World, end: nat, id: nat, start: nat, skip: nat)
    requires Known(w) && Tracked(w, id, start, skip)
    ensures Tracked(Drain(w, end), id, start, skip)
    decreases Load(w.armed, end)
  {
    hide Tracked, DrainOne;
    if w.armed != [] && w.armed[0].key < end {
      DrainOneProgress(w, end);
      DrainOneTracked(w, end, id, start, skip);
      DrainTracked(DrainOne(w, end), end, id, start, skip);
    }
  }

  lemma DrainOneTracked(w: World, end: nat, id: nat, start: nat, skip: nat)
    requires Known(w) && w.armed != [] && Tracked(w, id, start, skip)
    ensures Tracked(DrainOne(w, end), id, start, skip)
  {
    hide Tracked;
    HeadTracked(w, DrainOne(w, end), id, start, skip);
  }

  lemma SampleTracked(w: World, t: nat, id: nat, start: nat, skip: nat)
    requires Known(w) && Tracked(w, id, start, skip)
    ensures Tracked(Sample(w, t), id, start, skip)
  {
    assert Tracked(w.(now := t), id, start, skip);
    DrainTracked(w.(now := t), EpochEnd(w.now), id, start, skip);
  }

  lemma ExpireTracked(w: World, id: nat, start: nat, skip: nat)
    requires Known(w) && w.armed != [] && Tracked(w, id, start, skip)
    ensures Tracked(Expire(w), id, start, skip)
  {
    HeadTracked(w, Expire(w), id, start, skip);
  }

  /** A drain does nothing to a timer that is not armed. */
  lemma {:induction false} DrainIgnores(w: World, end: nat, id: nat)
    requires Known(w) && KeysOf(w.armed, id) == []
    ensures KeysOf(Drain(w, end).armed, id) == []
    ensures CommandsOf(Drain(w, end).queue, id) == CommandsOf(w.queue, id)
    ensures CallsOf(Drain(w, end).log, id) == CallsOf(w.log, id)
    decreases Load(w.armed, end)
  {
    hide KeysOf, CommandsOf, CallsOf, DrainOne, Load;
    if w.armed != [] && w.armed[0].key < end {
      DrainOneIgnores(w, end, id);
      DrainOneProgress(w, end);
      DrainIgnores(DrainOne(w, end), end, id);
    }
  }

  lemma DrainOneIgnores(w: World, end: nat, id: nat)
    requires Known(w) && KeysOf(w.armed, id) == [] && w.armed != []
    ensures KeysOf(DrainOne(w, end).armed, id) == []
    ensures CommandsOf(DrainOne(w, end).queue, id) == CommandsOf(w.queue, id)
    ensures CallsOf(DrainOne(w, end).log, id) == CallsOf(w.log, id)
  {
    hide KeysOf, CommandsOf, CallsOf, InsertSorted;
    var e := w.armed[0];
    HeadHasKey(w.armed, id);
    HeadKeys(w, id, e.key + w.timers[e.id].period);
    CommandsOfAppend(w.queue, Start(e.id, e.key), id);
    CallsOfAppend(w.log, Callback(e.id, e.key, w.now), id);
  }

  lemma HeadHasKey(list: seq<Entry>, id: nat)
    requires list != []
    ensures list[0].id == id ==> KeysOf(list, id) != []
  {
  }

  lemma OthersStartTracked(w: World, other: nat, stamp: nat, id: nat, start: nat, skip: nat)
    requires Tracked(w, id, start, skip) && other in w.timers && other != id
    ensures Tracked(Restart(w, other, stamp), id, start, skip)
  {
    hide KeysOf, CommandsOf, CallsOf, InsertSorted, OnSchedule;
    var due := stamp + w.timers[other].period;
    var v := Restart(w, other, stamp);
    if w.now < due {
      KeysOfInsert(w.armed, Entry(due, other), id);
    } else {
      CommandsOfAppend(w.queue, Start(other, due), id);
      OtherCall(w, v, id, start, skip, Callback(other, due, w.now));
    }
  }

  lemma OthersCommandTracked(w: World, c: Command, id: nat, start: nat, skip: nat)
    requires Tracked(w, id, start, skip) && c.id in w.timers && c.id != id
    ensures Tracked(Execute(w, c), id, start, skip)
  {
    hide KeysOf, CommandsOf, CallsOf, InsertSorted, OnSchedule, Restart;
    match c
    case Start(other, stamp) => OthersStartTracked(w, other, stamp, id, start, skip);
    case Stop(_) =>
    case ChangePeriod(other, p) =>
      KeysOfInsert(w.armed, Entry(w.now + p, other), id);
    case Delete(_) =>
  }

  lemma OwnStartTracked(w: World, id: nat, start: nat, skip: nat)
    requires Served(w, id, start, skip)
    requires KeysOf(w.armed, id) == [] && CommandsOf(w.queue, id) == []
    ensures Tracked(Restart(w, id, Last(w, id, start, skip)), id, start, skip)
  {
    hide KeysOf, CommandsOf, CallsOf, InsertSorted, OnSchedule;
    var due := Last(w, id, start, skip) + w.timers[id].period;
    KeysOfInsert(w.armed, Entry(due, id), id);
    CommandsOfAppend(w.queue, Start(id, due), id);
    if due <= w.now {
      TrackedCall(w, Restart(w, id, Last(w, id, start, skip)), id, start, skip, w.now);
    }
  }

  /** A tracked timer's command at the head of the queue is its own reload, and it is in no list. */
  lemma OwnCommandIsReload(w: World, id: nat, start: nat, skip: nat)
    requires Tracked(w, id, start, skip) && w.queue != [] && w.queue[0].id == id
    ensures w.queue[0] == Start(id, Last(w, id, start, skip))
    ensures CommandsOf(w.queue[1..], id) == [] && KeysOf(Without(w.armed, id), id) == []
  {
    assert CommandsOf(w.queue, id) == [w.queue[0]] + CommandsOf(w.queue[1..], id);
    assert CommandsOf(w.queue, id)[0] == w.queue[0];
    KeysOfWithout(w.armed, id, id);
  }

  lemma HandleOwn(w: World, t: nat, id: nat, start: nat, skip: nat)
    requires Known(w) && Enabled(w, Handle(t)) && Tracked(w, id, start, skip)
    requires w.queue[0].id == id
    ensures Tracked(Step(w, Handle(t)), id, start, skip)
  {
    hide Known, Sample, Restart, Tracked, Taken, KeysOf, CommandsOf;
    OwnCommandIsReload(w, id, start, skip);
    TakenKnown(w);
    SampledForOwn(w, t, id, start, skip);
    OwnStartTracked(Sample(Taken(w), t), id, start, skip);
  }

  /** Taking its own command and sampling the time leave a tracked timer in no list and no queue. */
  lemma SampledForOwn(w: World, t: nat, id: nat, start: nat, skip: nat)
    requires Known(w) && Enabled(w, Handle(t)) && Tracked(w, id, start, skip)
    requires w.queue[0].id == id && Known(Taken(w))
    ensures var s := Sample(Taken(w), t);
            && Served(s, id, start, skip) && Last(s, id, start, skip) == Last(w, id, start, skip)
            && KeysOf(s.armed, id) == [] && CommandsOf(s.queue, id) == []
  {
    hide Drain, InsertSorted, OnSchedule;
    OwnCommandIsReload(w, id, start, skip);
    TakenKnown(w);
    SampleFrame(Taken(w), t);
    DrainIgnores(Taken(w).(now := t), EpochEnd(w.now), id);
  }

  lemma TakenTracked(w: World, id: nat, start: nat, skip: nat)
    requires w.queue != [] && Tracked(w, id, start, skip) && w.queue[0].id != id
    ensures Tracked(Taken(w), id, start, skip)
  {
    hide OnSchedule;
    assert CommandsOf(w.queue, id) == CommandsOf(w.queue[1..], id);
    KeysOfWithout(w.armed, id, w.queue[0].id);
  }

  lemma HandleOther(w: World, t: nat, id: nat, start: nat, skip: nat)
    requires Known(w) && Enabled(w, Handle(t)) && Tracked(w, id, start, skip)
    requires w.queue[0].id != id
    ensures Tracked(Step(w, Handle(t)), id, start, skip)
  {
    TakenTracked(w, id, start, skip);
    TakenKnown(w);
    SampleTracked(Taken(w), t, id, start, skip);
    SampleFrame(Taken(w), t);
    OthersCommandTracked(Sample(Taken(w), t), w.queue[0], id, start, skip);
  }

  lemma ProcessTracked(w: World, t: nat, id: nat, start: nat, skip: nat)
    requires Known(w) && Enabled(w, Process(t)) && Tracked(w, id, start, skip)
    ensures Tracked(Step(w, Process(t)), id, start, skip)
  {
    SampleFrame(w, t);
    SampleTracked(w, t, id, start, skip);
    var s := Sample(w, t);
    if s.armed != [] {
      ExpireTracked(s, id, start, skip);
    }
  }

  lemma StepFrame(w: World, e: Event, id: nat)
    requires Known(w) && Enabled(w, e) && id in w.timers
    requires e.Send? ==> e.c.id != id
    requires e.Handle? && w.queue[0].id == id ==> w.queue[0].Start?
    ensures id in Step(w, e).timers && Step(w, e).timers[id] == w.timers[id]
  {
    match e
    case Send(_) =>
    case Process(t) =>
      SampleFrame(w, t);
    case Handle(t) =>
      TakenKnown(w);
      SampleFrame(Taken(w), t);
  }

  lemma StepTracked(w: World, e: Event, id: nat, start: nat, skip: nat)
    requires Known(w) && Enabled(w, e) && Tracked(w, id, start, skip)
    requires e.Send? ==> e.c.id != id
    ensures Tracked(Step(w, e), id, start, skip)
    ensures id in Step(w, e).timers && Step(w, e).timers[id] == w.timers[id]
  {
    match e
    case Send(c) =>
      CommandsOfAppend(w.queue, c, id);
    case Process(t) =>
      ProcessTracked(w, t, id, start, skip);
      StepFrame(w, e, id);
    case Handle(t) =>
      if w.queue[0].id == id {
        HandleOwn(w, t, id, start, skip);
      } else {
        HandleOther(w, t, id, start, skip);
      }
      assert w.queue[0].id == id ==> CommandsOf(w.queue, id)[0] == w.queue[0];
      StepFrame(w, e, id);
  }

  lemma {:induction false} CommandsOfPrefix(a: seq<Command>, b: seq<Command>, id: nat)
    requires a <= b && CommandsOf(b, id) == []
    ensures CommandsOf(a, id) == []
  {
    if a != [] {
      assert a[0] == b[0] && a[1..] <= b[1..];
      CommandsOfPrefix(a[1..], b[1..], id);
    }
  }

  /** Once no command is queued for the timer, its start was handled, so its stamp has passed. */
  ghost predicate Begun(w: World, id: nat, start: nat) {
    CommandsOf(w.queue, id) == [] ==> start <= w.now
  }

  lemma StepQueue(w: World, e: Event)
    requires Inv(w) && Enabled(w, e)
    ensures w.now <= Step(w, e).now
    ensures e.Handle? ==> w.queue[1..] <= Step(w, e).queue && Step(w, e).now == e.t
    ensures !e.Handle? ==> w.queue <= Step(w, e).queue
  {
    hide Drain;
    match e
    case Send(_) =>
    case Process(t) =>
      SampleKeepsInv(w, t);
      DrainFrame(w.(now := t), EpochEnd(w.now));
    case Handle(t) =>
      TakenKeepsInv(w);
      SampleKeepsInv(Taken(w), t);
      DrainFrame(Taken(w).(now := t), EpochEnd(w.now));
  }

  lemma StepBegun(w: World, e: Event, id: nat, start: nat, skip: nat)
    requires Inv(w) && Enabled(w, e) && Tracked(w, id, start, skip) && Begun(w, id, start)
    ensures Begun(Step(w, e), id, start)
  {
    hide Inv, Step, CommandsOf, Tracked;
    InvKnown(w);
    StepQueue(w, e);
    var v := Step(w, e);
    if CommandsOf(v.queue, id) == [] {
      if !e.Handle? {
        CommandsOfPrefix(w.queue, v.queue, id);
      } else if w.queue[0].id == id {
        OwnStampPassed(w, e.t, id, start, skip);
      } else {
        CommandsOfPrefix(w.queue[1..], v.queue, id);
        CommandsOfCons(w.queue[0], w.queue[1..], id);
        assert w.queue == [w.queue[0]] + w.queue[1..];
      }
    }
  }

  lemma OwnStampPassed(w: World, t: nat, id: nat, start: nat, skip: nat)
    requires Enabled(w, Handle(t)) && Tracked(w, id, start, skip) && w.queue[0].id == id
    ensures start <= t
  {
    hide CommandsOf, CallsOf, KeysOf, OnSchedule, Waiting;
    OwnCommandIsReload(w, id, start, skip);
  }

  lemma {:induction false} RunTracked(w: World, es: seq<Event>, id: nat, start: nat, skip: nat)
    requires Inv(w) && Possible(w, es) && Tracked(w, id, start, skip) && Begun(w, id, start)
    requires forall e :: e in es && e.Send? ==> e.c.id != id
    ensures Tracked(Run(w, es), id, start, skip) && Begun(Run(w, es), id, start)
    ensures id in Run(w, es).timers && Run(w, es).timers[id] == w.timers[id]
    decreases |es|
  {
    hide Inv, Tracked, Begun, Step, Enabled;
    TrackedTimer(w, id, start, skip);
    if es != [] {
      assert es[0] in es;
      StepKeepsInv(w, es[0]);
      InvKnown(w);
      StepBegun(w, es[0], id, start, skip);
      StepTracked(w, es[0], id, start, skip);
      RunTracked(Step(w, es[0]), es[1..], id, start, skip);
    }
  }

  lemma TrackedTimer(w: World, id: nat, start: nat, skip: nat)
    requires Tracked(w, id, start, skip)
    ensures id in w.timers
  {
  }

  lemma InvKnown(w: World)
    requires Inv(w)
    ensures Known(w)
  {
  }

  /** Nothing is queued for the timer and the list head is still in the future. */
  ghost predicate CaughtUp(w: World, id: nat) {
    CommandsOf(w.queue, id) == [] && (w.armed == [] || w.now < w.armed[0].key)
  }

  lemma CaughtUpCount(w: World, id: nat, start: nat, skip: nat)
    requires Inv(w) && Tracked(w, id, start, skip) && CaughtUp(w, id) && start <= w.now
    ensures |CallsOf(w.log, id)[skip..]| == (w.now - start) / w.timers[id].period
  {
    var p := w.timers[id].period;
    var calls := CallsOf(w.log, id)[skip..];
    var next := Last(w, id, start, skip) + p;
    assert Entry(next, id) in w.armed by {
      assert KeysOf(w.armed, id) == [next];
      KeysOfMember(w.armed, Entry(next, id));
    }
    assert calls != [] ==> Last(w, id, start, skip) <= w.now by {
      CallsOfMembers(w.log, id);
      if calls != [] {
        assert calls[|calls| - 1] in CallsOf(w.log, id);
      }
    }
    QuotientIs(|calls|, p, w.now - start);
  }

  /** The timer is known, reloads itself, is not armed, and its start at `start` is the only command queued for it. */
  ghost predicate AboutToStart(w: World, id: nat, start: nat) {
    && id in w.timers && w.timers[id].autoReload
    && KeysOf(w.armed, id) == [] && CommandsOf(w.queue, id) == [Start(id, start)]
  }

  /** Nothing else is commanded. */
  ghost predicate LeftAlone(es: seq<Event>, id: nat) {
    forall e :: e in es && e.Send? ==> e.c.id != id
  }

  /**
   Since the first `skip` calls, the timer was called for exactly start + period,
   start + 2 * period, ... in that order, each once and none early; when the daemon has
   caught up, once for every whole period since `start`.
   */
  ghost predicate Punctual(v: World, id: nat, start: nat, period: nat, skip: nat) {
    && period > 0 && skip <= |CallsOf(v.log, id)|
    && var calls := CallsOf(v.log, id)[skip..];
    && OnSchedule(calls, start, period)
    && (forall c :: c in calls ==> c.due <= c.at <= v.now)
    && (CaughtUp(v, id) ==> |calls| == (v.now - start) / period)
  }

  /** Auto-reload timers neither drift nor skip, in every run. */
  lemma NoDriftNoSkip(w: World, es: seq<Event>, id: nat, start: nat)
    requires Inv(w) && Possible(w, es) && AboutToStart(w, id, start) && LeftAlone(es, id)
    ensures Punctual(Run(w, es), id, start, w.timers[id].period, |CallsOf(w.log, id)|)
  {
    hide Run, Possible, Inv, Tracked, Begun, Punctual, CallsOf, KeysOf, CommandsOf;
    var v := Run(w, es);
    var skip := |CallsOf(w.log, id)|;
    StartIsTracked(w, id, start);
    RunTracked(w, es, id, start, skip);
    RunKeepsInv(w, es);
    TrackedIsPunctual(v, id, start, skip);
  }

  lemma StartIsTracked(w: World, id: nat, start: nat)
    requires AboutToStart(w, id, start)
    ensures Tracked(w, id, start, |CallsOf(w.log, id)|) && Begun(w, id, start)
  {
    var skip := |CallsOf(w.log, id)|;
    assert CallsOf(w.log, id)[skip..] == [];
  }

  lemma TrackedIsPunctual(v: World, id: nat, start: nat, skip: nat)
    requires Inv(v) && Tracked(v, id, start, skip) && Begun(v, id, start)
    ensures Punctual(v, id, start, v.timers[id].period, skip)
  {
    hide CallsOf, KeysOf, CommandsOf;
    CallsOfMembers(v.log, id);
    if CaughtUp(v, id) {
      CaughtUpCount(v, id, start, skip);
    }
  }
}
