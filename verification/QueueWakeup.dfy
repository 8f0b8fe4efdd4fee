/**
 The blocking protocol of queue.c as a state machine.  One step is one critical section
 (or one action between two of them) of one task, or one interrupt.  The data are
 abstracted to their count; QueueRing models the storage.  xTaskRemoveFromEventList is
 "take the head waiter", vTaskPlaceOnEventList is "insert self, by priority, anywhere".
 */
module QueueWakeup {
  import opened Basics

  /** The queue lock counters are int8_t: -1 when unlocked, else the posts of interrupts since locking. */
  const UNLOCKED: int := -1
  const LOCK_MAX: int := 127

  /** xQueueReceive and xQueueSemaphoreTake; xQueuePeek; xQueueGenericSend, overwriting or not. */
  datatype Op = Receive | Peek | Send(overwrite: bool)

  /** Where a task is in one of those calls; `wait` says that the call may still block. */
  datatype Pc =
    | Idle
    | Try(op: Op, wait: bool)
    | Suspend(op: Op)
    | Lock(op: Op)
    | Check(op: Op)
    | Place(op: Op)
    | UnlockTx(op: Op, timedOut: bool)
    | UnlockRx(op: Op, timedOut: bool)
    | Resume(op: Op, timedOut: bool)
    | Recheck(op: Op)
    | Blocked(op: Op)

  /**
   `receivers` and `senders` are the two event lists; `wokenReceivers` and `wokenSenders` are
   the tasks taken off them that have not yet retried; `owner` has the scheduler suspended.
   */
  datatype State = State(
    messages: nat, length: nat, txLock: int, rxLock: int,
    receivers: seq<nat>, senders: seq<nat>,
    wokenReceivers: set<nat>, wokenSenders: set<nat>,
    pc: map<nat, Pc>, owner: Option<nat>)

  datatype Step =
    | Call(t: nat, op: Op, wait: bool)
    | Attempt(t: nat)
    | SuspendAll(t: nat)
    | LockQueue(t: nat)
    | CheckTimeout(t: nat, expired: bool)
    | PlaceOnList(t: nat, at: nat)
    | UnlockQueueTx(t: nat)
    | UnlockQueueRx(t: nat)
    | ResumeAll(t: nat)
    | CheckEmpty(t: nat)
    | Timeout(t: nat)
    | Reset
    | SendFromIsr(overwrite: bool)
    | ReceiveFromIsr

  predicate Receives(op: Op) { !op.Send? }

  // ----- wake-ups -----

  function Ready(pc: map<nat, Pc>, t: nat): map<nat, Pc> {
    if t in pc && pc[t].Blocked? then pc[t := Try(pc[t].op, true)] else pc
  }

  /** The head receiver, if any, leaves the event list. */
  function WakeReceiver(s: State): State {
    if s.receivers == [] then s
    else s.(receivers := s.receivers[1..],
            wokenReceivers := s.wokenReceivers + {s.receivers[0]},
            pc := Ready(s.pc, s.receivers[0]))
  }

  function WakeSender(s: State): State {
    if s.senders == [] then s
    else s.(senders := s.senders[1..],
            wokenSenders := s.wokenSenders + {s.senders[0]},
            pc := Ready(s.pc, s.senders[0]))
  }

  /** The loops of prvUnlockQueue: one wake-up for each post of an interrupt, while a task waits. */
  function WakeReceivers(s: State, n: int): State
    decreases n
  {
    if n <= 0 || s.receivers == [] then s else WakeReceivers(WakeReceiver(s), n - 1)
  }

  function WakeSenders(s: State, n: int): State
    decreases n
  {
    if n <= 0 || s.senders == [] then s else WakeSenders(WakeSender(s), n - 1)
  }

  // ----- steps -----

  function Goto(s: State, t: nat, p: Pc): State {
    s.(pc := s.pc[t := p])
  }

  predicate HasRoom(s: State, overwrite: bool) { s.messages < s.length || overwrite }

  /** prvCopyDataToQueue, as far as the count goes: overwriting a full queue adds nothing. */
  function Posted(s: State, overwrite: bool): State {
    if overwrite && s.messages > 0 then s else s.(messages := s.messages + 1)
  }

  /** The critical section at the top of the loop: from here on the task is no longer a pending retry. */
  function Attempted(s: State, t: nat): State
    requires t in s.pc && s.pc[t].Try?
  {
    var op := s.pc[t].op;
    var r := Goto(s, t, Idle).(wokenReceivers := s.wokenReceivers - {t}, wokenSenders := s.wokenSenders - {t});
    match op
    case Receive => if s.messages > 0 then WakeSender(r.(messages := s.messages - 1)) else Refused(r, t, op, s.pc[t].wait)
    case Peek => if s.messages > 0 then WakeReceiver(r) else Refused(r, t, op, s.pc[t].wait)
    case Send(overwrite) =>
      if HasRoom(s, overwrite) then WakeReceiver(Posted(r, overwrite)) else Refused(r, t, op, s.pc[t].wait)
  }

  function Refused(s: State, t: nat, op: Op, wait: bool): State {
    if wait then Goto(s, t, Suspend(op)) else s
  }

  predicate MustWait(s: State, op: Op) {
    if Receives(op) then s.messages == 0 else s.messages == s.length
  }

  function InsertAt(list: seq<nat>, at: nat, t: nat): seq<nat>
    requires at <= |list|
  {
    list[..at] + [t] + list[at..]
  }

  predicate Runs(s: State, t: nat) {
    t in s.pc && (s.owner == None || s.owner == Some(t))
  }

  predicate Enabled(s: State, step: Step) {
    match step
    case Call(t, op, _) => Runs(s, t) && s.pc[t].Idle? && (op.Send? && op.overwrite ==> s.length == 1)
    case Attempt(t) => Runs(s, t) && s.pc[t].Try?
    case SuspendAll(t) => Runs(s, t) && s.pc[t].Suspend?
    case LockQueue(t) => Runs(s, t) && s.pc[t].Lock?
    case CheckTimeout(t, _) => Runs(s, t) && s.pc[t].Check?
    case PlaceOnList(t, at) =>
      Runs(s, t) && s.pc[t].Place? && at <= if Receives(s.pc[t].op) then |s.receivers| else |s.senders|
    case UnlockQueueTx(t) => Runs(s, t) && s.pc[t].UnlockTx?
    case UnlockQueueRx(t) => Runs(s, t) && s.pc[t].UnlockRx?
    case ResumeAll(t) => Runs(s, t) && s.pc[t].Resume?
    case CheckEmpty(t) => Runs(s, t) && s.pc[t].Recheck?
    case Timeout(t) => s.owner == None && t in s.pc && s.pc[t].Blocked?
    case Reset => s.owner == None
    case SendFromIsr(overwrite) => (overwrite ==> s.length == 1) && s.txLock < LOCK_MAX
    case ReceiveFromIsr => s.rxLock < LOCK_MAX
  }

  function Without(list: seq<nat>, t: nat): seq<nat> {
    if list == [] then [] else (if list[0] == t then [] else [list[0]]) + Without(list[1..], t)
  }

  function Apply(s: State, step: Step): State
    requires Enabled(s, step)
  {
    match step
    case Call(t, op, wait) => Goto(s, t, Try(op, wait))
    case Attempt(t) => Attempted(s, t)
    case SuspendAll(t) => Goto(s, t, Lock(s.pc[t].op)).(owner := Some(t))
    case LockQueue(t) =>
      Goto(s, t, Check(s.pc[t].op)).(
        rxLock := if s.rxLock == UNLOCKED then 0 else s.rxLock,
        txLock := if s.txLock == UNLOCKED then 0 else s.txLock)
    case CheckTimeout(t, expired) =>
      if !expired && MustWait(s, s.pc[t].op) then Goto(s, t, Place(s.pc[t].op))
      else Goto(s, t, UnlockTx(s.pc[t].op, expired))
    case PlaceOnList(t, at) =>
      var r := Goto(s, t, UnlockTx(s.pc[t].op, false));
      if Receives(s.pc[t].op) then r.(receivers := InsertAt(s.receivers, at, t))
      else r.(senders := InsertAt(s.senders, at, t))
    case UnlockQueueTx(t) =>
      Goto(WakeReceivers(s, s.txLock), t, UnlockRx(s.pc[t].op, s.pc[t].timedOut)).(txLock := UNLOCKED)
    case UnlockQueueRx(t) =>
      Goto(WakeSenders(s, s.rxLock), t, Resume(s.pc[t].op, s.pc[t].timedOut)).(rxLock := UNLOCKED)
    case ResumeAll(t) =>
      var op := s.pc[t].op;
      Goto(s, t,
        if t in s.receivers || t in s.senders then Blocked(op)
        else if !s.pc[t].timedOut then Try(op, true)
        else if Receives(op) then Recheck(op)
        else Idle).(owner := None)
    case CheckEmpty(t) => Goto(s, t, if s.messages == 0 then Idle else Try(s.pc[t].op, true))
    case Timeout(t) =>
      Goto(s, t, Try(s.pc[t].op, true)).(receivers := Without(s.receivers, t), senders := Without(s.senders, t))
    case Reset => WakeSender(s.(messages := 0, txLock := UNLOCKED, rxLock := UNLOCKED))
    case SendFromIsr(overwrite) =>
      if !HasRoom(s, overwrite) then s
      else if s.txLock == UNLOCKED then WakeReceiver(Posted(s, overwrite))
      else Posted(s, overwrite).(txLock := s.txLock + 1)
    case ReceiveFromIsr =>
      if s.messages == 0 then s
      else if s.rxLock == UNLOCKED then WakeSender(s.(messages := s.messages - 1))
      else s.(messages := s.messages - 1, rxLock := s.rxLock + 1)
  }

  // ----- what every reachable state keeps -----

  predicate Owning(p: Pc) {
    p.Lock? || p.Check? || p.Place? || p.UnlockTx? || p.UnlockRx? || p.Resume?
  }

  /** The task may be on an event list: asleep, or about to be once it resumes the scheduler. */
  predicate MayWait(p: Pc) {
    p.Blocked? || ((p.UnlockTx? || p.UnlockRx? || p.Resume?) && !p.timedOut)
  }

  /** The task may have been taken off an event list and not have retried yet. */
  predicate MayBeWoken(p: Pc) {
    p.Try? || ((p.UnlockTx? || p.UnlockRx? || p.Resume?) && !p.timedOut)
  }

  ghost predicate Distinct(list: seq<nat>) {
    forall i, j :: 0 <= i < j < |list| ==> list[i] != list[j]
  }

  /** One event list and its woken tasks: each task once, in one of the two, and in a call of that kind. */
  ghost predicate ListOk(pc: map<nat, Pc>, list: seq<nat>, woken: set<nat>, receives: bool) {
    && Distinct(list)
    && (forall t :: t in list ==> t in pc && MayWait(pc[t]) && Receives(pc[t].op) == receives && t !in woken)
    && (forall t :: t in woken ==>
          t in pc && MayBeWoken(pc[t]) && Receives(pc[t].op) == receives && pc[t].op != Send(true))
  }

  /** An overwriting send always finds room, so it never gets to block. */
  ghost predicate OverwritesNeverWait(pc: map<nat, Pc>) {
    forall t :: t in pc ==> pc[t].Idle? || pc[t].Try? || pc[t].op != Send(true)
  }

  /** The locks are held exactly while the owner of the scheduler is between locking and unlocking. */
  ghost predicate LocksOk(s: State) {
    && (forall t :: t in s.pc ==> (Owning(s.pc[t]) <==> s.owner == Some(t)))
    && (s.owner.Some? ==> s.owner.value in s.pc)
    && (s.txLock == UNLOCKED <==>
          s.owner == None || s.pc[s.owner.value].Lock? || s.pc[s.owner.value].UnlockRx? || s.pc[s.owner.value].Resume?)
    && (s.rxLock == UNLOCKED <==>
          s.owner == None || s.pc[s.owner.value].Lock? || s.pc[s.owner.value].Resume?)
    && UNLOCKED <= s.txLock <= LOCK_MAX && UNLOCKED <= s.rxLock <= LOCK_MAX
  }

  ghost predicate Shape(s: State) {
    && 0 < s.length && s.messages <= s.length
    && LocksOk(s) && OverwritesNeverWait(s.pc)
    && ListOk(s.pc, s.receivers, s.wokenReceivers, true)
    && ListOk(s.pc, s.senders, s.wokenSenders, false)
  }

  function Positive(n: int): nat { if n > 0 then n else 0 }

  /** The owner has seen the queue empty (or full) and is about to put itself on that event list. */
  ghost predicate Placing(s: State, receives: bool) {
    && s.owner.Some? && s.owner.value in s.pc && s.pc[s.owner.value].Place?
    && Receives(s.pc[s.owner.value].op) == receives
  }

  /** While a task waits to receive, each message has a receiver that will retry, or a counted post to announce it. */
  ghost predicate ReceiversCovered(s: State) {
    s.receivers != [] || Placing(s, true) ==> s.messages <= |s.wokenReceivers| + Positive(s.txLock)
  }

  /** The same for free places and blocked senders. */
  ghost predicate SendersCovered(s: State) {
    s.senders != [] || Placing(s, false) ==> s.length - s.messages <= |s.wokenSenders| + Positive(s.rxLock)
  }

  ghost predicate Init(s: State) {
    && 0 < s.length && s.messages <= s.length && s.txLock == UNLOCKED && s.rxLock == UNLOCKED
    && s.receivers == [] && s.senders == [] && s.wokenReceivers == {} && s.wokenSenders == {}
    && s.owner == None && forall t :: t in s.pc ==> s.pc[t] == Idle
  }

  lemma ReadyKeepsLocks(s: State, t: nat)
    requires LocksOk(s)
    ensures LocksOk(s.(pc := Ready(s.pc, t)))
    ensures forall b :: Placing(s.(pc := Ready(s.pc, t)), b) == Placing(s, b)
  {
  }

  lemma WakeReceiverKeeps(s: State)
    requires Shape(s)
    ensures Shape(WakeReceiver(s))
    ensures s.receivers != [] ==> |WakeReceiver(s).wokenReceivers| == |s.wokenReceivers| + 1
    ensures forall b :: Placing(WakeReceiver(s), b) == Placing(s, b)
  {
    if s.receivers != [] {
      ReadyKeepsLocks(s, s.receivers[0]);
      assert s.receivers[0] in s.receivers;
    }
  }

  lemma WakeSenderKeeps(s: State)
    requires Shape(s)
    ensures Shape(WakeSender(s))
    ensures s.senders != [] ==> |WakeSender(s).wokenSenders| == |s.wokenSenders| + 1
    ensures forall b :: Placing(WakeSender(s), b) == Placing(s, b)
  {
    if s.senders != [] {
      ReadyKeepsLocks(s, s.senders[0]);
      assert s.senders[0] in s.senders;
    }
  }

  /** Unlocking wakes one receiver for each counted post, or leaves none waiting. */
  lemma {:induction false} WakeReceiversKeep(s: State, n: int)
    requires Shape(s)
    ensures var r := WakeReceivers(s, n);
            && Shape(r) && r.owner == s.owner && r.messages == s.messages && r.length == s.length
            && r.txLock == s.txLock && r.rxLock == s.rxLock
            && r.senders == s.senders && r.wokenSenders == s.wokenSenders
            && (forall b :: Placing(r, b) == Placing(s, b))
            && (r.receivers == [] || |r.wokenReceivers| == |s.wokenReceivers| + Positive(n))
            && (r.receivers != [] ==> s.receivers != [])
            && (forall t :: t in s.pc && Owning(s.pc[t]) ==> t in r.pc && r.pc[t] == s.pc[t])
    decreases n
  {
    hide Shape, Placing;
    if n > 0 && s.receivers != [] {
      WakeReceiverKeeps(s);
      WakeReceiversKeep(WakeReceiver(s), n - 1);
    }
  }

  lemma {:induction false} WakeSendersKeep(s: State, n: int)
    requires Shape(s)
    ensures var r := WakeSenders(s, n);
            && Shape(r) && r.owner == s.owner && r.messages == s.messages && r.length == s.length
            && r.txLock == s.txLock && r.rxLock == s.rxLock
            && r.receivers == s.receivers && r.wokenReceivers == s.wokenReceivers
            && (forall b :: Placing(r, b) == Placing(s, b))
            && (r.senders == [] || |r.wokenSenders| == |s.wokenSenders| + Positive(n))
            && (r.senders != [] ==> s.senders != [])
            && (forall t :: t in s.pc && Owning(s.pc[t]) ==> t in r.pc && r.pc[t] == s.pc[t])
    decreases n
  {
    hide Shape, Placing;
    if n > 0 && s.senders != [] {
      WakeSenderKeeps(s);
      WakeSendersKeep(WakeSender(s), n - 1);
    }
  }

  lemma CardinalityMinus(a: set<nat>, t: nat)
    ensures |a - {t}| == if t in a then |a| - 1 else |a|
  {
    if t !in a {
      assert a - {t} == a;
    }
  }

  /** The task leaves the retry sets as it enters the critical section. */
  lemma AttemptStart(s: State, t: nat, p: Pc)
    requires Shape(s) && s.owner == None && t in s.pc && s.pc[t].Try? && !Owning(p)
    requires p.Idle? || p.Try? || p.op != Send(true)
    ensures Shape(Started(s, t, p))
  {
  }

  lemma CountKeepsShape(s: State, messages: nat)
    requires Shape(s) && messages <= s.length
    ensures Shape(s.(messages := messages))
    ensures forall b :: Placing(s.(messages := messages), b) == Placing(s, b)
  {
  }

  function Started(s: State, t: nat, p: Pc): State {
    Goto(s, t, p).(wokenReceivers := s.wokenReceivers - {t}, wokenSenders := s.wokenSenders - {t})
  }

  lemma AttemptKeepsShape(s: State, t: nat)
    requires Shape(s) && Enabled(s, Attempt(t))
    ensures Shape(Attempted(s, t))
  {
    hide Shape, ListOk, LocksOk, Ready;
    AttemptOwner(s, t);
    var op := s.pc[t].op;
    AttemptStart(s, t, Idle);
    if op != Send(true) {
      AttemptStart(s, t, Suspend(op));
    }
    CountBounds(s);
    var r := Started(s, t, Idle);
    assert Goto(r, t, Suspend(op)) == Started(s, t, Suspend(op));
    match op
    case Receive =>
      if s.messages > 0 {
        CountKeepsShape(r, s.messages - 1);
        WakeSenderKeeps(r.(messages := s.messages - 1));
      }
    case Peek =>
      WakeReceiverKeeps(r);
    case Send(overwrite) =>
      if HasRoom(s, overwrite) {
        CountKeepsShape(r, Posted(r, overwrite).messages);
        WakeReceiverKeeps(Posted(r, overwrite));
      }
  }

  lemma CountBounds(s: State)
    requires Shape(s)
    ensures s.messages <= s.length && 0 < s.length
  {
  }

  /** A task that is not in the middle of locking runs only while nobody has the scheduler suspended. */
  lemma AttemptOwner(s: State, t: nat)
    requires Shape(s) && Runs(s, t) && !Owning(s.pc[t])
    ensures s.owner == None && s.txLock == UNLOCKED && s.rxLock == UNLOCKED
  {
  }

  lemma {:induction false} WithoutMembers(list: seq<nat>, t: nat)
    ensures forall x :: x in Without(list, t) <==> x in list && x != t
    ensures Distinct(list) ==> Distinct(Without(list, t))
  {
    if list != [] {
      WithoutMembers(list[1..], t);
      assert list == [list[0]] + list[1..];
      var r := Without(list[1..], t);
      forall i | 0 <= i < |r| ensures r[i] in list[1..] {
        assert r[i] in r;
      }
    }
  }

  lemma InsertMembers(list: seq<nat>, at: nat, t: nat)
    requires at <= |list| && Distinct(list) && t !in list
    ensures Distinct(InsertAt(list, at, t))
    ensures forall x :: x in InsertAt(list, at, t) <==> x == t || x in list
  {
    var r := InsertAt(list, at, t);
    assert r[at] == t;
    forall x | x in list ensures x in r {
      var i :| 0 <= i < |list| && list[i] == x;
      assert r[if i < at then i else i + 1] == x;
    }
    forall i, j | 0 <= i < j < |r| ensures r[i] != r[j] {
      assert i != at ==> r[i] == list[if i < at then i else i - 1];
      assert j != at ==> r[j] == list[if j < at then j else j - 1];
    }
  }

  lemma PlaceKeepsShape(s: State, t: nat, at: nat)
    requires Shape(s) && Enabled(s, PlaceOnList(t, at))
    ensures Shape(Apply(s, PlaceOnList(t, at)))
  {
    if Receives(s.pc[t].op) {
      InsertMembers(s.receivers, at, t);
    } else {
      InsertMembers(s.senders, at, t);
    }
  }

  lemma TimeoutKeepsShape(s: State, t: nat)
    requires Shape(s) && Enabled(s, Timeout(t))
    ensures Shape(Apply(s, Timeout(t)))
  {
    WithoutMembers(s.receivers, t);
    WithoutMembers(s.senders, t);
  }

  lemma UnlockTxKeepsShape(s: State, t: nat)
    requires Shape(s) && Enabled(s, UnlockQueueTx(t))
    ensures Shape(Apply(s, UnlockQueueTx(t)))
  {
    WakeReceiversKeep(s, s.txLock);
    var r := WakeReceivers(s, s.txLock);
    assert r.pc[t] == s.pc[t];
    UnlockMoves(r, t);
  }

  lemma UnlockMoves(s: State, t: nat)
    requires Shape(s) && s.owner == Some(t) && t in s.pc
    ensures s.pc[t].UnlockTx? ==> Shape(Goto(s, t, UnlockRx(s.pc[t].op, s.pc[t].timedOut)).(txLock := UNLOCKED))
    ensures s.pc[t].UnlockRx? ==> Shape(Goto(s, t, Resume(s.pc[t].op, s.pc[t].timedOut)).(rxLock := UNLOCKED))
  {
  }

  lemma UnlockRxKeepsShape(s: State, t: nat)
    requires Shape(s) && Enabled(s, UnlockQueueRx(t))
    ensures Shape(Apply(s, UnlockQueueRx(t)))
  {
    WakeSendersKeep(s, s.rxLock);
    var r := WakeSenders(s, s.rxLock);
    assert r.pc[t] == s.pc[t];
    UnlockMoves(r, t);
  }

  lemma MoveKeepsShape(s: State, step: Step)
    requires Shape(s) && Enabled(s, step)
    requires step.Call? || step.SuspendAll? || step.CheckTimeout? || step.CheckEmpty?
    ensures Shape(Apply(s, step))
  {
    hide ListOk;
    var p := Apply(s, step).pc[step.t];
    GotoKeepsList(s.pc, s.receivers, s.wokenReceivers, true, step.t, p);
    GotoKeepsList(s.pc, s.senders, s.wokenSenders, false, step.t, p);
  }

  /** A task that is in neither list goes anywhere. */
  lemma GotoKeepsList(pc: map<nat, Pc>, list: seq<nat>, woken: set<nat>, receives: bool, t: nat, p: Pc)
    requires ListOk(pc, list, woken, receives) && t in pc && !MayWait(pc[t]) && !MayBeWoken(pc[t])
    ensures ListOk(pc[t := p], list, woken, receives)
  {
  }

  lemma LockKeepsShape(s: State, t: nat)
    requires Shape(s) && Enabled(s, LockQueue(t))
    ensures Shape(Apply(s, LockQueue(t)))
  {
  }

  lemma ResumeKeepsShape(s: State, t: nat)
    requires Shape(s) && Enabled(s, ResumeAll(t))
    ensures Shape(Apply(s, ResumeAll(t)))
  {
  }

  lemma InterruptKeepsShape(s: State, step: Step)
    requires Shape(s) && Enabled(s, step)
    requires step.Reset? || step.SendFromIsr? || step.ReceiveFromIsr?
    ensures Shape(Apply(s, step))
  {
    match step
    case Reset =>
      WakeSenderKeeps(s.(messages := 0, txLock := UNLOCKED, rxLock := UNLOCKED));
    case SendFromIsr(overwrite) =>
      if HasRoom(s, overwrite) {
        CountKeepsShape(s, Posted(s, overwrite).messages);
        WakeReceiverKeeps(Posted(s, overwrite));
      }
    case ReceiveFromIsr =>
      if s.messages > 0 {
        CountKeepsShape(s, s.messages - 1);
        WakeSenderKeeps(s.(messages := s.messages - 1));
      }
  }

  lemma StepKeepsShape(s: State, step: Step)
    requires Shape(s) && Enabled(s, step)
    ensures Shape(Apply(s, step))
  {
    hide Shape;
    match step
    case Attempt(t) => AttemptKeepsShape(s, t);
    case PlaceOnList(t, at) => PlaceKeepsShape(s, t, at);
    case UnlockQueueTx(t) => UnlockTxKeepsShape(s, t);
    case UnlockQueueRx(t) => UnlockRxKeepsShape(s, t);
    case Timeout(t) => TimeoutKeepsShape(s, t);
    case Reset => InterruptKeepsShape(s, step);
    case SendFromIsr(_) => InterruptKeepsShape(s, step);
    case ReceiveFromIsr => InterruptKeepsShape(s, step);
    case LockQueue(t) => LockKeepsShape(s, t);
    case ResumeAll(t) => ResumeKeepsShape(s, t);
    case _ => MoveKeepsShape(s, step);
  }

  // ----- no lost wake-up -----

  /** With the scheduler running, nobody is placing itself and both locks are open. */
  lemma CoveredWhenRunning(s: State)
    requires s.owner == None && s.txLock == UNLOCKED && s.rxLock == UNLOCKED
    ensures ReceiversCovered(s) <==> (s.receivers != [] ==> s.messages <= |s.wokenReceivers|)
    ensures SendersCovered(s) <==> (s.senders != [] ==> s.length - s.messages <= |s.wokenSenders|)
  {
  }

  /** What a wake-up does to the numbers that the coverage compares. */
  lemma WakeCounts(s: State)
    requires Shape(s)
    ensures s.receivers != [] ==> |s.wokenReceivers + {s.receivers[0]}| == |s.wokenReceivers| + 1
    ensures s.senders != [] ==> |s.wokenSenders + {s.senders[0]}| == |s.wokenSenders| + 1
  {
    assert s.receivers != [] ==> s.receivers[0] in s.receivers;
    assert s.senders != [] ==> s.senders[0] in s.senders;
  }

  lemma RefusedCovers(s: State, t: nat)
    requires Shape(s) && Enabled(s, Attempt(t))
    requires if Receives(s.pc[t].op) then s.messages == 0 else !HasRoom(s, s.pc[t].op.overwrite)
    ensures ReceiversCovered(s) ==> ReceiversCovered(Attempted(s, t))
    ensures SendersCovered(s) ==> SendersCovered(Attempted(s, t))
  {
    hide Shape, ListOk, LocksOk, Ready, WakeReceiver, WakeSender, Posted, ReceiversCovered, SendersCovered;
    AttemptOwner(s, t);
    OneKind(s, t);
    assert !Receives(s.pc[t].op) ==> s.wokenReceivers - {t} == s.wokenReceivers;
    assert Receives(s.pc[t].op) ==> s.wokenSenders - {t} == s.wokenSenders;
    CoveredWhenRunning(s);
    CoveredWhenRunning(Attempted(s, t));
    CardinalityMinus(s.wokenReceivers, t);
    CardinalityMinus(s.wokenSenders, t);
    CountBounds(s);
  }

  /** The numbers on both sides of the coverage after an attempt that went through. */
  lemma AcceptedCounts(s: State, t: nat)
    requires Shape(s) && Enabled(s, Attempt(t))
    requires if Receives(s.pc[t].op) then s.messages > 0 else HasRoom(s, s.pc[t].op.overwrite)
    ensures var v := Attempted(s, t);
            var wokenReceiver := if t in s.wokenReceivers then 1 else 0;
            var wokenSender := if t in s.wokenSenders then 1 else 0;
            && v.owner == None && v.txLock == UNLOCKED && v.rxLock == UNLOCKED && v.length == s.length
            && v.messages == (match s.pc[t].op
                              case Receive => s.messages - 1
                              case Peek => s.messages
                              case Send(overwrite) => Posted(s, overwrite).messages)
            && (v.receivers != [] ==> s.receivers != [])
            && (v.receivers != [] ==>
                  |v.wokenReceivers| == |s.wokenReceivers| - wokenReceiver + if s.pc[t].op.Receive? then 0 else 1)
            && (v.senders != [] ==> s.senders != [])
            && (v.senders != [] ==>
                  |v.wokenSenders| == |s.wokenSenders| - wokenSender + if s.pc[t].op.Receive? then 1 else 0)
  {
    hide Shape, ListOk, LocksOk, Ready;
    AttemptOwner(s, t);
    AttemptStart(s, t, Idle);
    CardinalityMinus(s.wokenReceivers, t);
    CardinalityMinus(s.wokenSenders, t);
    CountBounds(s);
    WakeCounts(Started(s, t, Idle));
  }

  lemma AcceptedCovers(s: State, t: nat)
    requires Shape(s) && Enabled(s, Attempt(t))
    requires if Receives(s.pc[t].op) then s.messages > 0 else HasRoom(s, s.pc[t].op.overwrite)
    ensures ReceiversCovered(s) ==> ReceiversCovered(Attempted(s, t))
    ensures SendersCovered(s) ==> SendersCovered(Attempted(s, t))
  {
    AcceptedCounts(s, t);
    AttemptOwner(s, t);
    OneKind(s, t);
    CoveredWhenRunning(s);
    CoveredWhenRunning(Attempted(s, t));
    hide Shape, Attempted;
  }

  lemma AttemptCovers(s: State, t: nat)
    requires Shape(s) && Enabled(s, Attempt(t))
    ensures ReceiversCovered(s) ==> ReceiversCovered(Attempted(s, t))
    ensures SendersCovered(s) ==> SendersCovered(Attempted(s, t))
  {
    if (if Receives(s.pc[t].op) then s.messages > 0 else HasRoom(s, s.pc[t].op.overwrite)) {
      AcceptedCovers(s, t);
    } else {
      RefusedCovers(s, t);
    }
  }

  /** A task is in a call of one kind, so it is a pending retry of at most that kind. */
  lemma OneKind(s: State, t: nat)
    requires Shape(s) && t in s.pc && s.pc[t].Try?
    ensures Receives(s.pc[t].op) ==> t !in s.wokenSenders
    ensures !Receives(s.pc[t].op) ==> t !in s.wokenReceivers
    ensures s.pc[t].op == Send(true) ==> t !in s.wokenSenders
  {
  }

  lemma StepCoversReceivers(s: State, step: Step)
    requires Shape(s) && Enabled(s, step) && ReceiversCovered(s)
    ensures ReceiversCovered(Apply(s, step))
  {
    match step
    case Attempt(t) => AttemptCovers(s, t);
    case UnlockQueueTx(t) =>
      WakeReceiversKeep(s, s.txLock);
    case UnlockQueueRx(t) =>
      WakeSendersKeep(s, s.rxLock);
    case SendFromIsr(overwrite) =>
      WakeReceiverKeeps(s);
    case Reset => WakeSenderKeeps(s);
    case ReceiveFromIsr => WakeSenderKeeps(s);
    case _ =>
  }

  /** A reset wakes one sender only: enough when at most one waits, or the retries can fill the queue. */
  predicate ResetWakesEnough(s: State) {
    |s.senders| <= 1 || s.length <= |s.wokenSenders| + 1
  }

  /** xQueueGenericReset keeps blocked senders covered exactly under that condition. */
  lemma ResetCoversSendersIff(s: State)
    requires Shape(s) && Enabled(s, Reset) && SendersCovered(s)
    ensures SendersCovered(Apply(s, Reset)) <==> ResetWakesEnough(s)
  {
    hide Shape, ListOk, LocksOk, Ready;
    WakeCounts(s);
  }

  lemma StepCoversSenders(s: State, step: Step)
    requires Shape(s) && Enabled(s, step) && SendersCovered(s)
    requires step.Reset? ==> ResetWakesEnough(s)
    ensures SendersCovered(Apply(s, step))
  {
    match step
    case Attempt(t) => AttemptCovers(s, t);
    case UnlockQueueTx(t) =>
      WakeReceiversKeep(s, s.txLock);
    case UnlockQueueRx(t) =>
      WakeSendersKeep(s, s.rxLock);
    case Reset => ResetCoversSendersIff(s);
    case SendFromIsr(_) => WakeReceiverKeeps(s);
    case ReceiveFromIsr => WakeSenderKeeps(s);
    case _ =>
  }

  // ----- runs -----

  ghost predicate Possible(s: State, steps: seq<Step>)
    decreases |steps|
  {
    steps == [] || (Enabled(s, steps[0]) && Possible(Apply(s, steps[0]), steps[1..]))
  }

  ghost function Run(s: State, steps: seq<Step>): State
    requires Possible(s, steps)
    decreases |steps|
  {
    if steps == [] then s else Run(Apply(s, steps[0]), steps[1..])
  }

  ghost predicate ResetsWakeEnough(s: State, steps: seq<Step>)
    requires Possible(s, steps)
    decreases |steps|
  {
    steps == [] || ((steps[0].Reset? ==> ResetWakesEnough(s)) && ResetsWakeEnough(Apply(s, steps[0]), steps[1..]))
  }

  lemma {:induction false} RunKeeps(s: State, steps: seq<Step>)
    requires Possible(s, steps) && Shape(s)
    ensures Shape(Run(s, steps))
    ensures ReceiversCovered(s) ==> ReceiversCovered(Run(s, steps))
    ensures SendersCovered(s) && ResetsWakeEnough(s, steps) ==> SendersCovered(Run(s, steps))
    decreases |steps|
  {
    hide Shape, ReceiversCovered, SendersCovered, Apply, Enabled;
    if steps != [] {
      StepKeepsShape(s, steps[0]);
      if ReceiversCovered(s) {
        StepCoversReceivers(s, steps[0]);
      }
      if SendersCovered(s) && ResetsWakeEnough(s, steps) {
        StepCoversSenders(s, steps[0]);
      }
      RunKeeps(Apply(s, steps[0]), steps[1..]);
    }
  }

  /**
   In every interleaving of tasks and interrupts, when a task sleeps on the queue for data
   while the queue is unlocked and no woken receiver has yet to retry, the queue is empty.
   The same holds of senders and a full queue when every reset wakes enough of them.
   */
  lemma NoLostWakeup(s: State, steps: seq<Step>)
    requires Init(s) && Possible(s, steps)
    ensures var v := Run(s, steps);
            && (v.receivers != [] ==> v.messages <= |v.wokenReceivers| + Positive(v.txLock))
            && (v.receivers != [] && v.txLock == UNLOCKED && v.wokenReceivers == {} ==> v.messages == 0)
            && (v.senders != [] && v.rxLock == UNLOCKED && v.wokenSenders == {} && ResetsWakeEnough(s, steps) ==>
                  v.messages == v.length)
  {
    RunKeeps(s, steps);
  }

  // ----- what the count counts -----

  /** The step adds a message: a send that finds room and overwrites nothing, from a task or from an interrupt. */
  predicate Puts(s: State, step: Step)
    requires Enabled(s, step)
  {
    match step
    case Attempt(t) => s.pc[t].op.Send? && s.messages < s.length && !(s.pc[t].op.overwrite && s.messages > 0)
    case SendFromIsr(overwrite) => s.messages < s.length && !(overwrite && s.messages > 0)
    case _ => false
  }

  /** The step takes a message: a receive from a queue that is not empty. */
  predicate Takes(s: State, step: Step)
    requires Enabled(s, step)
  {
    match step
    case Attempt(t) => s.pc[t].op.Receive? && s.messages > 0
    case ReceiveFromIsr => s.messages > 0
    case _ => false
  }

  /** The call goes through at this attempt. */
  predicate GoesThrough(s: State, op: Op) {
    if op.Send? then op.overwrite || s.messages < s.length else s.messages > 0
  }

  /** Every step changes the count by what it puts and takes; a reset empties the queue. */
  lemma StepCounts(s: State, step: Step)
    requires Shape(s) && Enabled(s, step)
    ensures var v := Apply(s, step);
            && v.length == s.length
            && v.messages == if step.Reset? then 0
                             else s.messages + (if Puts(s, step) then 1 else 0) - (if Takes(s, step) then 1 else 0)
  {
    match step
    case UnlockQueueTx(t) => WakeReceiversKeep(s, s.txLock);
    case UnlockQueueRx(t) => WakeSendersKeep(s, s.rxLock);
    case _ =>
  }

  /** A call that does not go through returns if it may not block, and otherwise prepares to block. */
  lemma AttemptReturns(s: State, t: nat)
    requires Enabled(s, Attempt(t))
    ensures var p := s.pc[t];
            Apply(s, Attempt(t)).pc[t] == if GoesThrough(s, p.op) || !p.wait then Idle else Suspend(p.op)
  {
  }

  /**
   A call returns at these points only: at an attempt that goes through or may not block; a
   receive whose time ran out, when the queue is found empty again; a send whose time ran
   out, without another look.
   */
  lemma ReturnsExactlyWhen(s: State, step: Step, t: nat)
    requires Shape(s) && Enabled(s, step) && t in s.pc && !s.pc[t].Idle?
    ensures t in Apply(s, step).pc
    ensures Apply(s, step).pc[t].Idle? <==>
              || (step == Attempt(t) && (GoesThrough(s, s.pc[t].op) || !s.pc[t].wait))
              || (step == CheckEmpty(t) && s.messages == 0)
              || (step == ResumeAll(t) && s.pc[t].op.Send? && s.pc[t].timedOut)
  {
    hide Shape, WakeReceivers, WakeSenders;
    match step
    case ResumeAll(_) =>
      if s.pc[t].Resume? && s.pc[t].timedOut {
        TimedOutIsUnlisted(s, t);
      }
    case UnlockQueueTx(_) => WakingReturnsNobody(s, s.txLock, t);
    case UnlockQueueRx(_) => WakingReturnsNobody(s, s.rxLock, t);
    case _ =>
  }

  lemma TimedOutIsUnlisted(s: State, t: nat)
    requires Shape(s) && t in s.pc && s.pc[t].Resume? && s.pc[t].timedOut
    ensures t !in s.receivers && t !in s.senders
  {
  }

  lemma {:induction false} WakingReturnsNobody(s: State, n: int, t: nat)
    requires t in s.pc
    ensures t in WakeReceivers(s, n).pc && (WakeReceivers(s, n).pc[t].Idle? <==> s.pc[t].Idle?)
    ensures t in WakeSenders(s, n).pc && (WakeSenders(s, n).pc[t].Idle? <==> s.pc[t].Idle?)
    decreases n
  {
    if n > 0 {
      WakingReturnsNobody(WakeReceiver(s), n - 1, t);
      WakingReturnsNobody(WakeSender(s), n - 1, t);
    }
  }

  ghost function Put(s: State, steps: seq<Step>): nat
    requires Possible(s, steps)
    decreases |steps|
  {
    if steps == [] then 0 else (if Puts(s, steps[0]) then 1 else 0) + Put(Apply(s, steps[0]), steps[1..])
  }

  ghost function Taken(s: State, steps: seq<Step>): nat
    requires Possible(s, steps)
    decreases |steps|
  {
    if steps == [] then 0 else (if Takes(s, steps[0]) then 1 else 0) + Taken(Apply(s, steps[0]), steps[1..])
  }

  /** In every interleaving without a reset, what was put in is what was taken out and what is there. */
  lemma {:induction false} CountBalances(s: State, steps: seq<Step>)
    requires Shape(s) && Possible(s, steps) && forall step :: step in steps ==> !step.Reset?
    ensures s.messages + Put(s, steps) == Taken(s, steps) + Run(s, steps).messages
    decreases |steps|
  {
    hide Shape, Apply, Enabled, Puts, Takes;
    if steps != [] {
      assert steps[0] in steps;
      StepCounts(s, steps[0]);
      StepKeepsShape(s, steps[0]);
      CountBalances(Apply(s, steps[0]), steps[1..]);
    }
  }

  // ----- the order of wake-ups -----

  ghost predicate Before(list: seq<nat>, a: nat, b: nat) {
    exists i, j :: 0 <= i < j < |list| && list[i] == a && list[j] == b
  }

  /** The two are still in the list in this order, or the first one was woken. */
  ghost predicate KeepsOrder(list: seq<nat>, woken: set<nat>, a: nat, b: nat) {
    Before(list, a, b) || a in woken
  }

  lemma TailKeepsOrder(list: seq<nat>, a: nat, b: nat)
    requires Before(list, a, b)
    ensures list != [] && (list[0] == a || Before(list[1..], a, b))
  {
    var i, j :| 0 <= i < j < |list| && list[i] == a && list[j] == b;
    if i > 0 {
      assert list[1..][i - 1] == a && list[1..][j - 1] == b;
    }
  }

  lemma InsertKeepsOrder(list: seq<nat>, at: nat, t: nat, a: nat, b: nat)
    requires Before(list, a, b) && at <= |list|
    ensures Before(InsertAt(list, at, t), a, b)
  {
    var i, j :| 0 <= i < j < |list| && list[i] == a && list[j] == b;
    var r := InsertAt(list, at, t);
    var i', j' := if i < at then i else i + 1, if j < at then j else j + 1;
    assert r[i'] == a && r[j'] == b;
  }

  lemma {:induction false} WithoutKeepsOrder(list: seq<nat>, t: nat, a: nat, b: nat)
    requires Before(list, a, b) && t != a && t != b
    ensures Before(Without(list, t), a, b)
  {
    TailKeepsOrder(list, a, b);
    var rest := Without(list[1..], t);
    if Before(list[1..], a, b) {
      WithoutKeepsOrder(list[1..], t, a, b);
      var i, j :| 0 <= i < j < |rest| && rest[i] == a && rest[j] == b;
      var r := Without(list, t);
      assert r == if list[0] == t then rest else [list[0]] + rest;
      assert r[if list[0] == t then i else i + 1] == a && r[if list[0] == t then j else j + 1] == b;
    } else {
      var i, j :| 0 <= i < j < |list| && list[i] == a && list[j] == b;
      assert list[1..][j - 1] == b;
      WithoutMembers(list[1..], t);
      assert b in list[1..] && b in rest;
      var k :| 0 <= k < |rest| && rest[k] == b;
      assert Without(list, t)[0] == a && Without(list, t)[k + 1] == b;
    }
  }

  lemma {:induction false} WakingKeepsOrder(s: State, n: int, a: nat, b: nat)
    ensures KeepsOrder(s.receivers, s.wokenReceivers, a, b) ==>
              KeepsOrder(WakeReceivers(s, n).receivers, WakeReceivers(s, n).wokenReceivers, a, b)
    ensures KeepsOrder(s.senders, s.wokenSenders, a, b) ==>
              KeepsOrder(WakeSenders(s, n).senders, WakeSenders(s, n).wokenSenders, a, b)
    ensures WakeReceivers(s, n).senders == s.senders && WakeReceivers(s, n).wokenSenders == s.wokenSenders
    ensures WakeSenders(s, n).receivers == s.receivers && WakeSenders(s, n).wokenReceivers == s.wokenReceivers
    decreases n
  {
    hide Before;
    if n > 0 && s.receivers != [] {
      if Before(s.receivers, a, b) {
        TailKeepsOrder(s.receivers, a, b);
      }
      WakingKeepsOrder(WakeReceiver(s), n - 1, a, b);
    }
    if n > 0 && s.senders != [] {
      if Before(s.senders, a, b) {
        TailKeepsOrder(s.senders, a, b);
      }
      WakingKeepsOrder(WakeSender(s), n - 1, a, b);
    }
  }

  /**
   Waiters are woken in the order of their list, which is by priority: no step takes the
   second of two off the list while it leaves the first, unless the second one's time ran out.
   */
  lemma NoOvertaking(s: State, step: Step, a: nat, b: nat)
    requires Enabled(s, step) && step != Timeout(a) && step != Timeout(b)
    ensures Before(s.receivers, a, b) ==> KeepsOrder(Apply(s, step).receivers, Apply(s, step).wokenReceivers, a, b)
    ensures Before(s.senders, a, b) ==> KeepsOrder(Apply(s, step).senders, Apply(s, step).wokenSenders, a, b)
  {
    hide Before, WakeReceivers, WakeSenders, Without, InsertAt;
    if Before(s.receivers, a, b) {
      TailKeepsOrder(s.receivers, a, b);
    }
    if Before(s.senders, a, b) {
      TailKeepsOrder(s.senders, a, b);
    }
    match step
    case PlaceOnList(t, at) =>
      if Before(s.receivers, a, b) && Receives(s.pc[t].op) {
        InsertKeepsOrder(s.receivers, at, t, a, b);
      }
      if Before(s.senders, a, b) && !Receives(s.pc[t].op) {
        InsertKeepsOrder(s.senders, at, t, a, b);
      }
    case Timeout(t) =>
      if Before(s.receivers, a, b) {
        WithoutKeepsOrder(s.receivers, t, a, b);
      }
      if Before(s.senders, a, b) {
        WithoutKeepsOrder(s.senders, t, a, b);
      }
    case UnlockQueueTx(_) => WakingKeepsOrder(s, s.txLock, a, b);
    case UnlockQueueRx(_) => WakingKeepsOrder(s, s.rxLock, a, b);
    case _ =>
  }

  // ----- a call that times out -----

  /** The queue is unlocked, the task is in no call, and one of this kind cannot go through. */
  ghost predicate Refuses(s: State, t: nat, op: Op) {
    && s.owner == None && s.txLock == UNLOCKED && s.rxLock == UNLOCKED && !GoesThrough(s, op)
    && t in s.pc && s.pc[t] == Idle && t !in s.wokenReceivers && t !in s.wokenSenders
    && t !in s.receivers && t !in s.senders
  }

  /** Where a task whose block time is up is after each of its steps. */
  function Leaving(s: State, t: nat, op: Op, k: nat): State {
    if k == 0 then s
    else if k == 1 then Goto(s, t, Try(op, true))
    else if k == 2 then Goto(s, t, Suspend(op))
    else if k == 3 then Goto(s, t, Lock(op)).(owner := Some(t))
    else if k == 4 then Goto(s, t, Check(op)).(owner := Some(t), txLock := 0, rxLock := 0)
    else if k == 5 then Goto(s, t, UnlockTx(op, true)).(owner := Some(t), txLock := 0, rxLock := 0)
    else if k == 6 then Goto(s, t, UnlockRx(op, true)).(owner := Some(t), rxLock := 0)
    else if k == 7 then Goto(s, t, Resume(op, true)).(owner := Some(t))
    else if k == 8 && Receives(op) then Goto(s, t, Recheck(op))
    else s
  }

  function LeavingStep(t: nat, op: Op, k: nat): Step {
    if k == 0 then Call(t, op, true) else if k == 1 then Attempt(t) else if k == 2 then SuspendAll(t)
    else if k == 3 then LockQueue(t) else if k == 4 then CheckTimeout(t, true) else if k == 5 then UnlockQueueTx(t)
    else if k == 6 then UnlockQueueRx(t) else if k == 7 then ResumeAll(t) else CheckEmpty(t)
  }

  lemma LeavesOn(s: State, t: nat, op: Op, k: nat)
    requires Refuses(s, t, op) && k < if Receives(op) then 9 else 8
    ensures Enabled(Leaving(s, t, op, k), LeavingStep(t, op, k))
    ensures Apply(Leaving(s, t, op, k), LeavingStep(t, op, k)) == Leaving(s, t, op, k + 1)
  {
    assert s.wokenReceivers - {t} == s.wokenReceivers && s.wokenSenders - {t} == s.wokenSenders;
    assert s.pc[t := Idle] == s.pc;
  }

  /** A call that cannot go through and whose time is up returns, and leaves the queue as it was. */
  lemma {:induction false} TimedOutCallReturns(s: State, t: nat, op: Op, k: nat) returns (steps: seq<Step>)
    requires Refuses(s, t, op) && k <= if Receives(op) then 9 else 8
    ensures Possible(Leaving(s, t, op, k), steps) && Run(Leaving(s, t, op, k), steps) == s
    ensures |steps| == (if Receives(op) then 9 else 8) - k
    ensures forall i :: 0 <= i < |steps| ==> steps[i] == LeavingStep(t, op, k + i)
    decreases 9 - k
  {
    hide Refuses, Enabled, Apply, LeavingStep;
    if k == (if Receives(op) then 9 else 8) {
      steps := [];
      NoSteps(s);
    } else {
      hide Leaving;
      var rest := TimedOutCallReturns(s, t, op, k + 1);
      LeavesOn(s, t, op, k);
      steps := [LeavingStep(t, op, k)] + rest;
      RunCons(Leaving(s, t, op, k), LeavingStep(t, op, k), rest);
      forall i | 0 <= i < |steps| ensures steps[i] == LeavingStep(t, op, k + i) {
        assert i > 0 ==> steps[i] == rest[i - 1];
      }
    }
  }

  // ----- a run in which a reset loses a sender -----

  lemma RunCons(s: State, step: Step, steps: seq<Step>)
    requires Enabled(s, step) && Possible(Apply(s, step), steps)
    ensures Possible(s, [step] + steps) && Run(s, [step] + steps) == Run(Apply(s, step), steps)
  {
    assert ([step] + steps)[1..] == steps;
  }

  lemma {:induction false} RunAppend(s: State, a: seq<Step>, b: seq<Step>)
    requires Possible(s, a) && Possible(Run(s, a), b)
    ensures Possible(s, a + b) && Run(s, a + b) == Run(Run(s, a), b)
    decreases |a|
  {
    hide Enabled, Apply;
    if a == [] {
      assert a + b == b;
    } else {
      RunAppend(Apply(s, a[0]), a[1..], b);
      RunCons(s, a[0], a[1..] + b);
      assert a + b == [a[0]] + (a[1..] + b);
    }
  }

  /** Where a task that sends to a full queue and may block is after each of its nine steps. */
  function Going(s: State, t: nat, k: nat): State
    requires k <= 9
  {
    var op := Send(false);
    var list := s.senders + [t];
    if k == 0 then s
    else if k == 1 then Goto(s, t, Try(op, true))
    else if k == 2 then Goto(s, t, Suspend(op))
    else if k == 3 then Goto(s, t, Lock(op)).(owner := Some(t))
    else if k == 4 then Goto(s, t, Check(op)).(owner := Some(t), txLock := 0, rxLock := 0)
    else if k == 5 then Goto(s, t, Place(op)).(owner := Some(t), txLock := 0, rxLock := 0)
    else if k == 6 then Goto(s, t, UnlockTx(op, false)).(owner := Some(t), txLock := 0, rxLock := 0, senders := list)
    else if k == 7 then Goto(s, t, UnlockRx(op, false)).(owner := Some(t), rxLock := 0, senders := list)
    else if k == 8 then Goto(s, t, Resume(op, false)).(owner := Some(t), senders := list)
    else Goto(s, t, Blocked(op)).(senders := list)
  }

  function GoingStep(s: State, t: nat, k: nat): Step
    requires k < 9
  {
    if k == 0 then Call(t, Send(false), true) else if k == 1 then Attempt(t) else if k == 2 then SuspendAll(t)
    else if k == 3 then LockQueue(t) else if k == 4 then CheckTimeout(t, false) else if k == 5 then PlaceOnList(t, |s.senders|)
    else if k == 6 then UnlockQueueTx(t) else if k == 7 then UnlockQueueRx(t) else ResumeAll(t)
  }

  /** The queue is full and unlocked, and the task is in none of its lists. */
  ghost predicate FullFor(s: State, t: nat) {
    && s.owner == None && s.txLock == UNLOCKED && s.rxLock == UNLOCKED && s.messages == s.length
    && t in s.pc && s.pc[t] == Idle && t !in s.wokenReceivers && t !in s.wokenSenders
  }

  lemma GoesOn(s: State, t: nat, k: nat)
    requires FullFor(s, t) && k < 9
    ensures Enabled(Going(s, t, k), GoingStep(s, t, k))
    ensures Apply(Going(s, t, k), GoingStep(s, t, k)) == Going(s, t, k + 1)
  {
    assert s.wokenReceivers - {t} == s.wokenReceivers && s.wokenSenders - {t} == s.wokenSenders;
    assert InsertAt(s.senders, |s.senders|, t) == s.senders + [t];
    assert (s.senders + [t])[|s.senders|] == t;
  }

  /** It ends up last among the blocked senders. */
  lemma {:induction false} SenderFallsAsleep(s: State, t: nat, k: nat) returns (steps: seq<Step>)
    requires FullFor(s, t) && k <= 9
    ensures Possible(Going(s, t, k), steps) && Run(Going(s, t, k), steps) == Going(s, t, 9)
    decreases 9 - k
  {
    hide FullFor, Enabled, Apply, Going, GoingStep;
    if k == 9 {
      steps := [];
    } else {
      var rest := SenderFallsAsleep(s, t, k + 1);
      GoesOn(s, t, k);
      steps := [GoingStep(s, t, k)] + rest;
      RunCons(Going(s, t, k), GoingStep(s, t, k), rest);
    }
  }

  lemma NoSteps(s: State)
    ensures Possible(s, []) && Run(s, []) == s
  {
  }

  function FullQueue(): State {
    State(2, 2, UNLOCKED, UNLOCKED, [], [], {}, {}, map[0 := Idle, 1 := Idle], None)
  }

  lemma BothAsleep()
    ensures var s := FullQueue(); var a := Going(s, 0, 9);
            && FullFor(s, 0) && Going(s, 0, 0) == s && FullFor(a, 1) && Going(a, 1, 0) == a
            && Going(a, 1, 9) == s.(senders := [0, 1], pc := map[0 := Blocked(Send(false)), 1 := Blocked(Send(false))])
  {
  }

  /** A reset wakes the first of the two, which retries and leaves a place free. */
  lemma AloneAfterReset()
    ensures var b := FullQueue().(senders := [0, 1], pc := map[0 := Blocked(Send(false)), 1 := Blocked(Send(false))]);
            && Enabled(b, Reset) && Enabled(Apply(b, Reset), Attempt(0))
            && var v := Apply(Apply(b, Reset), Attempt(0));
               v.senders == [1] && v.wokenSenders == {} && v.rxLock == UNLOCKED && v.messages == 1 && v.length == 2
  {
    var b := FullQueue().(senders := [0, 1], pc := map[0 := Blocked(Send(false)), 1 := Blocked(Send(false))]);
    var r := Apply(b, Reset);
    assert r.senders == [1] && r.wokenSenders == {0} && r.messages == 0 && r.pc[0] == Try(Send(false), true);
  }

  /**
   The condition on resets is needed: two senders fall asleep on a full queue of two, the
   queue is reset, the first one retries, and the other sleeps on beside a free place.
   */
  lemma ResetLosesSender()
    ensures exists s, steps :: Init(s) && Possible(s, steps) &&
              var v := Run(s, steps);
              v.senders != [] && v.wokenSenders == {} && v.rxLock == UNLOCKED && v.messages < v.length
  {
    hide Possible, Run, Apply, Going, Enabled, FullFor;
    var s := FullQueue();
    BothAsleep();
    AloneAfterReset();
    assert Init(s);
    var first := SenderFallsAsleep(s, 0, 0);
    var a := Run(s, first);
    var second := SenderFallsAsleep(a, 1, 0);
    var b := Run(a, second);
    var r := Apply(b, Reset);
    var v := Apply(r, Attempt(0));
    NoSteps(v);
    RunCons(r, Attempt(0), []);
    RunCons(b, Reset, [Attempt(0)] + []);
    RunAppend(a, second, [Reset] + ([Attempt(0)] + []));
    RunAppend(s, first, second + ([Reset] + ([Attempt(0)] + [])));
  }
}
