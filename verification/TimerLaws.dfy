/**
 What the daemon of TimerSpec does for a single timer: no expiry gets lost, a one-shot timer
 is called once, and a command changes the timer that it names as its sender meant.
 */
module TimerLaws {
  import opened Entries
  import opened TimerSpec

  // ----- no expiry is lost -----

  ghost predicate CalledFor(calls: seq<Callback>, e: Entry) {
    exists c :: c in calls && c.id == e.id && c.due == e.key
  }

  /** On the way from `w` to `v` the armed expiry `e` was either kept or called for. */
  ghost predicate Settled(w: World, v: World, e: Entry) {
    w.log <= v.log && (e in v.armed || CalledFor(v.log[|w.log|..], e))
  }

  lemma SettledOn(w: World, u: World, v: World, e: Entry)
    requires Settled(w, u, e) && u.log <= v.log && (e in u.armed ==> Settled(u, v, e))
    ensures Settled(w, v, e)
  {
    if e in u.armed && e !in v.armed {
      var c :| c in v.log[|u.log|..] && c.id == e.id && c.due == e.key;
      assert v.log[|w.log|..] == u.log[|w.log|..] + v.log[|u.log|..];
    } else if e !in u.armed {
      var c :| c in u.log[|w.log|..] && c.id == e.id && c.due == e.key;
      assert v.log[|w.log|..] == u.log[|w.log|..] + v.log[|u.log|..];
    }
  }

  lemma DrainOneServes(w: World, end: nat, e: Entry)
    requires Known(w) && w.armed != [] && w.armed[0].key < end && e in w.armed
    ensures Settled(w, DrainOne(w, end), e)
  {
    var head := w.armed[0];
    var v := DrainOne(w, end);
    DrainOneArmed(w, end);
    if e == head {
      assert v.log[|w.log|..] == [Callback(head.id, head.key, w.now)];
      assert v.log[|w.log|..][0].id == e.id;
    } else {
      assert w.armed == [head] + w.armed[1..];
    }
  }

  lemma {:induction false} DrainServes(w: World, end: nat, e: Entry)
    requires Known(w) && e in w.armed
    ensures Settled(w, Drain(w, end), e)
    decreases Load(w.armed, end)
  {
    hide DrainOne, Load, Settled;
    if w.armed != [] && w.armed[0].key < end {
      var u := DrainOne(w, end);
      DrainOneServes(w, end, e);
      DrainOneProgress(w, end);
      DrainFrame(u, end);
      if e in u.armed {
        DrainServes(u, end, e);
      }
      SettledOn(w, u, Drain(w, end), e);
    } else {
      StaysSettled(w, e);
    }
  }

  lemma StaysSettled(w: World, e: Entry)
    requires e in w.armed
    ensures Settled(w, w, e)
  {
  }

  lemma SampleServes(w: World, t: nat, e: Entry)
    requires Known(w) && e in w.armed
    ensures Settled(w, Sample(w, t), e)
  {
    DrainServes(w.(now := t), EpochEnd(w.now), e);
  }

  lemma ExpireServes(w: World, e: Entry)
    requires Known(w) && e in w.armed
    ensures Settled(w, Expire(w), e)
  {
    var head := w.armed[0];
    var v := Expire(w);
    InsertMembers(w.armed[1..], Entry(head.key + w.timers[head.id].period, head.id));
    if e == head {
      assert v.log[|w.log|..] == [Callback(head.id, head.key, w.now)];
      assert v.log[|w.log|..][0].id == e.id;
    } else {
      assert w.armed == [head] + w.armed[1..];
    }
  }

  lemma ExecuteServes(w: World, c: Command, e: Entry)
    requires c.id in w.timers && e in w.armed
    ensures Settled(w, Execute(w, c), e)
  {
    match c
    case Start(id, stamp) => InsertMembers(w.armed, Entry(stamp + w.timers[id].period, id));
    case Stop(_) =>
    case ChangePeriod(id, p) => InsertMembers(w.armed, Entry(w.now + p, id));
    case Delete(_) =>
  }

  /**
   No expiry is lost: in every step an armed timer stays armed for its expiry or is called
   for it, one-shot or not, unless the step handles a command for that timer.
   */
  lemma NoExpiryLost(w: World, ev: Event, e: Entry)
    requires Inv(w) && Enabled(w, ev) && e in w.armed
    requires ev.Handle? ==> w.queue[0].id != e.id
    ensures Settled(w, Step(w, ev), e)
  {
    hide Sample, Expire, Execute, Settled, Inv;
    InvKnown(w);
    match ev
    case Send(c) => SendServes(w, c, e);
    case Process(t) => ProcessServes(w, t, e);
    case Handle(t) => HandleServes(w, t, e);
  }

  lemma SendServes(w: World, c: Command, e: Entry)
    requires e in w.armed
    ensures Settled(w, Post(w, c), e)
  {
  }

  lemma ProcessServes(w: World, t: nat, e: Entry)
    requires Known(w) && Enabled(w, Process(t)) && e in w.armed
    ensures Settled(w, Step(w, Process(t)), e)
  {
    hide Sample, Expire, Settled;
    var s := Sample(w, t);
    SampleFrame(w, t);
    SampleServes(w, t, e);
    if Epoch(w.now) >= Epoch(t) && s.armed != [] && s.armed[0].key <= t {
      if e in s.armed {
        ExpireServes(s, e);
      }
      ExpireLog(s);
      SettledOn(w, s, Expire(s), e);
    }
  }

  lemma ExpireLog(w: World)
    requires Known(w) && w.armed != []
    ensures w.log <= Expire(w).log
  {
  }

  lemma HandleServes(w: World, t: nat, e: Entry)
    requires Known(w) && Enabled(w, Handle(t)) && e in w.armed && w.queue[0].id != e.id
    ensures Settled(w, Step(w, Handle(t)), e)
  {
    hide Sample, Execute, Settled;
    TakenServes(w, e);
    TakenKnown(w);
    SampleFrame(Taken(w), t);
    SampleServes(Taken(w), t, e);
    var s := Sample(Taken(w), t);
    SameLog(w, s, e);
    if e in s.armed {
      ExecuteServes(s, w.queue[0], e);
    }
    ExecuteLog(s, w.queue[0]);
    SettledOn(w, s, Execute(s, w.queue[0]), e);
  }

  lemma TakenServes(w: World, e: Entry)
    requires w.queue != [] && e in w.armed && w.queue[0].id != e.id
    ensures e in Taken(w).armed
  {
    WithoutMembers(w.armed, w.queue[0].id);
  }

  lemma SameLog(w: World, v: World, e: Entry)
    requires w.queue != [] && Settled(Taken(w), v, e)
    ensures Settled(w, v, e)
  {
  }

  lemma ExecuteLog(w: World, c: Command)
    requires c.id in w.timers
    ensures w.log <= Execute(w, c).log
  {
  }

  // ----- what is due gets called -----

  /**
   A daemon that processes at `t` calls the earliest timer, if it is due by then; one that is
   due only after a list switch waits for the next turn.
   */
  lemma DueHeadIsCalled(w: World, t: nat)
    requires Inv(w) && Enabled(w, Process(t)) && w.armed != [] && w.armed[0].key <= t
    requires Epoch(t) == Epoch(w.now) || w.armed[0].key < EpochEnd(w.now)
    ensures var v := Step(w, Process(t));
            w.log <= v.log && CalledFor(v.log[|w.log|..], w.armed[0])
  {
    var e := w.armed[0];
    var v := Step(w, Process(t));
    if Epoch(t) == Epoch(w.now) {
      assert v.log[|w.log|..] == [Callback(e.id, e.key, t)];
      assert v.log[|w.log|..][0].id == e.id;
    } else {
      var u := w.(now := t);
      var end := EpochEnd(w.now);
      DrainCallsUnfold(u, end);
      DrainFrame(u, end);
      assert v.log[|w.log|..][0] == Callback(e.id, e.key, t);
    }
  }

  /** How many armed timers are due by `t`. */
  function Due(list: seq<Entry>, t: nat): nat {
    if list == [] then 0 else (if list[0].key <= t then 1 else 0) + Due(list[1..], t)
  }

  lemma {:induction false} DueInsert(list: seq<Entry>, x: Entry, t: nat)
    requires t < x.key
    ensures Due(InsertSorted(list, x), t) == Due(list, t)
  {
    if list == [] || x.key < list[0].key {
      assert ([x] + list)[1..] == list;
    } else {
      DueInsert(list[1..], x, t);
    }
  }

  lemma ExpireLowersDue(w: World)
    requires Known(w) && w.armed != [] && w.armed[0].key <= w.now
    ensures Due(Expire(w).armed, w.now) < Due(w.armed, w.now)
  {
    hide InsertSorted;
    var e := w.armed[0];
    if w.now < e.key + w.timers[e.id].period {
      DueInsert(w.armed[1..], Entry(e.key + w.timers[e.id].period, e.id), w.now);
    }
  }

  ghost predicate NothingDue(w: World, t: nat) {
    w.now == t && (w.armed == [] || t < w.armed[0].key)
  }

  /** At the time of the last sample, every turn calls one more timer until nothing is due. */
  lemma {:induction false} CatchesUpNow(w: World) returns (es: seq<Event>)
    requires Inv(w)
    ensures Possible(w, es) && NothingDue(Run(w, es), w.now)
    ensures forall e :: e in es ==> e == Process(w.now)
    decreases Due(w.armed, w.now)
  {
    hide Inv, Expire, Due;
    InvKnown(w);
    if w.armed == [] || w.now < w.armed[0].key {
      es := [];
    } else {
      var e := Process(w.now);
      StepKeepsInv(w, e);
      ExpireLowersDue(w);
      ExpireTime(w);
      var rest := CatchesUpNow(Step(w, e));
      es := [e] + rest;
      assert es[1..] == rest;
    }
  }

  lemma ExpireTime(w: World)
    requires Known(w) && w.armed != []
    ensures Expire(w).now == w.now
  {
  }

  /** A daemon that keeps processing at `t` gets to a state in which nothing is due at `t`. */
  lemma CatchesUp(w: World, t: nat) returns (es: seq<Event>)
    requires Inv(w) && Enabled(w, Process(t))
    ensures Possible(w, es) && NothingDue(Run(w, es), t)
    ensures forall e :: e in es ==> e == Process(t)
  {
    hide Inv, Step;
    InvKnown(w);
    StepKeepsInv(w, Process(t));
    ProcessTime(w, t);
    var rest := CatchesUpNow(Step(w, Process(t)));
    es := [Process(t)] + rest;
    assert es[1..] == rest;
  }

  lemma ProcessTime(w: World, t: nat)
    requires Inv(w) && Enabled(w, Process(t)) && Known(w)
    ensures Step(w, Process(t)).now == t
  {
    hide Drain;
    SampleKeepsInv(w, t);
    if Sample(w, t).armed != [] {
      InvKnown(Sample(w, t));
      ExpireTime(Sample(w, t));
    }
  }

  // ----- the world as one timer sees it -----

  /** Where the timer is armed, its queued commands and its calls are the same. */
  ghost predicate SameView(w: World, v: World, id: nat) {
    && KeysOf(v.armed, id) == KeysOf(w.armed, id)
    && CommandsOf(v.queue, id) == CommandsOf(w.queue, id)
    && CallsOf(v.log, id) == CallsOf(w.log, id)
  }

  lemma SendView(w: World, c: Command, id: nat)
    requires c.id != id
    ensures SameView(w, Post(w, c), id)
  {
    hide KeysOf, CommandsOf, CallsOf;
    CommandsOfAppend(w.queue, c, id);
  }

  lemma DrainOneView(w: World, end: nat, id: nat)
    requires Known(w) && w.armed != [] && w.armed[0].id != id
    ensures SameView(w, DrainOne(w, end), id)
  {
    hide KeysOf, CommandsOf, CallsOf, InsertSorted;
    var e := w.armed[0];
    HeadKeys(w, id, e.key + w.timers[e.id].period);
    CommandsOfAppend(w.queue, Start(e.id, e.key), id);
    CallsOfAppend(w.log, Callback(e.id, e.key, w.now), id);
  }

  lemma ExpireView(w: World, id: nat)
    requires Known(w) && w.armed != [] && w.armed[0].id != id
    ensures SameView(w, Expire(w), id)
  {
    hide KeysOf, CommandsOf, CallsOf, InsertSorted;
    var e := w.armed[0];
    HeadKeys(w, id, e.key + w.timers[e.id].period);
    CommandsOfAppend(w.queue, Start(e.id, e.key), id);
    CallsOfAppend(w.log, Callback(e.id, e.key, w.now), id);
  }

  lemma TakenView(w: World, id: nat)
    requires w.queue != [] && w.queue[0].id != id
    ensures SameView(w, Taken(w), id)
  {
    hide KeysOf, CommandsOf, CallsOf, Without;
    assert w.queue == [w.queue[0]] + w.queue[1..];
    CommandsOfCons(w.queue[0], w.queue[1..], id);
    KeysOfWithout(w.armed, id, w.queue[0].id);
  }

  /** A command for another timer. */
  lemma ExecuteView(w: World, c: Command, id: nat)
    requires c.id in w.timers && c.id != id
    ensures SameView(w, Execute(w, c), id)
    ensures id in w.timers ==> id in Execute(w, c).timers && Execute(w, c).timers[id] == w.timers[id]
  {
    hide KeysOf, CommandsOf, CallsOf, InsertSorted;
    match c
    case Start(other, stamp) =>
      var due := stamp + w.timers[other].period;
      KeysOfInsert(w.armed, Entry(due, other), id);
      CommandsOfAppend(w.queue, Start(other, due), id);
      CallsOfAppend(w.log, Callback(other, due, w.now), id);
    case Stop(_) =>
    case ChangePeriod(other, p) => KeysOfInsert(w.armed, Entry(w.now + p, other), id);
    case Delete(_) =>
  }

  /** A sample does nothing to a timer that is not armed. */
  lemma SampleView(w: World, t: nat, id: nat)
    requires Known(w) && KeysOf(w.armed, id) == []
    ensures SameView(w, Sample(w, t), id)
  {
    hide KeysOf, CommandsOf, CallsOf, Drain;
    DrainIgnores(w.(now := t), EpochEnd(w.now), id);
  }

  // ----- what a command does -----

  /** Before a command is executed its timer is in no list, and was not called. */
  lemma SampledOwn(w: World, t: nat)
    requires Known(w) && Enabled(w, Handle(t))
    ensures Known(Taken(w)) && Known(Sample(Taken(w), t))
    ensures var id := w.queue[0].id;
            var s := Sample(Taken(w), t);
            && s.timers == w.timers && s.now == t && KeysOf(s.armed, id) == []
            && CommandsOf(s.queue, id) == CommandsOf(w.queue[1..], id) && CallsOf(s.log, id) == CallsOf(w.log, id)
  {
    hide KeysOf, CommandsOf, CallsOf, Drain;
    var id := w.queue[0].id;
    TakenKnown(w);
    KeysOfWithout(w.armed, id, id);
    SampleView(Taken(w), t, id);
    SampleFrame(Taken(w), t);
    DrainFrame(Taken(w).(now := t), EpochEnd(w.now));
  }

  /** A timer whose period is changed at `t` is next due a new period after `t`. */
  lemma PeriodIsChanged(w: World, t: nat)
    requires Known(w) && Enabled(w, Handle(t)) && w.queue[0].ChangePeriod?
    ensures var c := w.queue[0];
            var v := Step(w, Handle(t));
            && KeysOf(v.armed, c.id) == [t + c.period] && v.now == t
            && v.timers == w.timers[c.id := Timer(c.period, w.timers[c.id].autoReload)]
            && CommandsOf(v.queue, c.id) == CommandsOf(w.queue[1..], c.id) && CallsOf(v.log, c.id) == CallsOf(w.log, c.id)
  {
    hide KeysOf, CommandsOf, CallsOf, InsertSorted, Sample, Taken;
    SampledOwn(w, t);
    KeysOfInsert(Sample(Taken(w), t).armed, Entry(t + w.queue[0].period, w.queue[0].id), w.queue[0].id);
  }

  /** A timer that is stopped or deleted is in no list and was not called; a deleted one is gone. */
  lemma StoppedIsUnarmed(w: World, t: nat)
    requires Known(w) && Enabled(w, Handle(t)) && (w.queue[0].Stop? || w.queue[0].Delete?)
    ensures var c := w.queue[0];
            var v := Step(w, Handle(t));
            && KeysOf(v.armed, c.id) == [] && v.now == t
            && v.timers == (if c.Stop? then w.timers else w.timers - {c.id})
            && CommandsOf(v.queue, c.id) == CommandsOf(w.queue[1..], c.id) && CallsOf(v.log, c.id) == CallsOf(w.log, c.id)
  {
    hide KeysOf, CommandsOf, CallsOf, Sample, Taken;
    SampledOwn(w, t);
  }

  /** A timer started at `c.stamp` is armed for one period later, or called for it when that has passed. */
  lemma StartedIsArmed(w: World, t: nat)
    requires Known(w) && Enabled(w, Handle(t)) && w.queue[0].Start?
    ensures var c := w.queue[0];
            var timer := w.timers[c.id];
            var due := c.stamp + timer.period;
            var v := Step(w, Handle(t));
            && KeysOf(v.armed, c.id) == (if t < due then [due] else []) && v.now == t && v.timers == w.timers
            && CallsOf(v.log, c.id) == CallsOf(w.log, c.id) + (if t < due then [] else [Callback(c.id, due, t)])
            && CommandsOf(v.queue, c.id)
               == CommandsOf(w.queue[1..], c.id) + (if t < due || !timer.autoReload then [] else [Start(c.id, due)])
  {
    hide KeysOf, CommandsOf, CallsOf, InsertSorted, Sample, Taken;
    SampledOwn(w, t);
    var s := Sample(Taken(w), t);
    var id := w.queue[0].id;
    var due := w.queue[0].stamp + w.timers[id].period;
    KeysOfInsert(s.armed, Entry(due, id), id);
    CommandsOfAppend(s.queue, Start(id, due), id);
    CallsOfAppend(s.log, Callback(id, due, t), id);
  }

  // ----- runs of one timer -----

  /** The timer is in no list and none of its commands is queued. */
  ghost predicate Idle(w: World, id: nat) {
    KeysOf(w.armed, id) == [] && CommandsOf(w.queue, id) == []
  }

  lemma HeadCommand(w: World, id: nat)
    requires w.queue != []
    ensures w.queue[0].id == id ==>
              CommandsOf(w.queue, id) == [w.queue[0]] + CommandsOf(w.queue[1..], id) && CommandsOf(w.queue, id) != []
  {
  }

  lemma IdleStep(w: World, ev: Event, id: nat)
    requires Inv(w) && Enabled(w, ev) && Idle(w, id) && (ev.Send? ==> ev.c.id != id)
    ensures SameView(w, Step(w, ev), id)
  {
    hide KeysOf, CommandsOf, CallsOf, Sample, Expire, Execute, Without, Inv;
    InvKnown(w);
    match ev
    case Send(c) => SendView(w, c, id);
    case Process(t) =>
      var s := Sample(w, t);
      SampleFrame(w, t);
      SampleView(w, t, id);
      if s.armed != [] {
        HeadHasKey(s.armed, id);
        ExpireView(s, id);
      }
    case Handle(t) =>
      HeadCommand(w, id);
      TakenView(w, id);
      TakenKnown(w);
      SampleView(Taken(w), t, id);
      SampleFrame(Taken(w), t);
      ExecuteView(Sample(Taken(w), t), w.queue[0], id);
  }

  /** A timer that is stopped, or was never started, is not called in any run that leaves it alone. */
  lemma {:induction false} IdleIsNotCalled(w: World, es: seq<Event>, id: nat)
    requires Inv(w) && Possible(w, es) && Idle(w, id) && LeftAlone(es, id)
    ensures SameView(w, Run(w, es), id)
    decreases |es|
  {
    hide Inv, Step, Enabled, KeysOf, CommandsOf, CallsOf;
    InvKnown(w);
    if es != [] {
      assert es[0] in es;
      StepKeepsInv(w, es[0]);
      IdleStep(w, es[0], id);
      IdleIsNotCalled(Step(w, es[0]), es[1..], id);
    }
  }

  /** Of the timer's calls after the first `skip`: its start is queued, or it is armed for `due`, or it was called for that. */
  ghost predicate Once(w: World, id: nat, start: nat, due: nat, skip: nat) {
    && id in w.timers && !w.timers[id].autoReload && skip <= |CallsOf(w.log, id)|
    && var keys := KeysOf(w.armed, id);
       var commands := CommandsOf(w.queue, id);
       var calls := CallsOf(w.log, id)[skip..];
       || (keys == [] && commands == [Start(id, start)] && calls == [] && due == start + w.timers[id].period)
       || (keys == [due] && commands == [] && calls == [])
       || (keys == [] && commands == [] && |calls| == 1 && calls[0].due == due)
  }

  lemma OnceView(w: World, v: World, id: nat, start: nat, due: nat, skip: nat)
    requires Once(w, id, start, due, skip) && SameView(w, v, id)
    requires id in v.timers && v.timers[id] == w.timers[id]
    ensures Once(v, id, start, due, skip)
  {
    hide KeysOf, CommandsOf, CallsOf;
  }

  /** The timer is at the head of the list: it is armed for `due`, and its call is its last. */
  lemma HeadOnce(w: World, v: World, id: nat, start: nat, due: nat, skip: nat)
    requires Once(w, id, start, due, skip) && w.armed != [] && w.armed[0].id == id && v.timers == w.timers
    requires v.armed == w.armed[1..] && v.queue == w.queue
    requires v.log == w.log + [Callback(id, w.armed[0].key, w.now)]
    ensures Once(v, id, start, due, skip)
  {
    hide KeysOf, CommandsOf, CallsOf;
    HeadHasKey(w.armed, id);
    HeadKeys(w, id, 0);
    CallsOfAppend(w.log, Callback(id, w.armed[0].key, w.now), id);
    assert CallsOf(v.log, id)[skip..] == CallsOf(w.log, id)[skip..] + [Callback(id, w.armed[0].key, w.now)];
  }

  lemma DrainOneOnce(w: World, end: nat, id: nat, start: nat, due: nat, skip: nat)
    requires Known(w) && w.armed != [] && Once(w, id, start, due, skip)
    ensures Once(DrainOne(w, end), id, start, due, skip)
  {
    hide Once, SameView;
    OnceTimer(w, id, start, due, skip);
    if w.armed[0].id == id {
      HeadOnce(w, DrainOne(w, end), id, start, due, skip);
    } else {
      DrainOneView(w, end, id);
      OnceView(w, DrainOne(w, end), id, start, due, skip);
    }
  }

  lemma OnceTimer(w: World, id: nat, start: nat, due: nat, skip: nat)
    requires Once(w, id, start, due, skip)
    ensures id in w.timers && !w.timers[id].autoReload
  {
  }

  lemma {:induction false} DrainOnce(w: World, end: nat, id: nat, start: nat, due: nat, skip: nat)
    requires Known(w) && Once(w, id, start, due, skip)
    ensures Once(Drain(w, end), id, start, due, skip)
    decreases Load(w.armed, end)
  {
    hide Once, DrainOne, Load;
    if w.armed != [] && w.armed[0].key < end {
      DrainOneProgress(w, end);
      DrainOneOnce(w, end, id, start, due, skip);
      DrainOnce(DrainOne(w, end), end, id, start, due, skip);
    }
  }

  lemma SampleOnce(w: World, t: nat, id: nat, start: nat, due: nat, skip: nat)
    requires Known(w) && Once(w, id, start, due, skip)
    ensures Once(Sample(w, t), id, start, due, skip)
  {
    hide KeysOf, CommandsOf, CallsOf;
    DrainOnce(w.(now := t), EpochEnd(w.now), id, start, due, skip);
  }

  lemma ExpireOnce(w: World, id: nat, start: nat, due: nat, skip: nat)
    requires Known(w) && w.armed != [] && Once(w, id, start, due, skip)
    ensures Once(Expire(w), id, start, due, skip)
  {
    hide Once, SameView;
    OnceTimer(w, id, start, due, skip);
    if w.armed[0].id == id {
      HeadOnce(w, Expire(w), id, start, due, skip);
    } else {
      ExpireView(w, id);
      OnceView(w, Expire(w), id, start, due, skip);
    }
  }

  lemma HandleOwnOnce(w: World, t: nat, id: nat, start: nat, due: nat, skip: nat)
    requires Known(w) && Enabled(w, Handle(t)) && Once(w, id, start, due, skip) && w.queue[0].id == id
    ensures Once(Step(w, Handle(t)), id, start, due, skip)
  {
    hide KeysOf, CommandsOf, CallsOf, Step;
    HeadCommand(w, id);
    assert ([w.queue[0]] + CommandsOf(w.queue[1..], id))[0] == w.queue[0];
    StartedIsArmed(w, t);
    var v := Step(w, Handle(t));
    assert due <= t ==> CallsOf(v.log, id)[skip..] == CallsOf(w.log, id)[skip..] + [Callback(id, due, t)];
  }

  lemma HandleOtherOnce(w: World, t: nat, id: nat, start: nat, due: nat, skip: nat)
    requires Known(w) && Enabled(w, Handle(t)) && Once(w, id, start, due, skip) && w.queue[0].id != id
    ensures Once(Step(w, Handle(t)), id, start, due, skip)
  {
    hide Once, SameView, Sample, Execute, Without;
    OnceTimer(w, id, start, due, skip);
    TakenView(w, id);
    OnceView(w, Taken(w), id, start, due, skip);
    TakenKnown(w);
    SampleFrame(Taken(w), t);
    SampleOnce(Taken(w), t, id, start, due, skip);
    var s := Sample(Taken(w), t);
    ExecuteView(s, w.queue[0], id);
    OnceView(s, Execute(s, w.queue[0]), id, start, due, skip);
  }

  lemma StepOnce(w: World, ev: Event, id: nat, start: nat, due: nat, skip: nat)
    requires Inv(w) && Enabled(w, ev) && Once(w, id, start, due, skip) && (ev.Send? ==> ev.c.id != id)
    ensures Once(Step(w, ev), id, start, due, skip)
  {
    hide Inv, Once, SameView, Sample, Expire, Execute;
    InvKnown(w);
    OnceTimer(w, id, start, due, skip);
    match ev
    case Send(c) =>
      SendView(w, c, id);
      OnceView(w, Post(w, c), id, start, due, skip);
    case Process(t) =>
      SampleFrame(w, t);
      SampleOnce(w, t, id, start, due, skip);
      if Sample(w, t).armed != [] {
        ExpireOnce(Sample(w, t), id, start, due, skip);
      }
    case Handle(t) =>
      if w.queue[0].id == id {
        HandleOwnOnce(w, t, id, start, due, skip);
      } else {
        HandleOtherOnce(w, t, id, start, due, skip);
      }
  }

  lemma {:induction false} RunOnce(w: World, es: seq<Event>, id: nat, start: nat, due: nat, skip: nat)
    requires Inv(w) && Possible(w, es) && Once(w, id, start, due, skip) && LeftAlone(es, id)
    ensures Once(Run(w, es), id, start, due, skip)
    decreases |es|
  {
    hide Inv, Once, Step, Enabled;
    InvKnown(w);
    if es != [] {
      assert es[0] in es;
      StepKeepsInv(w, es[0]);
      StepOnce(w, es[0], id, start, due, skip);
      RunOnce(Step(w, es[0]), es[1..], id, start, due, skip);
    }
  }

  /**
   Since the first `skip` calls, the timer was called at most once, for `due` and not early;
   when the daemon has caught up, exactly if `due` has passed.
   */
  ghost predicate CalledOnce(v: World, id: nat, due: nat, skip: nat) {
    && skip <= |CallsOf(v.log, id)|
    && var calls := CallsOf(v.log, id)[skip..];
    && |calls| <= 1
    && (forall c :: c in calls ==> c.due == due <= c.at <= v.now)
    && (CaughtUp(v, id) ==> (|calls| == 1 <==> due <= v.now))
  }

  lemma OnceIsCalledOnce(v: World, id: nat, start: nat, due: nat, skip: nat)
    requires Inv(v) && Once(v, id, start, due, skip)
    ensures CalledOnce(v, id, due, skip)
  {
    hide CallsOf, KeysOf, CommandsOf;
    var calls := CallsOf(v.log, id)[skip..];
    CallsOfMembers(v.log, id);
    if calls != [] {
      assert calls[0] in CallsOf(v.log, id);
    }
    if KeysOf(v.armed, id) == [due] {
      KeysOfMember(v.armed, Entry(due, id));
    }
  }

  /** The timer is known, one-shot, not armed, and its start at `start` is the only command queued for it. */
  ghost predicate AboutToStartOnce(w: World, id: nat, start: nat) {
    && id in w.timers && !w.timers[id].autoReload
    && KeysOf(w.armed, id) == [] && CommandsOf(w.queue, id) == [Start(id, start)]
  }

  /** A one-shot timer is called once, one period after its start, in every run. */
  lemma OneShotIsCalledOnce(w: World, es: seq<Event>, id: nat, start: nat)
    requires Inv(w) && Possible(w, es) && AboutToStartOnce(w, id, start) && LeftAlone(es, id)
    ensures CalledOnce(Run(w, es), id, start + w.timers[id].period, |CallsOf(w.log, id)|)
  {
    hide Inv, Run, Possible, Once, CalledOnce;
    var due := start + w.timers[id].period;
    var skip := |CallsOf(w.log, id)|;
    StartIsOnce(w, id, start);
    RunOnce(w, es, id, start, due, skip);
    RunKeepsInv(w, es);
    OnceIsCalledOnce(Run(w, es), id, start, due, skip);
  }

  lemma StartIsOnce(w: World, id: nat, start: nat)
    requires AboutToStartOnce(w, id, start)
    ensures Once(w, id, start, start + w.timers[id].period, |CallsOf(w.log, id)|)
  {
    hide CallsOf, KeysOf, CommandsOf;
    assert CallsOf(w.log, id)[|CallsOf(w.log, id)|..] == [];
  }

  /**
   A change of period handled at `t` starts the timer's schedule anew from `t` with the new
   period, in every run that leaves it alone from then on.
   */
  lemma PeriodChangeRestarts(w: World, t: nat, es: seq<Event>)
    requires Inv(w) && Enabled(w, Handle(t)) && w.queue[0].ChangePeriod?
    requires CommandsOf(w.queue, w.queue[0].id) == [w.queue[0]]
    requires Known(w) && Inv(Step(w, Handle(t))) && Possible(Step(w, Handle(t)), es) && LeftAlone(es, w.queue[0].id)
    ensures var c := w.queue[0];
            var v := Run(Step(w, Handle(t)), es);
            var skip := |CallsOf(w.log, c.id)|;
            if w.timers[c.id].autoReload then Punctual(v, c.id, t, c.period, skip)
            else CalledOnce(v, c.id, t + c.period, skip)
  {
    hide Inv, Run, Possible, Once, CalledOnce, Tracked, Begun, Punctual, Step, CommandsOf, KeysOf, CallsOf;
    var c := w.queue[0];
    var v := Step(w, Handle(t));
    var skip := |CallsOf(w.log, c.id)|;
    ChangedSchedule(w, t);
    RunKeepsInv(v, es);
    if w.timers[c.id].autoReload {
      RunTracked(v, es, c.id, t, skip);
      TrackedIsPunctual(Run(v, es), c.id, t, skip);
    } else {
      RunOnce(v, es, c.id, t, t + c.period, skip);
      OnceIsCalledOnce(Run(v, es), c.id, t, t + c.period, skip);
    }
  }

  lemma ChangedSchedule(w: World, t: nat)
    requires Known(w) && Enabled(w, Handle(t)) && w.queue[0].ChangePeriod?
    requires CommandsOf(w.queue, w.queue[0].id) == [w.queue[0]]
    ensures var c := w.queue[0];
            var v := Step(w, Handle(t));
            var skip := |CallsOf(w.log, c.id)|;
            && c.id in v.timers && v.timers[c.id].period == c.period
            && (if w.timers[c.id].autoReload then Tracked(v, c.id, t, skip) && Begun(v, c.id, t)
                else Once(v, c.id, t, t + c.period, skip))
  {
    hide CommandsOf, KeysOf, CallsOf, Step;
    var c := w.queue[0];
    HeadCommand(w, c.id);
    PeriodIsChanged(w, t);
    var v := Step(w, Handle(t));
    assert CallsOf(v.log, c.id)[|CallsOf(w.log, c.id)|..] == [];
  }

  /** A timer that was stopped or deleted at `t` is not called again in any run that leaves it alone. */
  lemma StoppedStaysSilent(w: World, t: nat, es: seq<Event>)
    requires Inv(w) && Known(w) && Enabled(w, Handle(t)) && (w.queue[0].Stop? || w.queue[0].Delete?)
    requires CommandsOf(w.queue, w.queue[0].id) == [w.queue[0]]
    requires Inv(Step(w, Handle(t))) && Possible(Step(w, Handle(t)), es) && LeftAlone(es, w.queue[0].id)
    ensures var id := w.queue[0].id;
            var v := Run(Step(w, Handle(t)), es);
            KeysOf(v.armed, id) == [] && CallsOf(v.log, id) == CallsOf(w.log, id)
  {
    hide Inv, Run, Possible, Step, CommandsOf, KeysOf, CallsOf;
    var id := w.queue[0].id;
    HeadCommand(w, id);
    StoppedIsUnarmed(w, t);
    IdleIsNotCalled(Step(w, Handle(t)), es, id);
  }
}
