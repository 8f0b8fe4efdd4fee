/**
 A message buffer with one writer and one reader that take no lock (stream_buffer.c).  A
 step is a read of an index, the copy of one byte, or the publication of an index; the
 writer publishes the length of a message before its payload.  The reader's buffer is
 assumed to be large enough for every message.
 */
module MessageChannel {
  import opened Basics
  import opened StreamBuffer

  /** prvWriteMessageToBuffer: copying byte `i` of the length or of the payload behind the published head. */
  datatype Writer = Resting | Prefix(m: seq<Byte>, i: nat) | Payload(m: seq<Byte>, i: nat)

  /** prvReadMessageFromBuffer: the bytes `got` so far; `available` is what is left of the snapshot. */
  datatype Reader = Waiting | Length(available: nat, got: seq<Byte>) | Data(available: nat, next: nat, got: seq<Byte>)

  datatype State = State(ring: seq<Byte>, head: nat, tail: nat, writer: Writer, reader: Reader,
                         sent: seq<seq<Byte>>, received: seq<seq<Byte>>)

  datatype Step = Send(m: seq<Byte>) | Store | Publish | Receive | Load | Release

  function Outgoing(w: Writer): seq<Byte>
    requires !w.Resting? && |w.m| < SIZE_LIMIT
  {
    if w.Prefix? then LengthBytes(|w.m|) else w.m
  }

  /** How many bytes the reader takes before it moves the tail. */
  function Wanted(r: Reader): nat
    requires !r.Waiting?
  {
    if r.Length? then LENGTH_BYTES else Min(r.available, r.next)
  }

  ghost predicate InRange(s: State) {
    && s.head < |s.ring| && s.tail < |s.ring|
    && (!s.writer.Resting? ==>
          Sendable(s.writer.m) && LENGTH_BYTES + |s.writer.m| < |s.ring| && s.writer.i <= |Outgoing(s.writer)|)
    && (!s.reader.Waiting? ==> s.reader.available < |s.ring| && |s.reader.got| <= Wanted(s.reader))
    && (s.reader.Length? ==> LENGTH_BYTES < s.reader.available)
  }

  ghost predicate Enabled(s: State, step: Step)
    requires InRange(s)
  {
    match step
    case Send(m) => s.writer.Resting? && Sendable(m)
    case Store => !s.writer.Resting? && s.writer.i < |Outgoing(s.writer)|
    case Publish => !s.writer.Resting? && s.writer.i == |Outgoing(s.writer)|
    case Receive => s.reader.Waiting?
    case Load => !s.reader.Waiting? && |s.reader.got| < Wanted(s.reader)
    case Release => !s.reader.Waiting? && |s.reader.got| == Wanted(s.reader)
  }

  function Space(s: State): nat
    requires s.head < |s.ring| && s.tail < |s.ring|
  {
    |s.ring| - 1 - Distance(s.tail, s.head, |s.ring|)
  }

  ghost function Apply(s: State, step: Step): State
    requires InRange(s) && Enabled(s, step)
  {
    var n := |s.ring|;
    match step
    case Send(m) => if Space(s) >= |m| + LENGTH_BYTES then s.(writer := Prefix(m, 0)) else s
    case Store =>
      s.(ring := s.ring[At(s.head, s.writer.i, n) := Outgoing(s.writer)[s.writer.i]],
         writer := s.writer.(i := s.writer.i + 1))
    case Publish =>
      var r := s.(head := At(s.head, s.writer.i, n));
      if s.writer.Prefix? then r.(writer := Payload(s.writer.m, 0))
      else r.(writer := Resting, sent := s.sent + [s.writer.m])
    case Receive =>
      var available := Distance(s.tail, s.head, n);
      if available > LENGTH_BYTES then s.(reader := Length(available, [])) else s
    case Load =>
      s.(reader := s.reader.(got := s.reader.got + [s.ring[At(s.tail, |s.reader.got|, n)]]))
    case Release =>
      var r := s.(tail := At(s.tail, |s.reader.got|, n));
      if s.reader.Length? then r.(reader := Data(s.reader.available - LENGTH_BYTES, LengthOf(s.reader.got), []))
      else r.(reader := Waiting, received := s.received + [s.reader.got])
  }

  // ----- what every interleaving keeps -----

  /** Messages whose payload is published and that the reader has not returned. */
  function Pending(s: State): seq<seq<Byte>>
    requires |s.received| <= |s.sent|
  {
    s.sent[|s.received|..]
  }

  /** The published length of a message whose payload is still being copied. */
  function Trailer(w: Writer): seq<Byte>
    requires !w.Resting? ==> |w.m| < SIZE_LIMIT
  {
    if w.Payload? then LengthBytes(|w.m|) else []
  }

  /** What must lie between the tail and the head. */
  ghost function Published(s: State): seq<Byte>
    requires InRange(s) && |s.received| <= |s.sent| && (forall m :: m in s.sent ==> Sendable(m))
    requires s.reader.Data? ==> Pending(s) != []
  {
    PendingSendable(s);
    Body(Pending(s), s.reader.Data?) + Trailer(s.writer)
  }

  lemma PendingSendable(s: State)
    requires |s.received| <= |s.sent| && (forall m :: m in s.sent ==> Sendable(m))
    ensures forall m :: m in Pending(s) ==> Sendable(m)
    ensures Pending(s) != [] ==> Sendable(Pending(s)[0]) && forall m :: m in Pending(s)[1..] ==> Sendable(m)
  {
    forall m | m in Pending(s) ensures Sendable(m) {
      assert m in s.sent;
    }
    if Pending(s) != [] {
      assert Pending(s)[0] in Pending(s);
    }
  }

  /** What the writer has stored behind the head, and that the rest still fits. */
  ghost predicate WriterOk(s: State)
    requires InRange(s)
  {
    !s.writer.Resting? ==>
      && (forall j :: 0 <= j < s.writer.i ==> s.ring[At(s.head, j, |s.ring|)] == Outgoing(s.writer)[j])
      && Distance(s.tail, s.head, |s.ring|) + |s.writer.m| + (if s.writer.Prefix? then LENGTH_BYTES else 0) < |s.ring|
  }

  /** What the reader has loaded, and that its snapshot covers the message in front. */
  ghost predicate ReaderOk(s: State)
    requires InRange(s) && |s.received| <= |s.sent| && (forall m :: m in s.sent ==> Sendable(m))
  {
    !s.reader.Waiting? ==>
      && Pending(s) != []
      && s.reader.available <= Distance(s.tail, s.head, |s.ring|)
      && (s.reader.Data? ==> s.reader.next == |Pending(s)[0]| <= s.reader.available)
      && (s.reader.Length? ==> LENGTH_BYTES + |Pending(s)[0]| <= s.reader.available)
      && s.reader.got <= Published(s)
  }

  ghost predicate Inv(s: State) {
    && InRange(s)
    && s.received <= s.sent
    && (forall m :: m in s.sent ==> Sendable(m))
    && WriterOk(s) && ReaderOk(s)
    && (s.reader.Data? ==> Pending(s) != [])
    && Between(s.ring, s.tail, s.head) == Published(s)
  }

  lemma PublishedLength(s: State)
    requires Inv(s)
    ensures |Published(s)| == Distance(s.tail, s.head, |s.ring|)
  {
  }

  lemma StoreKeeps(s: State)
    requires Inv(s) && Enabled(s, Store)
    ensures Inv(Apply(s, Store))
  {
    hide Published, Between, At, Distance;
    var v := Apply(s, Store);
    var i := s.writer.i;
    StoresBehind(s.ring, s.tail, s.head, i, Outgoing(s.writer)[i]);
    SamePublished(s, v);
  }

  /** A byte stored behind the head, and behind what was stored there before, changes neither. */
  lemma StoresBehind(ring: seq<Byte>, tail: nat, head: nat, i: nat, b: Byte)
    requires tail < |ring| && head < |ring| && Distance(tail, head, |ring|) + i < |ring|
    ensures At(head, i, |ring|) < |ring|
    ensures var now := ring[At(head, i, |ring|) := b];
            && Between(now, tail, head) == Between(ring, tail, head)
            && now[At(head, i, |ring|)] == b
            && forall j :: 0 <= j < i ==> At(head, j, |ring|) < |ring| && now[At(head, j, |ring|)] == ring[At(head, j, |ring|)]
  {
    var n := |ring|;
    forall j | 0 <= j < Distance(tail, head, n) ensures At(tail, j, n) != At(head, i, n) {
    }
  }

  lemma SamePublished(s: State, v: State)
    requires InRange(s) && |s.received| <= |s.sent| && (forall m :: m in s.sent ==> Sendable(m))
    requires s.reader.Data? ==> Pending(s) != []
    requires InRange(v) && v.received == s.received && v.sent == s.sent && v.reader.Data? == s.reader.Data?
    requires Trailer(v.writer) == Trailer(s.writer)
    ensures Published(v) == Published(s)
  {
  }

  /** Publishing the head lengthens the ring's contents by what was stored. */
  lemma PublishBetween(s: State)
    requires Inv(s) && Enabled(s, Publish)
    ensures var v := Apply(s, Publish);
            && v.head < |s.ring|
            && Between(s.ring, s.tail, v.head) == Between(s.ring, s.tail, s.head) + Outgoing(s.writer)
            && Distance(s.tail, v.head, |s.ring|) == Distance(s.tail, s.head, |s.ring|) + |Outgoing(s.writer)|
  {
    hide Published;
    WriteExtends(s.ring, s.ring, s.tail, s.head, Outgoing(s.writer));
  }

  lemma PublishPrefixKeeps(s: State)
    requires Inv(s) && Enabled(s, Publish) && s.writer.Prefix?
    ensures Inv(Apply(s, Publish))
  {
    hide Between, Frames, Distance, LengthBytes, Body;
    PublishBetween(s);
    var v := Apply(s, Publish);
    assert Published(v) == Published(s) + LengthBytes(|s.writer.m|);
  }

  /** The published bytes but for the trailer, as the reader's progress has it. */
  ghost function Body(ms: seq<seq<Byte>>, lengthRead: bool): seq<Byte>
    requires (forall m :: m in ms ==> Sendable(m)) && (lengthRead ==> ms != [])
  {
    assert lengthRead ==> forall m :: m in ms[1..] ==> m in ms;
    if lengthRead then ms[0] + Frames(ms[1..]) else Frames(ms)
  }

  lemma BodyAppend(ms: seq<seq<Byte>>, lengthRead: bool, m: seq<Byte>)
    requires (forall x :: x in ms ==> Sendable(x)) && (lengthRead ==> ms != []) && Sendable(m)
    ensures forall x :: x in ms + [m] ==> Sendable(x)
    ensures Body(ms + [m], lengthRead) == Body(ms, lengthRead) + LengthBytes(|m|) + m
  {
    if lengthRead {
      assert forall x :: x in ms[1..] ==> x in ms;
      FramesAppend(ms[1..], m);
      assert (ms + [m])[1..] == ms[1..] + [m];
    } else {
      FramesAppend(ms, m);
    }
  }

  /** The payload completes the frame whose length was published before. */
  lemma PayloadPublished(s: State)
    requires Inv(s) && Enabled(s, Publish) && s.writer.Payload?
    ensures var v := Apply(s, Publish);
            && InRange(v) && s.received <= v.sent && (forall m :: m in v.sent ==> Sendable(m))
            && Pending(v) == Pending(s) + [s.writer.m]
            && Published(v) == Published(s) + s.writer.m
  {
    hide Between, Frames, Body;
    PublishBetween(s);
    PendingSendable(s);
    assert Pending(Apply(s, Publish)) == Pending(s) + [s.writer.m];
    BodyAppend(Pending(s), s.reader.Data?, s.writer.m);
  }

  lemma PublishPayloadKeeps(s: State)
    requires Inv(s) && Enabled(s, Publish) && s.writer.Payload?
    ensures Inv(Apply(s, Publish))
  {
    PublishBetween(s);
    PayloadPublished(s);
    hide Published, Between;
  }

  /** A snapshot of more than the bytes of a length covers a whole message. */
  lemma ReceiveKeeps(s: State)
    requires Inv(s) && Enabled(s, Receive)
    ensures Inv(Apply(s, Receive))
  {
    hide Between, Frames;
    PendingSendable(s);
    FramesFront(Pending(s));
    PublishedLength(s);
    SamePublished(s, Apply(s, Receive));
  }

  lemma SendKeeps(s: State, m: seq<Byte>)
    requires Inv(s) && Enabled(s, Send(m))
    ensures Inv(Apply(s, Send(m)))
  {
    hide Between, Published;
    SamePublished(s, Apply(s, Send(m)));
  }

  lemma LoadKeeps(s: State)
    requires Inv(s) && Enabled(s, Load)
    ensures Inv(Apply(s, Load))
  {
    hide Published;
    PublishedLength(s);
    var v := Apply(s, Load);
    SamePublished(s, v);
    var k := |s.reader.got|;
    assert Between(s.ring, s.tail, s.head)[k] == s.ring[At(s.tail, k, |s.ring|)];
  }

  /** Moving the tail drops what was loaded from the front of the contents. */
  lemma ReleaseBetween(s: State)
    requires Inv(s) && Enabled(s, Release)
    ensures var v := Apply(s, Release);
            && v.tail < |s.ring|
            && s.reader.got + Between(s.ring, v.tail, s.head) == Published(s)
            && Distance(v.tail, s.head, |s.ring|) == Distance(s.tail, s.head, |s.ring|) - |s.reader.got|
  {
    hide Published;
    PublishedLength(s);
    ReadShortens(s.ring, s.tail, s.head, |s.reader.got|);
  }

  /** The length is read: it is that of the first pending message. */
  lemma ReleaseLengthKeeps(s: State)
    requires Inv(s) && Enabled(s, Release) && s.reader.Length?
    ensures Inv(Apply(s, Release))
  {
    hide Between, Frames, Distance, LengthBytes, LengthOf;
    ReleaseBetween(s);
    PendingSendable(s);
    FramesFront(Pending(s));
    var v := Apply(s, Release);
    var m := Pending(s)[0];
    var rest := Frames(Pending(s)[1..]) + Trailer(s.writer);
    assert Frame(m) + Frames(Pending(s)[1..]) + Trailer(s.writer) == Frame(m) + rest;
    SplitFrame(m, s.reader.got, Between(s.ring, v.tail, s.head), rest);
    assert m + Frames(Pending(s)[1..]) + Trailer(s.writer) == m + rest;
  }

  /** The payload is read: the first pending message is received, whole. */
  lemma ReleaseDataKeeps(s: State)
    requires Inv(s) && Enabled(s, Release) && s.reader.Data?
    ensures Inv(Apply(s, Release))
  {
    hide Between, Frames, Distance, LengthBytes, LengthOf;
    ReleaseBetween(s);
    PendingSendable(s);
    var v := Apply(s, Release);
    var m := Pending(s)[0];
    var rest := Frames(Pending(s)[1..]) + Trailer(s.writer);
    assert m + Frames(Pending(s)[1..]) + Trailer(s.writer) == m + rest;
    SplitAt(s.reader.got, Between(s.ring, v.tail, s.head), m, rest);
    assert Pending(v) == Pending(s)[1..];
  }

  lemma StepKeepsInv(s: State, step: Step)
    requires Inv(s) && Enabled(s, step)
    ensures Inv(Apply(s, step))
  {
    hide Inv, Apply;
    match step
    case Send(m) => SendKeeps(s, m);
    case Store => StoreKeeps(s);
    case Publish => PublishKeeps(s);
    case Receive => ReceiveKeeps(s);
    case Load => LoadKeeps(s);
    case Release => ReleaseKeeps(s);
  }

  lemma PublishKeeps(s: State)
    requires Inv(s) && Enabled(s, Publish)
    ensures Inv(Apply(s, Publish))
  {
    if s.writer.Prefix? {
      PublishPrefixKeeps(s);
    } else {
      PublishPayloadKeeps(s);
    }
  }

  lemma ReleaseKeeps(s: State)
    requires Inv(s) && Enabled(s, Release)
    ensures Inv(Apply(s, Release))
  {
    if s.reader.Length? {
      ReleaseLengthKeeps(s);
    } else {
      ReleaseDataKeeps(s);
    }
  }

  // ----- runs -----

  ghost predicate Possible(s: State, steps: seq<Step>)
    requires Inv(s)
    decreases |steps|
  {
    steps == [] || (Enabled(s, steps[0]) && (StepKeepsInv(s, steps[0]); Possible(Apply(s, steps[0]), steps[1..])))
  }

  ghost function Run(s: State, steps: seq<Step>): State
    requires Inv(s) && Possible(s, steps)
    decreases |steps|
  {
    if steps == [] then s
    else
      StepKeepsInv(s, steps[0]);
      Run(Apply(s, steps[0]), steps[1..])
  }

  lemma {:induction false} RunKeepsInv(s: State, steps: seq<Step>)
    requires Inv(s) && Possible(s, steps)
    ensures Inv(Run(s, steps))
    decreases |steps|
  {
    hide Apply, WriterOk, ReaderOk, Published;
    if steps != [] {
      StepKeepsInv(s, steps[0]);
      RunKeepsInv(Apply(s, steps[0]), steps[1..]);
    }
  }

  ghost predicate Init(s: State) {
    s.head < |s.ring| && s.tail == s.head && s.writer.Resting? && s.reader.Waiting? && s.sent == [] && s.received == []
  }

  lemma InitInv(s: State)
    requires Init(s)
    ensures Inv(s)
  {
  }

  /**
   In every interleaving the received messages are, whole and in order, the first of those
   sent; and when both sides rest, a buffer without a byte has delivered all of them.
   */
  lemma Linearizable(s: State, steps: seq<Step>)
    requires Init(s)
    requires Inv(s) && Possible(s, steps)
    ensures var v := Run(s, steps);
            && v.received <= v.sent
            && (v.writer.Resting? && v.reader.Waiting? && v.tail == v.head ==> v.received == v.sent)
  {
    RunKeepsInv(s, steps);
    var v := Run(s, steps);
    PendingSendable(v);
    FramesFront(Pending(v));
    if v.writer.Resting? && v.reader.Waiting? && v.tail == v.head {
      assert Published(v) == [];
      assert v.sent == v.received + Pending(v);
    }
  }

  // ----- progress -----

  lemma RunCons(s: State, step: Step, steps: seq<Step>)
    requires Inv(s) && Enabled(s, step) && Inv(Apply(s, step)) && Possible(Apply(s, step), steps)
    ensures Possible(s, [step] + steps) && Run(s, [step] + steps) == Run(Apply(s, step), steps)
  {
    hide Inv, Apply, Enabled;
    StepKeepsInv(s, step);
    assert ([step] + steps)[1..] == steps;
  }

  lemma {:induction false} RunAppend(s: State, a: seq<Step>, b: seq<Step>)
    requires Inv(s) && Possible(s, a) && Inv(Run(s, a)) && Possible(Run(s, a), b)
    ensures Possible(s, a + b) && Run(s, a + b) == Run(Run(s, a), b)
    decreases |a|
  {
    hide Inv, Apply, Enabled;
    if a == [] {
      assert a + b == b;
    } else {
      ActiveWriter(s);
      StepKeepsInv(s, a[0]);
      RunAppend(Apply(s, a[0]), a[1..], b);
      RunCons(s, a[0], a[1..] + b);
      assert a + b == [a[0]] + (a[1..] + b);
    }
  }

  function Copies(step: Step, n: nat): seq<Step> {
    seq(n, i => step)
  }

  /** The writer stores what is left of the length or the payload, and publishes it. */
  lemma {:induction false} StoresAndPublishes(s: State, n: nat)
    requires Inv(s) && !s.writer.Resting? && s.writer.i + n == |Outgoing(s.writer)|
    ensures var steps := Copies(Store, n) + [Publish];
            && Possible(s, steps)
            && var v := Run(s, steps);
               && Inv(v) && v.reader == s.reader && v.received == s.received && v.tail == s.tail && |v.ring| == |s.ring|
               && (s.writer.Prefix? ==> v.writer == Payload(s.writer.m, 0) && v.sent == s.sent)
               && (s.writer.Payload? ==> v.writer == Resting && v.sent == s.sent + [s.writer.m])
    decreases n
  {
    hide Inv, WriterOk, ReaderOk, Published, Between, Pending, LengthBytes;
    ActiveWriter(s);
    if n == 0 {
      StepKeepsInv(s, Publish);
      NoSteps(Apply(s, Publish));
      RunCons(s, Publish, []);
      assert Copies(Store, 0) + [Publish] == [Publish] + [];
    } else {
      StepKeepsInv(s, Store);
      StoresAndPublishes(Apply(s, Store), n - 1);
      RunCons(s, Store, Copies(Store, n - 1) + [Publish]);
      assert Copies(Store, n) + [Publish] == [Store] + (Copies(Store, n - 1) + [Publish]);
    }
  }

  lemma ActiveWriter(s: State)
    requires Inv(s)
    ensures InRange(s) && (!s.writer.Resting? ==> |s.writer.m| < SIZE_LIMIT)
  {
  }

  lemma NoSteps(s: State)
    requires Inv(s)
    ensures Possible(s, []) && Run(s, []) == s
  {
  }

  /** The steps of a writer that nothing interrupts. */
  function Sending(m: seq<Byte>): seq<Step> {
    [Send(m)] + ((Copies(Store, LENGTH_BYTES) + [Publish]) + (Copies(Store, |m|) + [Publish]))
  }

  /** A message that fits is sent by the writer's own steps, whatever the reader is doing; one that does not is refused. */
  lemma FittingMessageIsSent(s: State, m: seq<Byte>)
    requires Inv(s) && s.writer.Resting? && Sendable(m) && InRange(s)
    ensures if LENGTH_BYTES + |m| <= |s.ring| - 1 - Distance(s.tail, s.head, |s.ring|)
            then && Possible(s, Sending(m))
                 && var v := Run(s, Sending(m));
                    && v.writer == Resting && v.sent == s.sent + [m]
                    && v.reader == s.reader && v.received == s.received && v.tail == s.tail
            else Enabled(s, Send(m)) && Apply(s, Send(m)) == s
  {
    hide Inv, WriterOk, ReaderOk, Published, Between, Pending, LengthBytes, Distance;
    if LENGTH_BYTES + |m| <= Space(s) {
      StepKeepsInv(s, Send(m));
      var a := Apply(s, Send(m));
      var first, second := Copies(Store, LENGTH_BYTES) + [Publish], Copies(Store, |m|) + [Publish];
      StoresAndPublishes(a, LENGTH_BYTES);
      StoresAndPublishes(Run(a, first), |m|);
      RunAppend(a, first, second);
      RunCons(s, Send(m), first + second);
    }
  }

  /** The reader loads what is left of the length or the message, and moves the tail. */
  lemma {:induction false} LoadsAndReleases(s: State, n: nat)
    requires Inv(s) && !s.reader.Waiting? && |s.reader.got| + n == Wanted(s.reader)
    ensures var steps := Copies(Load, n) + [Release];
            && Possible(s, steps)
            && var v := Run(s, steps);
               && Inv(v) && v.writer == s.writer && v.sent == s.sent
               && (s.reader.Length? ==> v.reader.Data? && v.reader.got == [] && v.received == s.received)
               && (s.reader.Data? ==> v.reader == Waiting && |v.received| == |s.received| + 1)
    decreases n
  {
    hide Inv, WriterOk, ReaderOk, Published, Between, Pending, LengthOf;
    ActiveWriter(s);
    if n == 0 {
      StepKeepsInv(s, Release);
      NoSteps(Apply(s, Release));
      RunCons(s, Release, []);
      assert Copies(Load, 0) + [Release] == [Release] + [];
    } else {
      StepKeepsInv(s, Load);
      LoadsAndReleases(Apply(s, Load), n - 1);
      RunCons(s, Load, Copies(Load, n - 1) + [Release]);
      assert Copies(Load, n) + [Release] == [Load] + (Copies(Load, n - 1) + [Release]);
    }
  }

  /** The steps of a reader that nothing interrupts. */
  function Receiving(m: seq<Byte>): seq<Step> {
    [Receive] + ((Copies(Load, LENGTH_BYTES) + [Release]) + (Copies(Load, |m|) + [Release]))
  }

  /** The first pending message is received by the reader's own steps, whatever the writer is doing. */
  lemma PendingMessageIsReceived(s: State)
    requires Inv(s) && s.reader.Waiting? && |s.received| < |s.sent|
    ensures var m := s.sent[|s.received|];
            && Possible(s, Receiving(m))
            && var v := Run(s, Receiving(m));
               v.reader == Waiting && v.received == s.received + [m] && v.writer == s.writer && v.sent == s.sent
  {
    hide Inv, WriterOk, ReaderOk, Published, Between, Pending, LengthOf, Distance;
    var m := s.sent[|s.received|];
    ActiveWriter(s);
    SnapshotIsLarge(s);
    StepKeepsInv(s, Receive);
    var a := Apply(s, Receive);
    var first, second := Copies(Load, LENGTH_BYTES) + [Release], Copies(Load, |m|) + [Release];
    LoadsAndReleases(a, LENGTH_BYTES);
    var b := Run(a, first);
    WantedIsNext(b);
    LoadsAndReleases(b, |m|);
    RunAppend(a, first, second);
    RunCons(s, Receive, first + second);
    var v := Run(b, second);
    ReceivedIsPrefix(s);
    ReceivedIsPrefix(v);
    assert v.received == s.sent[..|s.received| + 1] && s.received == s.sent[..|s.received|];
  }

  lemma SnapshotIsLarge(s: State)
    requires Inv(s) && s.reader.Waiting? && |s.received| < |s.sent|
    ensures Distance(s.tail, s.head, |s.ring|) > LENGTH_BYTES && Enabled(s, Receive)
  {
    hide Between, Frames;
    PendingSendable(s);
    FramesFront(Pending(s));
    PublishedLength(s);
  }

  lemma WantedIsNext(s: State)
    requires Inv(s) && s.reader.Data?
    ensures |s.received| < |s.sent| && Wanted(s.reader) == |s.sent[|s.received|]|
  {
    hide Between, Published;
  }

  lemma ReceivedIsPrefix(s: State)
    requires Inv(s)
    ensures s.received <= s.sent
  {
  }
}
