/**
 The SSM's receiver (ASP_ProcessIncomingByte): a state machine that is fed one byte at a
 time, and the grammar of byte streams that it implements.
 */
module AspReceiver {
  import opened AspFrames
  import opened Basics

  datatype Handler = OnCommand | OnGetSensorData | OnSetRtc | OnAttnSourceAck | OnConfig

  /** A call that leaves the receiver: a handler, or ASP_HandleErroneousMsg. */
  datatype Call = Handle(handler: Handler, frame: Frame) | Erroneous

  /** The ids that ASP_RECEIVE_ID lets through. */
  predicate Accepted(id: Byte) {
    id in {CONFIG, COMMAND, SET_RTC, STATUS, ATTN_SRC, ATTN_SRC_ACK, GET_SENSOR_DATA_ENTRIES}
  }

  /** HandleValidMsg; the status and attention source messages have no handler on this side. */
  function HandleValid(f: Frame): Call {
    if f.id == COMMAND then Handle(OnCommand, f)
    else if f.id == GET_SENSOR_DATA_ENTRIES then Handle(OnGetSensorData, f)
    else if f.id == SET_RTC then Handle(OnSetRtc, f)
    else if f.id == ATTN_SRC_ACK then Handle(OnAttnSourceAck, f)
    else if f.id == CONFIG then Handle(OnConfig, f)
    else Erroneous
  }

  // ----- the grammar of the stream -----

  /** The length of the first unit of the stream that is complete; 0 when there is none. */
  function Unit(s: seq<Byte>): (n: nat)
    ensures n <= |s|
  {
    if s == [] then 0
    else if s[0] != MAGIC then 1
    else if |s| < 2 then 0
    else if s[1] as nat > MAX_PAYLOAD then 2
    else if |s| < 3 then 0
    else if !Accepted(s[2]) then 3
    else if |s| < s[1] as nat + 4 then 0
    else s[1] as nat + 4
  }

  /** The calls that the first unit causes: none for a byte between frames. */
  function UnitCalls(s: seq<Byte>): seq<Call>
    requires Unit(s) > 0
  {
    if s[0] != MAGIC then []
    else if Unit(s) < 4 then [Erroneous]
    else
      var f := Frame(s[2], s[3..Unit(s) - 1]);
      if s[Unit(s) - 1] == Checksum(f) then [HandleValid(f)] else [Erroneous]
  }

  /** The calls of a whole stream, and its unfinished end. */
  function Calls(s: seq<Byte>): seq<Call> {
    if Unit(s) == 0 then [] else UnitCalls(s) + Calls(s[Unit(s)..])
  }

  function Unfinished(s: seq<Byte>): seq<Byte> {
    if Unit(s) == 0 then s else Unfinished(s[Unit(s)..])
  }

  /** Bytes that follow do not change a complete unit. */
  lemma UnitStays(s: seq<Byte>, t: seq<Byte>)
    requires Unit(s) > 0
    ensures Unit(s + t) == Unit(s) && UnitCalls(s + t) == UnitCalls(s)
    ensures (s + t)[Unit(s)..] == s[Unit(s)..] + t
  {
    if Unit(s) >= 4 {
      assert (s + t)[3..Unit(s) - 1] == s[3..Unit(s) - 1];
    }
  }

  /** A stream can be read in two parts: the second one starts with what the first left unfinished. */
  lemma {:induction false} CallsAppend(s: seq<Byte>, t: seq<Byte>)
    ensures Calls(s + t) == Calls(s) + Calls(Unfinished(s) + t)
    ensures Unfinished(s + t) == Unfinished(Unfinished(s) + t)
    ensures Unit(Unfinished(s)) == 0
    decreases |s|
  {
    hide UnitCalls;
    if Unit(s) > 0 {
      UnitStays(s, t);
      CallsAppend(s[Unit(s)..], t);
    }
  }

  lemma {:induction false} NoMagicNoCalls(s: seq<Byte>)
    requires MAGIC !in s
    ensures Calls(s) == [] && Unfinished(s) == []
  {
    if s != [] {
      NoMagicNoCalls(s[1..]);
    }
  }

  lemma FrameIsAUnit(f: Frame)
    requires Sendable(f) && Accepted(f.id)
    ensures Calls(Bytes(f)) == [HandleValid(f)] && Unfinished(Bytes(f)) == []
  {
    var s := Bytes(f);
    assert Unit(s) == |s| && s[|s|..] == [];
    assert Frame(s[2], s[3..|s| - 1]) == f && s[|s| - 1] == Checksum(f);
  }

  /** Each frame with the bytes before it. */
  datatype Sent = Sent(gap: seq<Byte>, frame: Frame)

  ghost predicate Transmission(ts: seq<Sent>) {
    forall t :: t in ts ==> MAGIC !in t.gap && Sendable(t.frame) && Accepted(t.frame.id)
  }

  ghost function OnTheWire(ts: seq<Sent>): seq<Byte>
    requires Transmission(ts)
  {
    if ts == [] then [] else
      assert ts[0] in ts;
      ts[0].gap + Bytes(ts[0].frame) + OnTheWire(ts[1..])
  }

  ghost function Expected(ts: seq<Sent>): seq<Call> {
    if ts == [] then [] else [HandleValid(ts[0].frame)] + Expected(ts[1..])
  }

  /** Frames with accepted ids, whatever stands between them but the magic byte: each is handled once, in order. */
  lemma {:induction false} FramesAreHandledInOrder(ts: seq<Sent>, trailing: seq<Byte>)
    requires Transmission(ts) && MAGIC !in trailing
    ensures Calls(OnTheWire(ts) + trailing) == Expected(ts) && Unfinished(OnTheWire(ts) + trailing) == []
  {
    hide UnitCalls, HandleValid, Bytes, Accepted, Unit, Calls, Unfinished;
    if ts == [] {
      assert OnTheWire(ts) + trailing == trailing;
      NoMagicNoCalls(trailing);
    } else {
      var t := ts[0];
      assert t in ts;
      var rest := OnTheWire(ts[1..]) + trailing;
      FramesAreHandledInOrder(ts[1..], trailing);
      NextFrame(t.gap, t.frame, rest);
      assert OnTheWire(ts) + trailing == t.gap + (Bytes(t.frame) + rest);
    }
  }

  lemma NextFrame(gap: seq<Byte>, f: Frame, rest: seq<Byte>)
    requires MAGIC !in gap && Sendable(f) && Accepted(f.id)
    ensures Calls(gap + (Bytes(f) + rest)) == [HandleValid(f)] + Calls(rest)
    ensures Unfinished(gap + (Bytes(f) + rest)) == Unfinished(rest)
  {
    hide UnitCalls, HandleValid, Bytes, Accepted, Unit, Calls, Unfinished;
    NoMagicNoCalls(gap);
    FrameIsAUnit(f);
    CallsAppend(gap, Bytes(f) + rest);
    CallsAppend(Bytes(f), rest);
    assert [] + (Bytes(f) + rest) == Bytes(f) + rest && [] + rest == rest;
  }

  /**
   Nothing is handled that was not sent: when a byte makes the receiver call a handler, the
   stream ends with exactly that frame, and everything before the frame had been dealt with.
   */
  lemma OnlyFramesAreHandled(s: seq<Byte>, b: Byte, handler: Handler, f: Frame)
    requires Calls(s + [b]) == Calls(s) + [Handle(handler, f)]
    ensures Sendable(f) && Accepted(f.id) && HandleValid(f) == Handle(handler, f)
    ensures var before := |s| - |f.payload| - 3;
            && before >= 0
            && s + [b] == s[..before] + Bytes(f)
            && Unfinished(s[..before]) == [] && Calls(s[..before]) == Calls(s)
  {
    hide Calls, Unfinished, Bytes, Unit, UnitCalls, Accepted, HandleValid;
    CallsAppend(s, [b]);
    UnfinishedIsTheEnd(s);
    var u := Unfinished(s);
    LastByteCompletes(u, b);
    SameFront(Calls(s), Calls(u + [b]), [Handle(handler, f)]);
    HandledUnit(u + [b], handler, f);
    assert s + [b] == s[..|s| - |u|] + (u + [b]);
  }

  lemma SameFront(a: seq<Call>, b: seq<Call>, c: seq<Call>)
    requires a + b == a + c
    ensures b == c
  {
    assert b == (a + b)[|a|..];
    assert c == (a + c)[|a|..];
  }

  /** A unit that makes the receiver call a handler is a frame. */
  lemma HandledUnit(e: seq<Byte>, handler: Handler, f: Frame)
    requires Unit(e) == |e| > 0 && UnitCalls(e) == [Handle(handler, f)]
    ensures Sendable(f) && Accepted(f.id) && HandleValid(f) == Handle(handler, f) && e == Bytes(f)
  {
    assert e[3..|e| - 1] == f.payload && e[2] == f.id;
  }

  lemma UnitFits(s: seq<Byte>)
    ensures Unit(s) <= |s|
  {
  }

  lemma {:induction false} UnfinishedIsTheEnd(s: seq<Byte>)
    ensures var u := Unfinished(s);
            && |u| <= |s| && s == s[..|s| - |u|] + u
            && Unfinished(s[..|s| - |u|]) == [] && Calls(s[..|s| - |u|]) == Calls(s)
    decreases |s|
  {
    hide UnitCalls, Unit;
    UnitFits(s);
    var u := Unfinished(s);
    if Unit(s) == 0 {
      assert s[..0] == [];
    } else {
      var t := s[Unit(s)..];
      UnfinishedIsTheEnd(t);
      var k := |t| - |u|;
      assert s[..|s| - |u|] == s[..Unit(s)] + t[..k];
      PrefixUnit(s, t[..k]);
    }
  }

  lemma PrefixUnit(s: seq<Byte>, t: seq<Byte>)
    requires Unit(s) > 0
    ensures var p := s[..Unit(s)] + t;
            Unit(p) == Unit(s) && UnitCalls(p) == UnitCalls(s) && p[Unit(p)..] == t
  {
    var p := s[..Unit(s)] + t;
    if Unit(s) >= 4 {
      assert p[3..Unit(s) - 1] == s[3..Unit(s) - 1];
    }
  }

  /** One more byte either leaves the unit unfinished or completes it and nothing else. */
  lemma LastByteCompletes(u: seq<Byte>, b: Byte)
    requires Unit(u) == 0
    ensures Unit(u + [b]) == 0 || Unit(u + [b]) == |u| + 1
    ensures Unit(u + [b]) == 0 ==> Calls(u + [b]) == [] && Unfinished(u + [b]) == u + [b]
    ensures Unit(u + [b]) != 0 ==> Calls(u + [b]) == UnitCalls(u + [b]) && Unfinished(u + [b]) == []
  {
    var e := u + [b];
    if Unit(e) != 0 {
      assert e[|e|..] == [];
      assert Calls([]) == [] && Unfinished([]) == [];
      assert UnitCalls(e) + [] == UnitCalls(e);
    }
  }

  /** A frame without its checksum. */
  function Front(f: Frame): seq<Byte>
    requires Sendable(f)
  {
    Bytes(f)[..|f.payload| + 3]
  }

  lemma FrontIsUnfinished(f: Frame)
    requires Sendable(f) && Accepted(f.id)
    ensures Calls(Front(f)) == [] && Front(f) + [Checksum(f)] == Bytes(f)
  {
    hide Checksum;
    assert Unit(Front(f)) == 0;
  }

  /**
   A frame that comes after the bytes `s` is handled, when its last byte comes in, exactly if
   the receiver had dealt with all of `s`; that is, if it was looking for a start.
   */
  lemma HandledExactlyWhenIdle(s: seq<Byte>, f: Frame)
    requires Sendable(f) && Accepted(f.id) && HandleValid(f).Handle?
    ensures Calls(s + Bytes(f)) == Calls(s + Front(f)) + [HandleValid(f)] <==> Unfinished(s) == []
  {
    hide Calls, Unfinished, HandleValid, Bytes, Front;
    FrontIsUnfinished(f);
    if Calls(s + Bytes(f)) == Calls(s + Front(f)) + [HandleValid(f)] {
      HandledMeansIdle(s, f);
    }
    if Unfinished(s) == [] {
      IdleMeansHandled(s, f);
    }
  }

  lemma HandledMeansIdle(s: seq<Byte>, f: Frame)
    requires Sendable(f) && Accepted(f.id) && HandleValid(f).Handle?
    requires Calls(s + Bytes(f)) == Calls(s + Front(f)) + [HandleValid(f)]
    ensures Unfinished(s) == []
  {
    hide Calls, Unfinished, UnitCalls, Unit, HandleValid, Bytes, Accepted, Checksum, Front;
    FrontIsUnfinished(f);
    FrontLength(f);
    assert s + Bytes(f) == (s + Front(f)) + [Checksum(f)];
    HandledFrame(f);
    OnlyFramesAreHandled(s + Front(f), Checksum(f), HandleValid(f).handler, f);
    assert (s + Front(f))[..|s|] == s;
  }

  lemma IdleMeansHandled(s: seq<Byte>, f: Frame)
    requires Sendable(f) && Accepted(f.id) && Unfinished(s) == []
    ensures Calls(s + Bytes(f)) == Calls(s + Front(f)) + [HandleValid(f)]
  {
    hide Calls, Unfinished, UnitCalls, Unit, HandleValid, Bytes, Accepted, Checksum, Front;
    FrontIsUnfinished(f);
    CallsAppend(s, Bytes(f));
    CallsAppend(s, Front(f));
    FrameIsAUnit(f);
    assert [] + Bytes(f) == Bytes(f) && [] + Front(f) == Front(f);
  }

  lemma FrontLength(f: Frame)
    requires Sendable(f)
    ensures |Front(f)| == |f.payload| + 3
  {
  }

  lemma HandledFrame(f: Frame)
    requires HandleValid(f).Handle?
    ensures HandleValid(f).frame == f
  {
  }

  /** So a stray magic byte hides any frame behind it: the frame's own magic byte is taken for a length. */
  lemma StrayMagicHidesTheFrame(s: seq<Byte>, f: Frame)
    requires Unfinished(s) == [] && Sendable(f) && Accepted(f.id) && HandleValid(f).Handle?
    ensures Unfinished(s + [MAGIC]) == [MAGIC]
    ensures Calls(s + [MAGIC] + Bytes(f)) != Calls(s + [MAGIC] + Front(f)) + [HandleValid(f)]
  {
    hide Calls, UnitCalls, HandleValid, Bytes, Accepted, Checksum, Front;
    CallsAppend(s, [MAGIC]);
    assert [] + [MAGIC] == [MAGIC];
    assert Unfinished([MAGIC]) == [MAGIC];
    HandledExactlyWhenIdle(s + [MAGIC], f);
  }

  // ----- which call a frame causes -----

  /** An accepted frame that comes to an idle receiver causes one call and is dealt with. */
  lemma FrameCall(s: seq<Byte>, f: Frame)
    requires Unfinished(s) == [] && Sendable(f) && Accepted(f.id)
    ensures Calls(s + Bytes(f)) == Calls(s) + [HandleValid(f)] && Unfinished(s + Bytes(f)) == []
  {
    hide Calls, Unfinished, HandleValid, Bytes, Accepted;
    CallsAppend(s, Bytes(f));
    FrameIsAUnit(f);
    assert [] + Bytes(f) == Bytes(f);
  }

  /** A frame with any other id is refused at its third byte. */
  lemma ForeignFrame(s: seq<Byte>, f: Frame)
    requires Unfinished(s) == [] && Sendable(f) && !Accepted(f.id)
    ensures Calls(s) + [Erroneous] <= Calls(s + Bytes(f))
  {
    hide Unfinished, HandleValid, Accepted, Checksum;
    CallsAppend(s, Bytes(f));
    assert [] + Bytes(f) == Bytes(f);
    assert Unit(Bytes(f)) == 3;
  }

  /** A frame that comes to an idle receiver goes to the handler of its id, and to no other. */
  lemma IdDecidesHandler(s: seq<Byte>, f: Frame, handler: Handler)
    requires Unfinished(s) == [] && Sendable(f)
    ensures Calls(s + Bytes(f)) == Calls(s) + [Handle(handler, f)] <==>
              match handler
              case OnCommand => f.id == COMMAND
              case OnGetSensorData => f.id == GET_SENSOR_DATA_ENTRIES
              case OnSetRtc => f.id == SET_RTC
              case OnAttnSourceAck => f.id == ATTN_SRC_ACK
              case OnConfig => f.id == CONFIG
  {
    hide Calls, Unfinished, Bytes;
    if Accepted(f.id) {
      FrameCall(s, f);
      SameFrontIff(Calls(s), [HandleValid(f)], [Handle(handler, f)]);
    } else {
      ForeignFrame(s, f);
      var n := |Calls(s)|;
      assert (Calls(s) + [Erroneous])[n] == Calls(s + Bytes(f))[n];
      assert (Calls(s) + [Handle(handler, f)])[n] == Handle(handler, f);
    }
  }

  lemma SameFrontIff(a: seq<Call>, b: seq<Call>, c: seq<Call>)
    ensures a + b == a + c <==> b == c
  {
    if a + b == a + c {
      SameFront(a, b, c);
    }
  }

  /** What makes an idle receiver report an error: a length, an id or a checksum that is wrong, and nothing earlier. */
  lemma ErrorsAreReported(s: seq<Byte>, length: Byte, id: Byte, f: Frame, checksum: Byte)
    requires Unfinished(s) == [] && Sendable(f) && Accepted(f.id)
    ensures Calls(s + [MAGIC, length]) == Calls(s) + (if length > 214 then [Erroneous] else [])
    ensures length <= 214 ==>
              Calls(s + [MAGIC, length, id]) == Calls(s)
              + (if id in {CONFIG, COMMAND, SET_RTC, STATUS, ATTN_SRC, ATTN_SRC_ACK, GET_SENSOR_DATA_ENTRIES}
                 then [] else [Erroneous])
    ensures checksum != Checksum(f) ==>
              Calls(s + (Front(f) + [checksum])) == Calls(s) + [Erroneous] && Unfinished(s + (Front(f) + [checksum])) == []
    ensures f.id in {STATUS, ATTN_SRC} ==> Calls(s + Bytes(f)) == Calls(s) + [Erroneous]
  {
    hide Calls, Unfinished, Checksum, Bytes, Front;
    BadLength(s, length);
    if length <= 214 {
      BadId(s, length, id);
    }
    if checksum != Checksum(f) {
      BadChecksum(s, f, checksum);
    }
    FrameCall(s, f);
  }

  lemma BadLength(s: seq<Byte>, length: Byte)
    requires Unfinished(s) == []
    ensures Calls(s + [MAGIC, length]) == Calls(s) + (if length as nat > MAX_PAYLOAD then [Erroneous] else [])
  {
    hide Unfinished, Accepted;
    var a := [MAGIC, length];
    CallsAppend(s, a);
    assert [] + a == a && a[2..] == [] && Calls([]) == [];
  }

  lemma BadId(s: seq<Byte>, length: Byte, id: Byte)
    requires Unfinished(s) == [] && length as nat <= MAX_PAYLOAD
    ensures Calls(s + [MAGIC, length, id]) == Calls(s) + (if Accepted(id) then [] else [Erroneous])
  {
    hide Unfinished, Accepted;
    var a := [MAGIC, length, id];
    CallsAppend(s, a);
    assert [] + a == a && a[3..] == [] && Calls([]) == [];
  }

  lemma BadChecksum(s: seq<Byte>, f: Frame, checksum: Byte)
    requires Unfinished(s) == [] && Sendable(f) && Accepted(f.id) && checksum != Checksum(f)
    ensures Calls(s + (Front(f) + [checksum])) == Calls(s) + [Erroneous] && Unfinished(s + (Front(f) + [checksum])) == []
  {
    hide Checksum, HandleValid, Accepted;
    var e := Front(f) + [checksum];
    CallsAppend(s, e);
    assert [] + e == e;
    assert Unit(e) == |e| && e[|e|..] == [];
    assert e[3..|e| - 1] == f.payload && e[2] == f.id;
    assert Calls([]) == [] && Unfinished([]) == [];
  }

  // ----- the machine -----

  datatype State = LookForStart | ReceiveLen | ReceiveId | ReceivePayload | ReceiveChecksum

  /** The machine's variables hold what `u`, the unfinished end of the stream, says. */
  ghost predicate Stands(state: State, expected: Byte, received: Byte, message: seq<Byte>, u: seq<Byte>)
    requires |message| == MAX_PAYLOAD + 4
  {
    match state
    case LookForStart => u == []
    case ReceiveLen => u == [MAGIC]
    case ReceiveId => u == [MAGIC, message[1]] && message[1] as nat <= MAX_PAYLOAD
    case ReceivePayload =>
      && received < expected == message[1] && message[1] as nat <= MAX_PAYLOAD && Accepted(message[2])
      && u == [MAGIC] + message[1..3 + received as nat]
    case ReceiveChecksum =>
      && message[1] as nat <= MAX_PAYLOAD && Accepted(message[2])
      && u == [MAGIC] + message[1..3 + message[1] as nat]
  }

  /** What one more byte makes of the unfinished end: a longer one, or a complete unit with its calls. */
  lemma NextByte(state: State, expected: Byte, received: Byte, message: seq<Byte>, u: seq<Byte>, byte: Byte)
    requires |message| == MAX_PAYLOAD + 4 && Stands(state, expected, received, message, u)
    ensures var e := u + [byte];
      match state
      case LookForStart =>
        if byte == MAGIC then Unit(e) == 0 && Stands(ReceiveLen, 0, received, message, e)
        else Unit(e) > 0 && UnitCalls(e) == []
      case ReceiveLen =>
        if byte as nat <= MAX_PAYLOAD then Unit(e) == 0 && Stands(ReceiveId, expected, received, message[1 := byte], e)
        else Unit(e) > 0 && UnitCalls(e) == [Erroneous]
      case ReceiveId =>
        if Accepted(byte) then
          Unit(e) == 0 && if message[1] > 0 then Stands(ReceivePayload, message[1], 0, message[2 := byte], e)
                          else Stands(ReceiveChecksum, expected, received, message[2 := byte], e)
        else Unit(e) > 0 && UnitCalls(e) == [Erroneous]
      case ReceivePayload =>
        && received < expected && expected as nat <= MAX_PAYLOAD && Unit(e) == 0
        && Stands(if received + 1 >= expected then ReceiveChecksum else ReceivePayload,
             expected, received + 1, message[3 + received as nat := byte], e)
      case ReceiveChecksum =>
        && message[1] as nat <= MAX_PAYLOAD && Unit(e) > 0
        && var f := FrameIn(message);
           UnitCalls(e) == [if byte == Checksum(f) then HandleValid(f) else Erroneous]
  {
    hide Checksum, HandleValid, Accepted;
    var e := u + [byte];
    match state
    case LookForStart =>
    case ReceiveLen => assert byte as nat <= MAX_PAYLOAD ==> e == [MAGIC, message[1 := byte][1]];
    case ReceiveId => assert e == [MAGIC] + message[2 := byte][1..3];
    case ReceivePayload =>
      var n := 3 + received as nat;
      assert message[n := byte][1..n + 1] == message[1..n] + [byte];
      assert e[1] == message[1] && e[2] == message[2];
    case ReceiveChecksum => CompleteFrame(message, byte);
  }

  /** How a stream goes on with one byte. */
  lemma OneMoreByte(s: seq<Byte>, byte: Byte)
    ensures var e := Unfinished(s) + [byte];
            && Calls(s + [byte]) == Calls(s) + (if Unit(e) == 0 then [] else UnitCalls(e))
            && Unfinished(s + [byte]) == if Unit(e) == 0 then e else []
  {
    hide Calls, Unfinished, UnitCalls, Unit;
    CallsAppend(s, [byte]);
    LastByteCompletes(Unfinished(s), byte);
  }

  class Receiver {
    var state: State
    var expected: Byte
    var received: Byte
    const message: array<Byte>
    var calls: seq<Call>
    ghost var history: seq<Byte>

    /** The machine's state is the unfinished end of all that it was fed. */
    ghost predicate Valid()
      reads this, message
    {
      && message.Length == MAX_PAYLOAD + 4
      && calls == Calls(history)
      && Stands(state, expected, received, message[..], Unfinished(history))
    }

    constructor ()
      ensures Valid() && fresh(message) && history == []
    {
      state, expected, received := LookForStart, 0, 0;
      message := new Byte[MAX_PAYLOAD + 4](i => 0);
      calls, history := [], [];
    }

    /** Looking for a start is having dealt with everything. */
    lemma IdleIsFinished()
      requires Valid()
      ensures state == LookForStart <==> Unfinished(history) == []
    {
      hide Calls, Unfinished;
    }

    /** ASP_ProcessIncomingByte. */
    method ProcessIncomingByte(byte: Byte)
      requires Valid()
      modifies this, message
      ensures Valid() && history == old(history) + [byte]
    {
      hide Calls, Unfinished, UnitCalls, Unit, Stands, Checksum, HandleValid, FrameIn, Accepted;
      NextByte(state, expected, received, message[..], Unfinished(history), byte);
      OneMoreByte(history, byte);
      StandsAtStart(expected, received, message[..]);
      history := history + [byte];
      match state
      case LookForStart =>
        if byte == MAGIC {
          expected := 0;
          state := ReceiveLen;
        }
      case ReceiveLen =>
        if byte as nat <= MAX_PAYLOAD {
          message[1] := byte;
          state := ReceiveId;
        } else {
          calls := calls + [Erroneous];
          state := LookForStart;
        }
      case ReceiveId =>
        if Accepted(byte) {
          message[2] := byte;
          if message[1] > 0 {
            expected := message[1];
            received := 0;
            state := ReceivePayload;
          } else {
            state := ReceiveChecksum;
          }
        } else {
          calls := calls + [Erroneous];
          state := LookForStart;
        }
      case ReceivePayload =>
        message[3 + received as nat] := byte;
        received := received + 1;
        if received >= expected {
          state := ReceiveChecksum;
        }
      case ReceiveChecksum =>
        var checksum := ComputeChecksum(message);
        if checksum == byte {
          HandleValidMsg();
        } else {
          calls := calls + [Erroneous];
        }
        state := LookForStart;
    }

    /** HandleValidMsg. */
    method HandleValidMsg()
      requires message.Length == MAX_PAYLOAD + 4 && message[1] as nat <= MAX_PAYLOAD
      modifies this`calls
      ensures calls == old(calls) + [HandleValid(FrameIn(message[..]))]
    {
      var id := message[2];
      var frame := Frame(id, message[3..3 + message[1] as nat]);
      assert frame == FrameIn(message[..]);
      if id == COMMAND {
        calls := calls + [Handle(OnCommand, frame)];
      } else if id == GET_SENSOR_DATA_ENTRIES {
        calls := calls + [Handle(OnGetSensorData, frame)];
      } else if id == SET_RTC {
        calls := calls + [Handle(OnSetRtc, frame)];
      } else if id == ATTN_SRC_ACK {
        calls := calls + [Handle(OnAttnSourceAck, frame)];
      } else if id == CONFIG {
        calls := calls + [Handle(OnConfig, frame)];
      } else {
        calls := calls + [Erroneous];
      }
    }
  }

  lemma StandsAtStart(expected: Byte, received: Byte, message: seq<Byte>)
    requires |message| == MAX_PAYLOAD + 4
    ensures Stands(LookForStart, expected, received, message, [])
  {
  }

  lemma CompleteFrame(message: seq<Byte>, byte: Byte)
    requires |message| == MAX_PAYLOAD + 4 && message[1] as nat <= MAX_PAYLOAD && Accepted(message[2])
    ensures var e := [MAGIC] + message[1..3 + message[1] as nat] + [byte];
            var f := FrameIn(message);
            Unit(e) == |e| && UnitCalls(e) == [if byte == Checksum(f) then HandleValid(f) else Erroneous]
  {
    hide Checksum, HandleValid;
    var e := [MAGIC] + message[1..3 + message[1] as nat] + [byte];
    assert e[2] == message[2] && e[1] == message[1] && e[|e| - 1] == byte;
    assert e[3..|e| - 1] == message[3..3 + message[1] as nat];
  }

  /** ASP_SSM_Periodic: the receiver is fed whatever has come in. */
  method Periodic(receiver: Receiver, bytes: seq<Byte>)
    requires receiver.Valid()
    modifies receiver, receiver.message
    ensures receiver.Valid() && receiver.history == old(receiver.history) + bytes
    ensures receiver.calls == Calls(old(receiver.history) + bytes)
  {
    hide Calls, Unfinished;
    var i := 0;
    while i < |bytes|
      invariant i <= |bytes| && receiver.Valid()
      invariant receiver.history == old(receiver.history) + bytes[..i]
    {
      receiver.ProcessIncomingByte(bytes[i]);
      assert bytes[..i + 1] == bytes[..i] + [bytes[i]];
      i := i + 1;
    }
    assert bytes[..i] == bytes;
  }
}
