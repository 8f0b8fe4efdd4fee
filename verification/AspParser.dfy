/**
 The AM's parser (ASP_ProcessIncomingBuffer): it is given a whole answer at once.
 */
module AspParser {
  import opened AspFrames
  import opened Basics

  datatype Code = ErroneousMsg | InvalidCs | InvalidMsgId | InvalidLen | ValidMsg

  /** The ids that the parser lets through. */
  predicate Accepted(id: Byte) {
    id in {CONFIG, COMMAND, SET_RTC, NUM_DATA_ENTRIES, STATUS, ATTN_SRC, ATTN_SRC_ACK, SENSOR_DATA, ACK, NACK}
  }

  ghost predicate Answer(f: Frame) {
    Sendable(f) && Accepted(f.id)
  }

  /** What a buffer is judged to be. */
  ghost function Verdict(s: seq<Byte>): Code {
    if |s| > 0 && s[0] != MAGIC then ErroneousMsg
    else if |s| > 1 && s[1] as nat > MAX_PAYLOAD then InvalidLen
    else if |s| > 2 && !Accepted(s[2]) then InvalidMsgId
    else if |s| > 3 && exists k :: s[1] as nat + 3 <= k < |s| && s[k] != Checksum(Claimed(s)) then InvalidCs
    else ValidMsg
  }

  /** The frame that the header announces, in a buffer that holds all of its payload. */
  ghost function Claimed(s: seq<Byte>): Frame
    requires |s| > 2
  {
    if |s| < s[1] as nat + 3 then Frame(s[2], s[3..]) else Frame(s[2], s[3..s[1] as nat + 3])
  }

  /** A frame is a valid message. */
  lemma FrameIsValid(f: Frame)
    requires Answer(f)
    ensures Verdict(Bytes(f)) == ValidMsg && Claimed(Bytes(f)) == f
  {
    var s := Bytes(f);
    assert Claimed(s) == f;
  }

  /** At the exact length, and with an acceptable header, nothing but the frame is. */
  lemma ExactLengthDecides(s: seq<Byte>)
    requires |s| > 3 && |s| == s[1] as nat + 4
    ensures Verdict(s) == ValidMsg <==> exists f :: Answer(f) && s == Bytes(f)
  {
    if Verdict(s) == ValidMsg {
      assert s[|s| - 1] == Checksum(Claimed(s));
      assert s == Bytes(Claimed(s));
    }
    if f :| Answer(f) && s == Bytes(f) {
      FrameIsValid(f);
    }
  }

  /** One wrong payload byte or a wrong checksum is noticed. */
  lemma OneWrongByte(f: Frame, i: nat, b: Byte)
    requires Answer(f) && 3 <= i < |f.payload| + 4 && b != Bytes(f)[i]
    ensures Verdict(Bytes(f)[i := b]) == InvalidCs
  {
    var s := Bytes(f)[i := b];
    var last := |s| - 1;
    if i < last {
      ChecksumSeesOneByte(f, i - 3, b);
      assert Claimed(s) == f.(payload := f.payload[i - 3 := b]);
    } else {
      assert Claimed(s) == f;
    }
    assert s[last] != Checksum(Claimed(s));
  }

  /** A wrong id is noticed too, as a bad id or by the checksum. */
  lemma WrongId(f: Frame, id: Byte)
    requires Answer(f) && id != f.id
    ensures Verdict(Bytes(f)[2 := id]) == if Accepted(id) then InvalidCs else InvalidMsgId
  {
    var s := Bytes(f)[2 := id];
    ChecksumSeesId(f, id);
    assert Claimed(s) == f.(id := id);
    assert s[|s| - 1] != Checksum(Claimed(s));
  }

  /** A frame is valid exactly if its id is one of ten; else the id is called invalid. */
  lemma IdDecidesFrame(f: Frame)
    requires Sendable(f)
    ensures Verdict(Bytes(f)) ==
              if f.id in {CONFIG, COMMAND, SET_RTC, NUM_DATA_ENTRIES, STATUS, ATTN_SRC, ATTN_SRC_ACK, SENSOR_DATA, ACK, NACK}
              then ValidMsg else InvalidMsgId
  {
    if Accepted(f.id) {
      FrameIsValid(f);
    }
  }

  /** A wrong start byte or too large a length in the header is told apart, whatever follows. */
  lemma WrongHeader(f: Frame, rest: seq<Byte>, b: Byte)
    requires Sendable(f)
    ensures b != MAGIC ==> Verdict(Bytes(f)[0 := b] + rest) == ErroneousMsg
    ensures b > 214 ==> Verdict(Bytes(f)[1 := b] + rest) == InvalidLen
  {
    hide Checksum;
    assert |Bytes(f)[0 := b] + rest| > 0 && (Bytes(f)[0 := b] + rest)[0] == b;
    assert |Bytes(f)[1 := b] + rest| > 1 && (Bytes(f)[1 := b] + rest)[1] == b && (Bytes(f)[1 := b] + rest)[0] == MAGIC;
  }

  /** A frame, and then nothing but copies of its checksum. */
  ghost predicate Overlong(s: seq<Byte>, f: Frame)
    requires Sendable(f)
  {
    Bytes(f) <= s && forall k :: |f.payload| + 4 <= k < |s| ==> s[k] == Checksum(f)
  }

  /**
   Without the right length the verdict says less: every part of a frame that is cut short
   passes as well, and so does a frame that is followed by copies of its checksum.  Nothing
   else does.
   */
  lemma ValidExactlyWhen(s: seq<Byte>)
    ensures Verdict(s) == ValidMsg <==> exists f :: Answer(f) && (s <= Bytes(f) || Overlong(s, f))
  {
    hide Verdict, Bytes, Overlong;
    if f :| Answer(f) && s <= Bytes(f) {
      PrefixIsValid(s, f);
    }
    if f :| Answer(f) && Overlong(s, f) {
      OverlongIsValid(s, f);
    }
    if Verdict(s) == ValidMsg {
      ValidHasAFrame(s);
    }
  }

  lemma ValidHasAFrame(s: seq<Byte>)
    requires Verdict(s) == ValidMsg
    ensures exists f :: Answer(f) && (s <= Bytes(f) || Overlong(s, f))
  {
    if |s| > 3 && |s| >= s[1] as nat + 4 {
      var f := Claimed(s);
      assert s[|f.payload| + 3] == Checksum(f);
      assert Overlong(s, f);
    } else {
      var f := Completed(s);
      assert s <= Bytes(f);
    }
  }

  lemma PrefixIsValid(s: seq<Byte>, f: Frame)
    requires Answer(f) && s <= Bytes(f)
    ensures Verdict(s) == ValidMsg
  {
    if |s| > 3 {
      forall k | s[1] as nat + 3 <= k < |s| ensures s[k] == Checksum(Claimed(s)) {
        assert s == Bytes(f);
        assert Claimed(s) == f;
      }
    }
  }

  lemma OverlongIsValid(s: seq<Byte>, f: Frame)
    requires Answer(f) && Overlong(s, f)
    ensures Verdict(s) == ValidMsg
  {
    var n := |f.payload| + 4;
    assert Bytes(f) == s[..n];
    assert Claimed(s) == f by {
      assert s[3..n - 1] == s[..n][3..n - 1];
    }
    forall k | n - 1 <= k < |s| ensures s[k] == Checksum(f) {
      assert s[n - 1] == s[..n][n - 1];
    }
  }

  /** Some frame that a truncated buffer is the start of. */
  ghost function Completed(s: seq<Byte>): (f: Frame)
    requires Verdict(s) == ValidMsg && (|s| <= 3 || |s| < s[1] as nat + 4)
    ensures Answer(f) && s <= Bytes(f)
  {
    var length: nat := if |s| > 1 then s[1] as nat else 0;
    var id := if |s| > 2 then s[2] else ACK;
    var payload := seq(length, i requires 0 <= i < length => if 3 + i < |s| then s[3 + i] else 0);
    Frame(id, payload)
  }

  datatype State = LookForStart | ReceiveLen | ReceiveId | ReceivePayload | ReceiveChecksum

  /** Where the parser stands after the bytes `s`, all of which it took. */
  ghost predicate Reached(state: State, expected: nat, received: nat, message: seq<Byte>, s: seq<Byte>)
    requires |message| == MAX_PAYLOAD + 4
  {
    && (|s| > 0 ==> s[0] == MAGIC)
    && (|s| > 1 ==> message[1] == s[1] && s[1] as nat <= MAX_PAYLOAD)
    && (|s| > 2 ==> message[2] == s[2] && Accepted(s[2]))
    && match state
       case LookForStart => s == []
       case ReceiveLen => |s| == 1
       case ReceiveId => |s| == 2
       case ReceivePayload =>
         |s| == received + 3 && received < expected == message[1] as nat && message[3..3 + received] == s[3..]
       case ReceiveChecksum =>
         && |s| >= message[1] as nat + 3
         && message[3..3 + message[1] as nat] == s[3..3 + message[1] as nat]
         && forall k :: message[1] as nat + 3 <= k < |s| ==> s[k] == Checksum(FrameIn(message))
  }

  lemma ReachedIsValid(state: State, expected: nat, received: nat, message: seq<Byte>, s: seq<Byte>)
    requires |message| == MAX_PAYLOAD + 4 && Reached(state, expected, received, message, s)
    ensures Verdict(s) == ValidMsg
    ensures |s| > 2 && |s| >= s[1] as nat + 3 ==> message[1] as nat <= MAX_PAYLOAD && FrameIn(message) == Claimed(s)
  {
    if |s| > 2 && |s| >= s[1] as nat + 3 {
      assert FrameIn(message).payload == Claimed(s).payload;
    }
  }

  /** Once a byte was refused, the bytes behind it do not count. */
  lemma RefusedStays(s: seq<Byte>, t: seq<Byte>)
    requires Verdict(s) != ValidMsg
    ensures Verdict(s + t) == Verdict(s)
  {
    if Verdict(s) == InvalidCs {
      var k :| s[1] as nat + 3 <= k < |s| && s[k] != Checksum(Claimed(s));
      assert Claimed(s + t).payload == Claimed(s).payload;
      assert (s + t)[k] == s[k];
    }
  }

  lemma Nothing(expected: nat, received: nat, message: seq<Byte>)
    requires |message| == MAX_PAYLOAD + 4
    ensures Reached(LookForStart, expected, received, message, [])
  {
  }

  /** Where a byte that is taken leads. */
  lemma Taken(state: State, expected: nat, received: nat, message: seq<Byte>, s: seq<Byte>, byte: Byte)
    requires |message| == MAX_PAYLOAD + 4 && Reached(state, expected, received, message, s)
    ensures match state
            case LookForStart => byte == MAGIC ==> Reached(ReceiveLen, 0, received, message, s + [byte])
            case ReceiveLen => byte as nat <= MAX_PAYLOAD ==>
              Reached(ReceiveId, expected, received, message[1 := byte], s + [byte])
            case ReceiveId => Accepted(byte) ==>
              if message[1] > 0 then Reached(ReceivePayload, message[1] as nat, 0, message[2 := byte], s + [byte])
              else Reached(ReceiveChecksum, expected, received, message[2 := byte], s + [byte])
            case ReceivePayload =>
              && received < MAX_PAYLOAD
              && Reached(if received + 1 >= expected then ReceiveChecksum else ReceivePayload,
                   expected, received + 1, message[3 + received := byte], s + [byte])
            case ReceiveChecksum =>
              && message[1] as nat <= MAX_PAYLOAD
              && (byte == Checksum(FrameIn(message)) ==> Reached(state, expected, received, message, s + [byte]))
  {
    hide Checksum, Accepted;
    var t := s + [byte];
    match state
    case LookForStart =>
    case ReceiveLen =>
    case ReceiveId =>
    case ReceivePayload =>
      assert message[3 + received := byte][3..3 + (received + 1)] == message[3..3 + received] + [byte];
      assert t[3..] == s[3..] + [byte];
    case ReceiveChecksum =>
      assert message[3..3 + message[1] as nat] == t[3..3 + message[1] as nat];
  }

  /** What a byte that is not taken makes of the buffer. */
  lemma Refused(state: State, expected: nat, received: nat, message: seq<Byte>, s: seq<Byte>, byte: Byte)
    requires |message| == MAX_PAYLOAD + 4 && Reached(state, expected, received, message, s)
    ensures match state
            case LookForStart => byte != MAGIC ==> Verdict(s + [byte]) == ErroneousMsg
            case ReceiveLen => byte as nat > MAX_PAYLOAD ==> Verdict(s + [byte]) == InvalidLen
            case ReceiveId => !Accepted(byte) ==> Verdict(s + [byte]) == InvalidMsgId
            case ReceivePayload => true
            case ReceiveChecksum =>
              message[1] as nat <= MAX_PAYLOAD && byte != Checksum(FrameIn(message)) ==> Verdict(s + [byte]) == InvalidCs
  {
    hide Checksum, Accepted;
    if state == ReceiveChecksum && message[1] as nat <= MAX_PAYLOAD {
      var t := s + [byte];
      assert t[3..t[1] as nat + 3] == s[3..s[1] as nat + 3];
      assert Claimed(t) == FrameIn(message);
      assert t[|s|] == byte;
    }
  }

  /** ASP_ProcessIncomingBuffer; `message` is *formattedMsg. */
  method ProcessIncomingBuffer(bytes: array<Byte>, bufferLen: nat) returns (code: Code, message: array<Byte>)
    requires bufferLen <= bytes.Length
    ensures fresh(message) && message.Length == MAX_PAYLOAD + 4
    ensures code == Verdict(bytes[..bufferLen])
    ensures code == ValidMsg && bufferLen > 2 && bufferLen >= bytes[1] as nat + 3 ==>
              message[1] as nat <= MAX_PAYLOAD && FrameIn(message[..]) == Claimed(bytes[..bufferLen])
  {
    hide Verdict, Claimed, Checksum, Reached, Accepted;
    message := new Byte[MAX_PAYLOAD + 4](i => 0);
    var expected: nat, received: nat := 0, 0;
    var state := LookForStart;
    Nothing(expected, received, message[..]);
    ghost var s := bytes[..bufferLen];
    code := ValidMsg;
    var i := 0;
    while i < bufferLen
      invariant i <= bufferLen && code == ValidMsg
      invariant bytes[..bufferLen] == s
      invariant Reached(state, expected, received, message[..], s[..i])
      decreases bufferLen - i
      modifies message
    {
      var byte := bytes[i];
      assert s[..i + 1] == s[..i] + [byte] && s == s[..i + 1] + s[i + 1..];
      Taken(state, expected, received, message[..], s[..i], byte);
      Refused(state, expected, received, message[..], s[..i], byte);
      match state {
        case LookForStart =>
          if byte == MAGIC {
            expected := 0;
            state := ReceiveLen;
          } else {
            code := ErroneousMsg;
          }
        case ReceiveLen =>
          if byte as nat <= MAX_PAYLOAD {
            message[1] := byte;
            state := ReceiveId;
          } else {
            code := InvalidLen;
          }
        case ReceiveId =>
          if Accepted(byte) {
            message[2] := byte;
            if message[1] > 0 {
              expected := message[1] as nat;
              received := 0;
              state := ReceivePayload;
            } else {
              state := ReceiveChecksum;
            }
          } else {
            code := InvalidMsgId;
          }
        case ReceivePayload =>
          message[3 + received] := byte;
          received := received + 1;
          if received >= expected {
            state := ReceiveChecksum;
          }
        case ReceiveChecksum =>
          var checksum := ComputeChecksum(message);
          if checksum == byte {
            code := ValidMsg;
          } else {
            code := InvalidCs;
          }
      }
      if code != ValidMsg {
        RefusedStays(s[..i + 1], s[i + 1..]);
        break;
      }
      i := i + 1;
    }
    if code == ValidMsg {
      assert s[..i] == s;
      ReachedIsValid(state, expected, received, message[..], s);
    }
  }

  /** What the SSM's builders put on the wire, the AM reads back. */
  method Exchange(transmitter: Transmitter, id: Byte, payload: seq<Byte>) returns (code: Code, answer: Frame)
    requires transmitter.Valid() && Answer(Frame(id, payload))
    modifies transmitter, transmitter.bytes
    ensures code == ValidMsg && answer == Frame(id, payload)
  {
    transmitter.Transmit(id, payload);
    var wire := transmitter.sent[|transmitter.sent| - 1];
    FrameIsValid(Frame(id, payload));
    var bytes := new Byte[|wire|](i requires 0 <= i < |wire| => wire[i]);
    assert bytes[..|wire|] == wire;
    var message;
    code, message := ProcessIncomingBuffer(bytes, |wire|);
    answer := Frame(message[2], message[3..3 + message[1] as nat]);
    assert FrameIn(message[..]) == answer;
  }
}
