/**
 ASP frames (am-ssm-spi-protocol.c, ssm-spi-protocol.c): magic, payload length, message id,
 payload, checksum.
 */
module AspFrames {
  import opened Basics

  /** ASP_START_FRAME_MAGIC. */
  const MAGIC: Byte := 0xA5

  /** ASP_MAX_PAYLOAD, and the packed size of a sensor record, which is the larger of the two. */
  const PAYLOAD_BYTES := 210
  const SENSOR_DATA_BYTES := 214

  /** sizeof(asp_payload_t). */
  const MAX_PAYLOAD := if PAYLOAD_BYTES < SENSOR_DATA_BYTES then SENSOR_DATA_BYTES else PAYLOAD_BYTES

  const CONFIG: Byte := 0x10
  const COMMAND: Byte := 0x11
  const SET_RTC: Byte := 0x12
  const GET_SENSOR_DATA_ENTRIES: Byte := 0x13
  const STATUS: Byte := 0x20
  const SENSOR_DATA: Byte := 0x21
  const ATTN_SRC: Byte := 0x23
  const NUM_DATA_ENTRIES: Byte := 0x24
  const ATTN_SRC_ACK: Byte := 0x25
  const ACK: Byte := 0x91
  const NACK: Byte := 0x92

  datatype Frame = Frame(id: Byte, payload: seq<Byte>)

  ghost predicate Sendable(f: Frame) {
    |f.payload| <= MAX_PAYLOAD
  }

  function Sum(s: seq<Byte>): nat {
    if s == [] then 0 else Sum(s[..|s| - 1]) + s[|s| - 1] as nat
  }

  /** Length, id and payload, added up. */
  function Total(f: Frame): nat {
    |f.payload| + f.id as nat + Sum(f.payload)
  }

  /** The byte that makes length, id, payload and checksum add up to a multiple of 256. */
  function Checksum(f: Frame): (c: Byte)
    ensures (Total(f) + c as nat) % 256 == 0
  {
    (256 - Total(f) % 256) % 256
  }

  function Bytes(f: Frame): (s: seq<Byte>)
    requires Sendable(f)
    ensures |s| == |f.payload| + 4
    ensures s[0] == MAGIC && s[1] as nat == |f.payload| && s[2] == f.id && s[3..|s| - 1] == f.payload
  {
    var length: Byte := |f.payload|;
    [MAGIC, length, f.id] + f.payload + [Checksum(f)]
  }

  lemma {:induction false} SumAppend(a: seq<Byte>, b: seq<Byte>)
    ensures Sum(a + b) == Sum(a) + Sum(b)
  {
    if b == [] {
      assert a + b == a;
    } else {
      var n := |b| - 1;
      SumAppend(a, b[..n]);
      assert (a + b)[..|a + b| - 1] == a + b[..n];
    }
  }

  /** No other checksum makes the sum come out. */
  lemma ChecksumIsUnique(f: Frame, c: Byte)
    requires (Total(f) + c as nat) % 256 == 0
    ensures c == Checksum(f)
  {
  }

  lemma OtherTotal(f: Frame, g: Frame)
    requires Total(f) % 256 != Total(g) % 256
    ensures Checksum(f) != Checksum(g)
  {
    hide Total;
    Complement(Total(f) % 256);
    Complement(Total(g) % 256);
  }

  lemma Complement(r: nat)
    requires r < 256
    ensures (256 - r) % 256 == if r == 0 then 0 else 256 - r
  {
  }

  /** Changing one payload byte changes the checksum. */
  lemma ChecksumSeesOneByte(f: Frame, i: nat, b: Byte)
    requires i < |f.payload| && b != f.payload[i]
    ensures Checksum(f.(payload := f.payload[i := b])) != Checksum(f)
  {
    hide Sum, Checksum;
    SumSeesOneByte(f.payload, i, b);
    ResidueMoves(Total(f), b as int - f.payload[i] as int);
    OtherTotal(f, f.(payload := f.payload[i := b]));
  }

  lemma SumSeesOneByte(p: seq<Byte>, i: nat, b: Byte)
    requires i < |p|
    ensures Sum(p[i := b]) == Sum(p) + b as int - p[i] as int
  {
    SumAppend(p[..i], [p[i]]);
    SumAppend(p[..i] + [p[i]], p[i + 1..]);
    SumAppend(p[..i], [b]);
    SumAppend(p[..i] + [b], p[i + 1..]);
    assert p == p[..i] + [p[i]] + p[i + 1..];
    assert p[i := b] == p[..i] + [b] + p[i + 1..];
    assert Sum([b]) == b as nat && Sum([p[i]]) == p[i] as nat;
  }

  /** So does changing the id. */
  lemma ChecksumSeesId(f: Frame, id: Byte)
    requires id != f.id
    ensures Checksum(f.(id := id)) != Checksum(f)
  {
    hide Sum, Checksum;
    ResidueMoves(Total(f), id as int - f.id as int);
    OtherTotal(f, f.(id := id));
  }

  lemma ResidueMoves(total: nat, d: int)
    requires -256 < d < 256 && d != 0 && total + d >= 0
    ensures total % 256 != (total + d) % 256
  {
  }

  lemma SumStep(s: seq<Byte>, i: nat)
    requires i < |s|
    ensures Sum(s[..i + 1]) == Sum(s[..i]) + s[i] as nat
  {
    assert s[..i + 1][..i] == s[..i];
  }

  lemma AddInByte(total: nat, b: Byte)
    ensures (total % 256 + b as nat) % 256 == (total + b as nat) % 256
  {
  }

  /** Two's complement in a byte. */
  lemma Negated(total: nat)
    ensures (255 - total % 256 + 1) % 256 == (256 - total % 256) % 256
  {
  }

  /** The frame in a message buffer asp_msg_t. */
  ghost function FrameIn(message: seq<Byte>): Frame
    requires |message| == MAX_PAYLOAD + 4 && message[1] as nat <= MAX_PAYLOAD
  {
    Frame(message[2], message[3..3 + message[1] as nat])
  }

  /** ASP_ComputeChecksum, with its 8-bit sum. */
  method ComputeChecksum(message: array<Byte>) returns (checksum: Byte)
    requires message.Length == MAX_PAYLOAD + 4 && message[1] as nat <= MAX_PAYLOAD
    ensures checksum == Checksum(FrameIn(message[..]))
  {
    hide Sum;
    ghost var f := FrameIn(message[..]);
    ghost var header := message[1] as nat + message[2] as nat;
    var length := message[1] as nat;
    checksum := (length + message[2] as nat) % 256;
    var i := 0;
    EmptySum(f.payload);
    while i < length
      invariant i <= length
      invariant checksum as nat == (header + Sum(f.payload[..i])) % 256
    {
      SumStep(f.payload, i);
      AddInByte(header + Sum(f.payload[..i]), message[3 + i]);
      checksum := (checksum as nat + message[3 + i] as nat) % 256;
      i := i + 1;
    }
    assert f.payload[..i] == f.payload;
    Negated(header + Sum(f.payload));
    checksum := 255 - checksum as nat;
    checksum := (checksum as nat + 1) % 256;
  }

  lemma EmptySum(s: seq<Byte>)
    ensures Sum(s[..0]) == 0
  {
  }

  /** The transmit buffer Tx_Msg, and what was passed to uC_SPI_Tx. */
  class Transmitter {
    const bytes: array<Byte>
    var sent: seq<seq<Byte>>

    ghost predicate Valid()
      reads this
    {
      bytes.Length == MAX_PAYLOAD + 4
    }

    constructor ()
      ensures Valid() && fresh(bytes) && sent == []
    {
      bytes := new Byte[MAX_PAYLOAD + 4](i => 0);
      sent := [];
    }

    /** What every builder does around filling its own payload. */
    method Transmit(id: Byte, payload: seq<Byte>)
      requires Valid() && |payload| <= MAX_PAYLOAD
      modifies this, bytes
      ensures Valid() && sent == old(sent) + [Bytes(Frame(id, payload))]
    {
      bytes[0] := MAGIC;
      bytes[1] := |payload|;
      bytes[2] := id;
      var i := 0;
      while i < |payload|
        invariant i <= |payload|
        invariant bytes[0] == MAGIC && bytes[1] as nat == |payload| && bytes[2] == id
        invariant bytes[3..3 + i] == payload[..i]
        invariant sent == old(sent)
        modifies bytes
      {
        bytes[3 + i] := payload[i];
        assert bytes[3..3 + (i + 1)] == bytes[3..3 + i] + [payload[i]];
        i := i + 1;
      }
      var checksum := ComputeChecksum(bytes);
      bytes[bytes[1] as nat + 3] := checksum;
      assert bytes[3..3 + |payload|] == payload;
      assert bytes[..|payload| + 4] == Bytes(Frame(id, payload));
      sent := sent + [bytes[..bytes[1] as nat + 4]];
    }

    /** ASP_TransmitAck. */
    method TransmitAck(ackId: Byte)
      requires Valid()
      modifies this, bytes
      ensures Valid() && sent == old(sent) + [Bytes(Frame(ACK, [ackId]))]
    {
      Transmit(ACK, [ackId]);
    }

    /** The frame that ASP_HandleErroneousMsg sends. */
    method TransmitNack()
      requires Valid()
      modifies this, bytes
      ensures Valid() && sent == old(sent) + [Bytes(Frame(NACK, []))]
    {
      Transmit(NACK, []);
    }
  }
}
