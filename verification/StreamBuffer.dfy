/**
 Stream and message buffers (stream_buffer.c) used by one caller at a time: a byte ring
 with one byte never used, carrying a stream of bytes or whole messages with a length in
 front.  MessageChannel treats a writer and a reader that interleave.
 */
module StreamBuffer {
  import opened Basics

  /** sizeof( size_t ): the bytes that hold the length of a message. */
  const LENGTH_BYTES: nat := 4
  const SIZE_LIMIT: nat := 0x1_0000_0000

  function LengthBytes(n: nat): (b: seq<Byte>)
    requires n < SIZE_LIMIT
    ensures |b| == LENGTH_BYTES
  {
    [n % 256, n / 0x100 % 256, n / 0x1_0000 % 256, n / 0x100_0000 % 256]
  }

  function LengthOf(b: seq<Byte>): (n: nat)
    requires |b| == LENGTH_BYTES
    ensures n < SIZE_LIMIT
  {
    b[0] as nat + 0x100 * (b[1] as nat) + 0x1_0000 * (b[2] as nat) + 0x100_0000 * (b[3] as nat)
  }

  lemma LengthRoundTrip(n: nat)
    requires n < SIZE_LIMIT
    ensures LengthOf(LengthBytes(n)) == n
  {
    var a := n / 256;
    var b := a / 256;
    assert n / 0x1_0000 == b && n / 0x100_0000 == b / 256 < 256;
    assert n == n % 256 + 256 * a && a == a % 256 + 256 * b && b == b % 256 + 256 * (b / 256);
  }

  ghost predicate Sendable(m: seq<Byte>) { 0 < |m| < SIZE_LIMIT }

  function Frame(m: seq<Byte>): seq<Byte>
    requires |m| < SIZE_LIMIT
  {
    LengthBytes(|m|) + m
  }

  /** The bytes that a queue of messages occupies. */
  ghost function Frames(ms: seq<seq<Byte>>): seq<Byte>
    requires forall m :: m in ms ==> Sendable(m)
  {
    if ms == [] then []
    else
      assert Sendable(ms[0]);
      Frame(ms[0]) + Frames(ms[1..])
  }

  lemma {:induction false} FramesAppend(ms: seq<seq<Byte>>, m: seq<Byte>)
    requires (forall x :: x in ms ==> Sendable(x)) && Sendable(m)
    ensures Frames(ms + [m]) == Frames(ms) + Frame(m)
  {
    if ms == [] {
      assert ms + [m] == [m];
      assert Frames([m]) == Frame(m) + Frames([]);
    } else {
      assert Sendable(ms[0]);
      assert (ms + [m])[1..] == ms[1..] + [m];
      FramesAppend(ms[1..], m);
      assert Frame(ms[0]) + (Frames(ms[1..]) + Frame(m)) == (Frame(ms[0]) + Frames(ms[1..])) + Frame(m);
    }
  }

  function Min(a: nat, b: nat): nat { if a < b then a else b }

  /** The index `i` after `start`, at most one round on. */
  function At(start: nat, i: nat, n: nat): nat { if start + i >= n then start + i - n else start + i }

  /** How far `head` is ahead of `tail`. */
  function Distance(tail: nat, head: nat, n: nat): nat
    requires tail < n && head < n
  {
    if tail <= head then head - tail else n + head - tail
  }

  /** The bytes from `tail` up to `head` of a ring. */
  ghost function Between(ring: seq<Byte>, tail: nat, head: nat): (s: seq<Byte>)
    requires tail < |ring| && head < |ring|
    ensures |s| == Distance(tail, head, |ring|)
    ensures forall i :: 0 <= i < |s| ==> s[i] == ring[At(tail, i, |ring|)]
  {
    seq(Distance(tail, head, |ring|), i requires 0 <= i < Distance(tail, head, |ring|) => ring[At(tail, i, |ring|)])
  }

  /** `data` stored from `head` on, in up to two pieces, lengthens what the ring holds. */
  lemma WriteExtends(was: seq<Byte>, now: seq<Byte>, tail: nat, head: nat, data: seq<Byte>)
    requires |now| == |was| && tail < |was| && head < |was| && Distance(tail, head, |was|) + |data| < |was|
    requires forall i :: 0 <= i < |data| ==> now[At(head, i, |was|)] == data[i]
    requires forall i :: 0 <= i < Distance(tail, head, |was|) ==> now[At(tail, i, |was|)] == was[At(tail, i, |was|)]
    ensures Between(now, tail, At(head, |data|, |was|)) == Between(was, tail, head) + data
  {
    var n := |was|;
    var d := Distance(tail, head, n);
    var s := Between(now, tail, At(head, |data|, n));
    assert |s| == d + |data|;
    forall i | 0 <= i < |s| ensures s[i] == (Between(was, tail, head) + data)[i] {
      if d <= i {
        assert At(tail, i, n) == At(head, i - d, n);
        assert now[At(head, i - d, n)] == data[i - d];
      } else {
        assert now[At(tail, i, n)] == was[At(tail, i, n)];
      }
    }
  }

  /** Moving the tail on drops a prefix, which was read in up to two pieces. */
  lemma ReadShortens(ring: seq<Byte>, tail: nat, head: nat, count: nat)
    requires tail < |ring| && head < |ring| && count <= Distance(tail, head, |ring|)
    ensures var first := Min(|ring| - tail, count);
            count - first <= |ring| && Between(ring, tail, head)[..count] == ring[tail..tail + first] + ring[..count - first]
    ensures Between(ring, At(tail, count, |ring|), head) == Between(ring, tail, head)[count..]
  {
    var s := Between(ring, tail, head);
    var r := Between(ring, At(tail, count, |ring|), head);
    assert |r| == |s| - count;
    forall i | 0 <= i < |r| ensures r[i] == s[count + i] {
      assert s[count + i] == ring[At(tail, count + i, |ring|)];
    }
  }

  class StreamBuffer {
    const buffer: array<Byte>
    const isMessageBuffer: bool
    var head: nat
    var tail: nat
    ghost var messages: seq<seq<Byte>>

    /** The indices are in range; a message buffer holds the frames of `messages`. */
    ghost predicate Valid()
      reads this, buffer
    {
      && head < buffer.Length && tail < buffer.Length <= SIZE_LIMIT
      && (isMessageBuffer ==> (forall m :: m in messages ==> Sendable(m)) && Contents() == Frames(messages))
    }

    ghost function Contents(): seq<Byte>
      reads this, buffer
      requires head < buffer.Length && tail < buffer.Length
    {
      Between(buffer[..], tail, head)
    }

    /** xStreamBufferGenericCreate: one byte more than asked for. */
    constructor (size: nat, isMessageBuffer: bool)
      requires LENGTH_BYTES < size < SIZE_LIMIT
      ensures Valid() && fresh(buffer) && buffer.Length == size + 1 && this.isMessageBuffer == isMessageBuffer
      ensures Contents() == [] && messages == []
    {
      buffer := new Byte[size + 1];
      this.isMessageBuffer := isMessageBuffer;
      head, tail, messages := 0, 0, [];
    }

    /** prvBytesInBuffer. */
    function BytesInBuffer(): (count: nat)
      reads this, buffer
      requires head < buffer.Length && tail < buffer.Length
      ensures count == |Contents()|
    {
      var count := buffer.Length + head - tail;
      if count >= buffer.Length then count - buffer.Length else count
    }

    /** xStreamBufferSpacesAvailable: with the bytes in the buffer it always makes the length less one. */
    function SpacesAvailable(): (space: nat)
      reads this, buffer
      requires head < buffer.Length && tail < buffer.Length
      ensures space + BytesInBuffer() == buffer.Length - 1
    {
      var space := buffer.Length + tail - head - 1;
      if space >= buffer.Length then space - buffer.Length else space
    }

    /** memcpy into the storage. */
    method CopyIn(at: nat, data: seq<Byte>)
      requires at + |data| <= buffer.Length
      modifies buffer
      ensures forall i :: 0 <= i < |data| ==> buffer[at + i] == data[i]
      ensures forall i :: 0 <= i < buffer.Length && (i < at || at + |data| <= i) ==> buffer[i] == old(buffer[i])
    {
      forall i | 0 <= i < |data| {
        buffer[at + i] := data[i];
      }
    }

    /** prvWriteBytesToBuffer. */
    method WriteBytes(data: seq<Byte>)
      requires head < buffer.Length && tail < buffer.Length && 0 < |data| <= SpacesAvailable()
      modifies this`head, buffer
      ensures head < buffer.Length && Contents() == old(Contents()) + data
    {
      var next := head;
      var first := Min(buffer.Length - next, |data|);
      CopyIn(next, data[..first]);
      if |data| > first {
        CopyIn(0, data[first..]);
      }
      WriteExtends(old(buffer[..]), buffer[..], tail, head, data);
      next := next + |data|;
      if next >= buffer.Length {
        next := next - buffer.Length;
      }
      head := next;
    }

    /** prvReadBytesFromBuffer. */
    method ReadBytes(maxCount: nat, available: nat) returns (data: seq<Byte>)
      requires head < buffer.Length && tail < buffer.Length && available <= |Contents()|
      modifies this`tail
      ensures tail < buffer.Length && |data| == Min(available, maxCount)
      ensures old(Contents()) == data + Contents()
    {
      hide Between;
      var count := Min(available, maxCount);
      data := [];
      if count > 0 {
        ghost var was := Contents();
        assert was == was[..count] + was[count..];
        ReadShortens(buffer[..], tail, head, count);
        var next := tail;
        var first := Min(buffer.Length - next, count);
        data := buffer[next..next + first];
        if count > first {
          data := data + buffer[..count - first];
        }
        assert data == was[..count];
        next := next + count;
        if next >= buffer.Length {
          next := next - buffer.Length;
        }
        tail := next;
      }
    }

    /** xStreamBufferSend without blocking, with prvWriteMessageToBuffer. */
    method Send(data: seq<Byte>) returns (sent: nat)
      requires Valid() && 0 < |data| && |data| + LENGTH_BYTES < SIZE_LIMIT
      modifies this`head, this`messages, buffer
      ensures Valid()
      ensures !isMessageBuffer ==>
                sent == Min(|data|, old(SpacesAvailable())) && Contents() == old(Contents()) + data[..sent]
      ensures isMessageBuffer ==>
                && sent == (if |data| + LENGTH_BYTES <= old(SpacesAvailable()) then |data| else 0)
                && messages == (if sent == 0 then old(messages) else old(messages) + [data])
    {
      hide Frames, Between;
      var space := SpacesAvailable();
      sent := 0;
      if space == 0 {
      } else if !isMessageBuffer {
        sent := Min(|data|, space);
        WriteBytes(data[..sent]);
      } else if space >= |data| + LENGTH_BYTES {
        FramesAppend(messages, data);
        WriteBytes(LengthBytes(|data|));
        WriteBytes(data);
        assert old(Contents()) + LengthBytes(|data|) + data == old(Contents()) + Frame(data);
        sent := |data|;
        messages := messages + [data];
      }
    }

    /** xStreamBufferReceive without blocking, with prvReadMessageFromBuffer. */
    method Receive(maxLength: nat) returns (data: seq<Byte>)
      requires Valid()
      modifies this`tail, this`messages
      ensures Valid()
      ensures !isMessageBuffer ==> old(Contents()) == data + Contents() && |data| == Min(maxLength, old(|Contents()|))
      ensures isMessageBuffer && old(messages) == [] ==> data == [] && messages == []
      ensures isMessageBuffer && old(messages) != [] && |old(messages)[0]| <= maxLength ==>
                data == old(messages)[0] && messages == old(messages)[1..]
      ensures isMessageBuffer && old(messages) != [] && maxLength < |old(messages)[0]| ==>
                data == [] && messages == old(messages) && Contents() == old(Contents())
    {
      hide Frames, Between;
      var available := BytesInBuffer();
      data := [];
      if !isMessageBuffer {
        if available > 0 {
          data := ReadBytes(maxLength, available);
        }
      } else {
        FramesFront(messages);
        if available > LENGTH_BYTES {
          var original := tail;
          var prefix := ReadBytes(LENGTH_BYTES, available);
          var rest := Contents();
          SplitFrame(messages[0], prefix, rest, Frames(messages[1..]));
          var next := LengthOf(prefix);
          if next > maxLength {
            tail := original;
            next := 0;
          }
          data := ReadBytes(next, available - LENGTH_BYTES);
          if next != 0 {
            SplitAt(data, Contents(), messages[0], Frames(messages[1..]));
            messages := messages[1..];
          }
        }
      }
    }
  }

  /** What a queue of messages starts with. */
  lemma FramesFront(ms: seq<seq<Byte>>)
    requires forall m :: m in ms ==> Sendable(m)
    ensures ms == [] <==> |Frames(ms)| <= LENGTH_BYTES
    ensures ms == [] ==> Frames(ms) == []
    ensures ms != [] ==> Sendable(ms[0]) && Frames(ms) == Frame(ms[0]) + Frames(ms[1..])
    ensures forall m :: m in (if ms == [] then [] else ms[1..]) ==> Sendable(m)
  {
    if ms != [] {
      assert Sendable(ms[0]);
    }
  }

  lemma SplitAt(a: seq<Byte>, b: seq<Byte>, c: seq<Byte>, d: seq<Byte>)
    requires a + b == c + d && |a| == |c|
    ensures a == c && b == d
  {
    assert (a + b)[..|a|] == a && (c + d)[..|c|] == c;
    assert (a + b)[|a|..] == b && (c + d)[|c|..] == d;
  }

  lemma SplitFrame(m: seq<Byte>, prefix: seq<Byte>, rest: seq<Byte>, others: seq<Byte>)
    requires Sendable(m) && prefix + rest == Frame(m) + others && |prefix| == LENGTH_BYTES
    ensures LengthOf(prefix) == |m| && rest == m + others
  {
    assert Frame(m) + others == LengthBytes(|m|) + (m + others);
    SplitAt(prefix, rest, LengthBytes(|m|), m + others);
    LengthRoundTrip(|m|);
  }
}
