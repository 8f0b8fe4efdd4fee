/** pb_encode.c: output streams, and the encoder that writes to them what PbMessage's encoding functions say. */
module PbEncoder {
  import opened Basics
  import opened PbBits
  import opened PbVarint
  import opened PbMessage

  /** pb_ostream_t: with a buffer, or without one, for sizing. */
  class OStream {
    const buffer: array<Byte>
    /** callback == NULL. */
    const sizing: bool
    const maxSize: nat
    var state: nat
    var bytesWritten: nat
    /** All that was written, or counted. */
    ghost var output: seq<Byte>

    ghost predicate Valid()
      reads this, buffer
    {
      && bytesWritten == |output|
      && (if sizing then state == 0
          else bytesWritten <= maxSize && bytesWritten <= state && state + maxSize - bytesWritten <= buffer.Length
               && buffer[state - bytesWritten..state] == output)
    }

    /** Where the stream began in the buffer. */
    ghost function Start(): int
      reads this
    {
      if sizing then 0 else state - bytesWritten
    }

    /** pb_ostream_from_buffer. */
    constructor (buffer: array<Byte>, size: nat)
      requires size <= buffer.Length
      ensures Valid() && this.buffer == buffer && !sizing && maxSize == size && output == [] && state == 0
    {
      this.buffer, sizing, maxSize, state, bytesWritten, output := buffer, false, size, 0, 0, [];
    }

    /** PB_OSTREAM_SIZING. */
    constructor Sizing()
      ensures Valid() && fresh(buffer) && sizing && output == []
    {
      buffer := new Byte[0];
      sizing, maxSize, state, bytesWritten, output := true, 0, 0, 0, [];
    }

    /** The substream of pb_encode_submessage: the same buffer, and room for `size` bytes. */
    constructor Sub(parent: OStream, size: nat)
      requires parent.Valid() && !parent.sizing && parent.bytesWritten + size <= parent.maxSize
      ensures Valid() && buffer == parent.buffer && !sizing && maxSize == size && output == [] && state == parent.state
    {
      buffer, sizing, maxSize, state, bytesWritten, output := parent.buffer, false, size, parent.state, 0, [];
    }

    /** What lies in front of the next byte. */
    ghost function Front(): (s: seq<Byte>)
      requires Valid()
      reads this, buffer
    {
      if sizing then [] else buffer[..state]
    }

    /** The stream goes on from `was`; what lay in front of it in the buffer is still there. */
    ghost predicate Continues(start: int, was: seq<Byte>, kept: seq<Byte>)
      reads this, buffer
    {
      Valid() && Start() == start && was <= output && kept <= Front()
    }

    /** The bytes were written, exactly if they may be and there is room. */
    ghost predicate Wrote(ok: bool, may: bool, was: seq<Byte>, data: seq<Byte>)
      reads this
    {
      && (ok <==> may && (sizing || |was| + |data| <= maxSize))
      && (ok ==> output == was + data)
    }

    /** buf_write. */
    method BufWrite(data: seq<Byte>)
      requires !sizing && state + |data| <= buffer.Length
      modifies this`state, buffer
      ensures state == old(state) + |data|
      ensures buffer[..state] == old(buffer[..state]) + data
    {
      ghost var front := buffer[..state];
      var dest := state;
      state := dest + |data|;
      var i := 0;
      while i < |data|
        invariant i <= |data| && buffer[..dest + i] == front + data[..i]
        modifies buffer
      {
        buffer[dest + i] := data[i];
        assert buffer[..dest + (i + 1)] == buffer[..dest + i] + [data[i]];
        i := i + 1;
      }
    }

    /** pb_write. */
    method Write(data: seq<Byte>) returns (ok: bool)
      requires Valid()
      modifies this, buffer
      ensures Continues(old(Start()), old(output), old(Front())) && Wrote(ok, true, old(output), data)
    {
      if |data| > 0 && !sizing {
        if bytesWritten + |data| > maxSize {
          return false;
        }
        ghost var front := buffer[..state];
        Slice(buffer, state - bytesWritten, state);
        BufWrite(data);
        Slice(buffer, |front| - bytesWritten, state);
        Tail(front, data, |front| - bytesWritten);
      }
      bytesWritten := bytesWritten + |data|;
      output := output + data;
      assert sizing || buffer[state - bytesWritten..state] == output;
      ok := true;
    }

    /** pb_write on a sizing stream, with no data: only the count. */
    method Count(count: nat, ghost data: seq<Byte>) returns (ok: bool)
      requires Valid() && sizing && count == |data|
      modifies this
      ensures Continues(old(Start()), old(output), old(Front())) && Wrote(ok, true, old(output), data)
    {
      bytesWritten := bytesWritten + count;
      output := output + data;
      ok := true;
    }

    /** The end of pb_encode_submessage: the substream's bytes are this stream's. */
    method TakeOver(sub: OStream)
      requires Valid() && sub.Valid() && sub != this && sub.buffer == buffer && !sizing && !sub.sizing
      requires sub.Start() == state && bytesWritten + sub.maxSize <= maxSize
      modifies this
      ensures Continues(old(Start()), old(output), old(Front()))
      ensures output == old(output) + sub.output
    {
      assert buffer[state - bytesWritten..sub.state] == buffer[state - bytesWritten..state] + buffer[state..sub.state];
      bytesWritten := bytesWritten + sub.bytesWritten;
      state := sub.state;
      output := output + sub.output;
    }
  }

  lemma Slice(a: array<Byte>, from: nat, to: nat)
    requires from <= to <= a.Length
    ensures a[from..to] == a[..to][from..]
  {
  }

  lemma Tail(front: seq<Byte>, data: seq<Byte>, n: nat)
    requires n <= |front|
    ensures (front + data)[n..] == front[n..] + data
  {
  }

  lemma WithinRoom(stream: OStream)
    requires stream.Valid()
    ensures stream.sizing || |stream.output| <= stream.maxSize
  {
  }

  /** pb_encode_varint, with its short cut for one byte. */
  method EncodeVarint(stream: OStream, value: nat) returns (ok: bool)
    requires stream.Valid() && value < TWO_64
    modifies stream, stream.buffer
    ensures stream.Continues(old(stream.Start()), old(stream.output), old(stream.Front()))
    ensures stream.Wrote(ok, true, old(stream.output), Varint(value))
  {
    if value <= 0x7F {
      ok := stream.Write([value]);
    } else {
      var bytes := EncodeVarint32(value % TWO_32, value / TWO_32);
      ok := stream.Write(bytes);
    }
  }

  lemma TagWord(tag: nat, wire: nat)
    requires wire < 8
    ensures BitOr(wire, Shl(tag, 3)) == 8 * tag + wire
  {
    assert Pow2(3) == 8;
    OrDisjoint(wire, tag, 3);
  }

  /** pb_encode_tag. */
  method EncodeTag(stream: OStream, wire: nat, tag: nat) returns (ok: bool)
    requires stream.Valid() && wire < 8 && tag < 0x1_0000
    modifies stream, stream.buffer
    ensures stream.Continues(old(stream.Start()), old(stream.output), old(stream.Front()))
    ensures stream.Wrote(ok, true, old(stream.output), TagBytes(tag, wire))
  {
    TagWord(tag, wire);
    ok := EncodeVarint(stream, BitOr(wire, Shl(tag, 3)));
  }

  /** pb_encode_fixed32. */
  method EncodeFixed32(stream: OStream, value: nat) returns (ok: bool)
    requires stream.Valid() && value < TWO_32
    modifies stream, stream.buffer
    ensures stream.Continues(old(stream.Start()), old(stream.output), old(stream.Front()))
    ensures stream.Wrote(ok, true, old(stream.output), LittleEndian(value, 4))
  {
    var bytes: seq<Byte> := [value % 256, value / 0x100 % 256, value / 0x1_0000 % 256, value / 0x100_0000 % 256];
    FourLittleEndian(value);
    ok := stream.Write(bytes);
  }

  lemma FourLittleEndian(n: nat)
    ensures LittleEndian(n, 4) == [n % 256, n / 0x100 % 256, n / 0x1_0000 % 256, n / 0x100_0000 % 256]
  {
    assert LittleEndian(n / 0x100_0000, 1) == [n / 0x100_0000 % 256];
    assert LittleEndian(n / 0x1_0000, 2) == [n / 0x1_0000 % 256] + LittleEndian(n / 0x1_0000 / 256, 1);
    assert LittleEndian(n / 0x100, 3) == [n / 0x100 % 256] + LittleEndian(n / 0x100 / 256, 2);
  }

  /** pb_encode_string. */
  method EncodeString(stream: OStream, data: seq<Byte>) returns (ok: bool)
    requires stream.Valid() && |data| < TWO_32
    modifies stream, stream.buffer
    ensures stream.Continues(old(stream.Start()), old(stream.output), old(stream.Front()))
    ensures stream.Wrote(ok, true, old(stream.output), Delimited(data))
  {
    hide Varint;
    ok := EncodeVarint(stream, |data|);
    if ok {
      ok := stream.Write(data);
    }
  }

  /** pb_enc_string. */
  method EncString(stream: OStream, size: nat, buffer: seq<Byte>) returns (ok: bool)
    requires stream.Valid() && |buffer| == size < 0x1_0000
    modifies stream, stream.buffer
    ensures stream.Continues(old(stream.Start()), old(stream.output), old(stream.Front()))
    ensures stream.Wrote(ok, 0 in buffer, old(stream.output), Delimited(UpToNul(buffer)))
  {
    hide Delimited;
    if size == 0 {
      return false;
    }
    var n := 0;
    while n < size - 1 && buffer[n] != 0
      invariant n <= size - 1 && 0 !in buffer[..n]
    {
      n := n + 1;
    }
    if buffer[n] != 0 {
      assert buffer == buffer[..n] + [buffer[n]];
      return false;
    }
    TextIs(buffer, n);
    ok := EncodeString(stream, buffer[..n]);
  }

  lemma {:induction false} TextIs(s: seq<Byte>, n: nat)
    requires n < |s| && s[n] == 0 && 0 !in s[..n]
    ensures UpToNul(s) == s[..n] && 0 in s
  {
    if n > 0 {
      assert s[0] == s[..n][0];
      assert s[1..][..n - 1] == s[..n][1..];
      TextIs(s[1..], n - 1);
    }
  }

  /** pb_enc_bool, pb_enc_varint and pb_enc_fixed. */
  method EncodeScalar(stream: OStream, k: Kind, v: Value) returns (ok: bool)
    requires stream.Valid() && Packable(k) && KindOk(k) && Fits(k, v)
    modifies stream, stream.buffer
    ensures stream.Continues(old(stream.Start()), old(stream.output), old(stream.Front()))
    ensures stream.Wrote(ok, true, old(stream.output), EncodeValue(k, v))
  {
    if k.Fixed32? {
      ok := EncodeFixed32(stream, v.n);
    } else {
      ok := EncodeVarint(stream, v.n);
    }
  }

  // ----- lengths of parts -----

  lemma {:induction false} PackedPrefix(k: Kind, items: seq<Value>, n: nat)
    requires n <= |items| && forall i :: 0 <= i < |items| ==> Fits(k, items[i])
    ensures |EncodePacked(k, items[..n])| <= |EncodePacked(k, items)|
    ensures n < |items| ==> EncodePacked(k, items[..n + 1]) == EncodePacked(k, items[..n]) + EncodeValue(k, items[n])
    decreases |items| - n
  {
    hide EncodeValue, Fits;
    if n == |items| {
      assert items[..n] == items;
    } else {
      assert items[..n + 1][..n] == items[..n];
      PackedPrefix(k, items, n + 1);
    }
  }

  lemma {:induction false} FixedPacked(items: seq<Value>)
    requires forall i :: 0 <= i < |items| ==> Fits(Fixed32, items[i])
    ensures |EncodePacked(Fixed32, items)| == 4 * |items|
  {
    if items != [] {
      FixedPacked(items[..|items| - 1]);
    }
  }

  lemma {:induction false} ItemsPrefix(f: Field, items: seq<Value>, n: nat)
    requires n <= |items| && forall i :: 0 <= i < |items| ==> Fits(f.kind, items[i])
    ensures |EncodeItems(f, items[..n])| <= |EncodeItems(f, items)|
    ensures n < |items| ==>
              EncodeItems(f, items[..n + 1])
              == EncodeItems(f, items[..n]) + (TagBytes(f.tag, WireType(f.kind)) + EncodeValue(f.kind, items[n]))
    decreases |items| - n
  {
    hide EncodeValue, Fits, TagBytes;
    if n == |items| {
      assert items[..n] == items;
    } else {
      assert items[..n + 1][..n] == items[..n];
      ItemsPrefix(f, items, n + 1);
    }
  }

  lemma {:induction false} MessagePrefix(d: Descriptor, slots: seq<Slot>, n: nat)
    requires FitsAll(d, slots) && n <= |slots|
    ensures |EncodeUpTo(d, slots, n)| <= |EncodeMessage(d, slots)|
    decreases |slots| - n
  {
    hide EncodeField;
    if n < |slots| {
      MessagePrefix(d, slots, n + 1);
    }
  }

  lemma MessagePart(d: Descriptor, slots: seq<Slot>, i: nat)
    requires DescriptorOk(d) && FitsAll(d, slots) && i < |d.fields|
    ensures FieldOk(d.fields[i]) && FitsSlot(d.fields[i], slots[i])
    ensures EncodeUpTo(d, slots, i + 1) == EncodeUpTo(d, slots, i) + EncodeField(d.fields[i], slots[i])
    ensures |EncodeUpTo(d, slots, i + 1)| <= |EncodeMessage(d, slots)|
    ensures !EncodableSlot(d.fields[i], slots[i]) ==> !EncodableAll(d, slots)
  {
    hide EncodeField, EncodableSlot;
    MessagePrefix(d, slots, i + 1);
  }

  lemma NoFieldYet(d: Descriptor, slots: seq<Slot>)
    requires FitsAll(d, slots)
    ensures |slots| == |d.fields| && EncodeUpTo(d, slots, 0) == []
    ensures EncodeUpTo(d, slots, |d.fields|) == EncodeMessage(d, slots)
    ensures forall i :: 0 <= i < |d.fields| ==> FitsSlot(d.fields[i], slots[i])
    ensures (forall i :: 0 <= i < |d.fields| ==> EncodableSlot(d.fields[i], slots[i])) ==> EncodableAll(d, slots)
  {
  }

  // ----- fields and messages -----

  /** A value behind its tag: encode_basic_field. */
  method EncodeBasicField(stream: OStream, f: Field, v: Value) returns (ok: bool)
    requires stream.Valid() && FieldOk(f) && Fits(f.kind, v) && |EncodeValue(f.kind, v)| < TWO_32
    modifies stream, stream.buffer
    ensures stream.Continues(old(stream.Start()), old(stream.output), old(stream.Front()))
    ensures stream.Wrote(ok, Encodable(f.kind, v), old(stream.output), TagBytes(f.tag, WireType(f.kind)) + EncodeValue(f.kind, v))
    decreases f, 0
  {
    hide TagBytes, EncodeMessage, Delimited, EncodableAll, OStream.Valid, OStream.Front, OStream.Start;
    ok := EncodeTag(stream, WireType(f.kind), f.tag);
    if !ok {
      return;
    }
    match f.kind
    case Text(size) => ok := EncString(stream, size, v.buffer);
    case Message(d) =>
      DelimitedLonger(EncodeMessage(d, v.slots));
      ok := EncodeSubmessage(stream, d, v.slots);
    case _ => ok := EncodeScalar(stream, f.kind, v);
  }

  lemma DelimitedLonger(s: seq<Byte>)
    ensures |Delimited(s)| > |s|
  {
  }

  /** pb_encode_submessage: the size first, then the message itself; the size never changes in between. */
  method EncodeSubmessage(stream: OStream, d: Descriptor, slots: seq<Slot>) returns (ok: bool)
    requires stream.Valid() && DescriptorOk(d) && FitsAll(d, slots) && |EncodeMessage(d, slots)| < TWO_32
    modifies stream, stream.buffer
    ensures stream.Continues(old(stream.Start()), old(stream.output), old(stream.Front()))
    ensures stream.Wrote(ok, EncodableAll(d, slots), old(stream.output), Delimited(EncodeMessage(d, slots)))
    decreases d, 4
  {
    hide EncodeMessage, EncodableAll, Varint, FitsAll, DescriptorOk, OStream.Front, OStream.Start;
    ghost var bytes := EncodeMessage(d, slots);
    var substream := new OStream.Sizing();
    ok := Encode(substream, d, slots);
    if !ok {
      return;
    }
    var size := substream.bytesWritten;
    ok := EncodeVarint(stream, size);
    if !ok {
      return;
    }
    if stream.sizing {
      ok := stream.Count(size, bytes);
      return;
    }
    ok := WriteSubmessage(stream, d, slots, size);
  }

  /** The second half of pb_encode_submessage, on a stream with a buffer. */
  method WriteSubmessage(stream: OStream, d: Descriptor, slots: seq<Slot>, size: nat) returns (ok: bool)
    requires stream.Valid() && !stream.sizing && DescriptorOk(d) && FitsAll(d, slots) && EncodableAll(d, slots)
    requires size == |EncodeMessage(d, slots)| < TWO_32
    modifies stream, stream.buffer
    ensures stream.Continues(old(stream.Start()), old(stream.output), old(stream.Front()))
    ensures stream.Wrote(ok, true, old(stream.output), EncodeMessage(d, slots))
    decreases d, 3
  {
    hide EncodeMessage, EncodableAll, FitsAll, DescriptorOk, OStream.Valid, OStream.Front;
    ParentMeans(stream);
    if stream.bytesWritten + size > stream.maxSize {
      return false;
    }
    ghost var front := stream.Front();
    var sub := new OStream.Sub(stream, size);
    SubMeans(sub);
    var status := Encode(sub, d, slots);
    SubMeans(sub);
    ParentStands(stream, front);
    stream.TakeOver(sub);
    if sub.bytesWritten != size {
      // "submsg size changed"
      assert false;
      return false;
    }
    ok := status;
  }

  lemma ParentMeans(stream: OStream)
    requires stream.Valid() && !stream.sizing
    ensures |stream.output| == stream.bytesWritten <= stream.maxSize && stream.bytesWritten <= stream.state <= stream.buffer.Length
    ensures stream.state + stream.maxSize - stream.bytesWritten <= stream.buffer.Length
    ensures stream.Front() == stream.buffer[..stream.state]
    ensures stream.Front()[stream.state - stream.bytesWritten..] == stream.output
  {
    var start := stream.state - stream.bytesWritten;
    assert stream.buffer[..stream.state][start..] == stream.buffer[start..stream.state];
  }

  lemma SubMeans(sub: OStream)
    requires sub.Valid() && !sub.sizing
    ensures |sub.output| == sub.bytesWritten && sub.bytesWritten <= sub.state <= sub.buffer.Length
    ensures sub.Front() == sub.buffer[..sub.state]
  {
  }

  /** A stream whose part of the buffer was not touched is as it was. */
  lemma ParentStands(stream: OStream, front: seq<Byte>)
    requires !stream.sizing && |stream.output| == stream.bytesWritten <= stream.maxSize
    requires stream.bytesWritten <= stream.state && stream.state + stream.maxSize - stream.bytesWritten <= stream.buffer.Length
    requires front == stream.buffer[..stream.state] && front[stream.state - stream.bytesWritten..] == stream.output
    ensures stream.Valid() && stream.Front() == front
  {
    var start := stream.state - stream.bytesWritten;
    assert stream.buffer[..stream.state][start..] == stream.buffer[start..stream.state];
  }

  /** encode_array. */
  method EncodeArray(stream: OStream, f: Field, items: seq<Value>) returns (ok: bool)
    requires stream.Valid() && FieldOk(f) && f.rule.Repeated? && FitsSlot(f, Array(items))
    requires |EncodeField(f, Array(items))| < TWO_32
    modifies stream, stream.buffer
    ensures stream.Continues(old(stream.Start()), old(stream.output), old(stream.Front()))
    ensures stream.Wrote(ok, EncodableSlot(f, Array(items)), old(stream.output), EncodeField(f, Array(items)))
    decreases f, 2
  {
    if items == [] {
      return true;
    }
    if |items| > f.rule.cap {
      return false;
    }
    if Packable(f.kind) {
      ok := EncodePackedArray(stream, f, items);
      ScalarsEncodable(f, items);
    } else {
      ok := EncodeUnpackedArray(stream, f, items);
    }
  }

  lemma ScalarsEncodable(f: Field, items: seq<Value>)
    requires f.rule.Repeated? && Packable(f.kind) && FitsSlot(f, Array(items)) && |items| <= f.rule.cap
    ensures EncodableSlot(f, Array(items))
  {
  }

  method EncodePackedArray(stream: OStream, f: Field, items: seq<Value>) returns (ok: bool)
    requires stream.Valid() && FieldOk(f) && Packable(f.kind) && forall i :: 0 <= i < |items| ==> Fits(f.kind, items[i])
    requires |EncodePacked(f.kind, items)| < TWO_32
    modifies stream, stream.buffer
    ensures stream.Continues(old(stream.Start()), old(stream.output), old(stream.Front()))
    ensures stream.Wrote(ok, true, old(stream.output), TagBytes(f.tag, WT_STRING) + Delimited(EncodePacked(f.kind, items)))
  {
    hide TagBytes, Varint, EncodeValue, EncodePacked, Fits, FieldOk, KindOk, OStream.Valid, OStream.Front, OStream.Start;
    ghost var packed := EncodePacked(f.kind, items);
    KindOfField(f);
    ok := EncodeTag(stream, WT_STRING, f.tag);
    if !ok {
      return;
    }
    var size := PackedSize(f.kind, items);
    ok := EncodeVarint(stream, size);
    if !ok {
      return;
    }
    if stream.sizing {
      ok := stream.Count(size, packed);
      return;
    }
    ok := WriteItems(stream, f.kind, items);
  }

  lemma KindOfField(f: Field)
    requires FieldOk(f)
    ensures KindOk(f.kind) && 0 < f.tag < 0x1_0000
  {
  }

  /** The size of a packed array, by a sizing stream unless elements have a fixed size. */
  method PackedSize(k: Kind, items: seq<Value>) returns (size: nat)
    requires KindOk(k) && Packable(k) && forall i :: 0 <= i < |items| ==> Fits(k, items[i])
    ensures size == |EncodePacked(k, items)|
  {
    if k.Fixed32? {
      FixedPacked(items);
      size := 4 * |items|;
    } else {
      var sizestream := new OStream.Sizing();
      var ok := WriteItems(sizestream, k, items);
      size := sizestream.bytesWritten;
    }
  }

  /** The loops over the elements of a packed array. */
  method WriteItems(stream: OStream, k: Kind, items: seq<Value>) returns (ok: bool)
    requires stream.Valid() && KindOk(k) && Packable(k) && forall i :: 0 <= i < |items| ==> Fits(k, items[i])
    modifies stream, stream.buffer
    ensures stream.Continues(old(stream.Start()), old(stream.output), old(stream.Front()))
    ensures stream.Wrote(ok, true, old(stream.output), EncodePacked(k, items))
  {
    hide EncodeValue, EncodePacked, Fits, KindOk, OStream.Valid, OStream.Front, OStream.Start;
    ghost var was := stream.output;
    EmptyPacked(k, items);
    ok := true;
    var i := 0;
    while i < |items|
      invariant i <= |items|
      invariant stream.Continues(old(stream.Start()), was, old(stream.Front()))
      invariant stream.output == was + EncodePacked(k, items[..i])
    {
      PackedPrefix(k, items, i);
      PackedPrefix(k, items, i + 1);
      ok := EncodeScalar(stream, k, items[i]);
      if !ok {
        return;
      }
      i := i + 1;
    }
    assert items[..i] == items;
    WithinRoom(stream);
  }

  lemma EmptyPacked(k: Kind, items: seq<Value>)
    ensures EncodePacked(k, items[..0]) == []
  {
  }

  method EncodeUnpackedArray(stream: OStream, f: Field, items: seq<Value>) returns (ok: bool)
    requires stream.Valid() && FieldOk(f) && forall i :: 0 <= i < |items| ==> Fits(f.kind, items[i])
    requires |EncodeItems(f, items)| < TWO_32
    modifies stream, stream.buffer
    ensures stream.Continues(old(stream.Start()), old(stream.output), old(stream.Front()))
    ensures stream.Wrote(ok, forall i :: 0 <= i < |items| ==> Encodable(f.kind, items[i]), old(stream.output), EncodeItems(f, items))
    decreases f, 1
  {
    hide EncodeValue, EncodeItems, Fits, Encodable, TagBytes, FieldOk, OStream.Valid, OStream.Front, OStream.Start;
    ghost var was := stream.output;
    EmptyItems(f, items);
    ok := true;
    var i := 0;
    while i < |items|
      invariant i <= |items|
      invariant stream.Continues(old(stream.Start()), was, old(stream.Front()))
      invariant stream.output == was + EncodeItems(f, items[..i])
      invariant forall j :: 0 <= j < i ==> Encodable(f.kind, items[j])
    {
      ItemsPrefix(f, items, i);
      ItemsPrefix(f, items, i + 1);
      ok := EncodeBasicField(stream, f, items[i]);
      if !ok {
        return;
      }
      i := i + 1;
    }
    assert items[..i] == items;
    WithinRoom(stream);
  }

  lemma EmptyItems(f: Field, items: seq<Value>)
    ensures EncodeItems(f, items[..0]) == []
  {
  }

  /** encode_field. */
  method EncodeOneField(stream: OStream, f: Field, slot: Slot) returns (ok: bool)
    requires stream.Valid() && FieldOk(f) && FitsSlot(f, slot) && |EncodeField(f, slot)| < TWO_32
    modifies stream, stream.buffer
    ensures stream.Continues(old(stream.Start()), old(stream.output), old(stream.Front()))
    ensures stream.Wrote(ok, EncodableSlot(f, slot), old(stream.output), EncodeField(f, slot))
    decreases f, 3
  {
    hide TagBytes, EncodeValue, Encodable;
    match f.rule
    case Required => ok := EncodeBasicField(stream, f, slot.v);
    case Optional =>
      if !slot.has {
        return true;
      }
      ok := EncodeBasicField(stream, f, slot.v);
    case Repeated(_) => ok := EncodeArray(stream, f, slot.items);
  }

  /** pb_encode. */
  method Encode(stream: OStream, d: Descriptor, slots: seq<Slot>) returns (ok: bool)
    requires stream.Valid() && DescriptorOk(d) && FitsAll(d, slots) && |EncodeMessage(d, slots)| < TWO_32
    modifies stream, stream.buffer
    ensures stream.Continues(old(stream.Start()), old(stream.output), old(stream.Front()))
    ensures stream.Wrote(ok, EncodableAll(d, slots), old(stream.output), EncodeMessage(d, slots))
    decreases d, 2
  {
    hide EncodeField, EncodableSlot, EncodeUpTo, EncodeMessage, FitsAll, FitsSlot, FieldOk, DescriptorOk, EncodableAll,
      OStream.Valid, OStream.Front, OStream.Start;
    NoFieldYet(d, slots);
    ghost var was := stream.output;
    ok := true;
    var i := 0;
    while i < |d.fields|
      invariant i <= |d.fields|
      invariant stream.Continues(old(stream.Start()), was, old(stream.Front()))
      invariant stream.output == was + EncodeUpTo(d, slots, i)
      invariant forall j :: 0 <= j < i ==> EncodableSlot(d.fields[j], slots[j])
    {
      MessagePart(d, slots, i);
      ok := EncodeOneField(stream, d.fields[i], slots[i]);
      if !ok {
        return;
      }
      i := i + 1;
    }
    WithinRoom(stream);
  }

  /** pb_get_encoded_size: the sizing pass counts what the writing pass writes. */
  method GetEncodedSize(d: Descriptor, slots: seq<Slot>) returns (ok: bool, size: nat)
    requires DescriptorOk(d) && FitsAll(d, slots) && |EncodeMessage(d, slots)| < TWO_32
    ensures ok <==> EncodableAll(d, slots)
    ensures ok ==> size == |EncodeMessage(d, slots)|
  {
    var stream := new OStream.Sizing();
    ok := Encode(stream, d, slots);
    size := stream.bytesWritten;
  }

  /** pb_encode into a buffer: it succeeds exactly if the size fits, and then the buffer holds the message. */
  method EncodeToBuffer(buffer: array<Byte>, size: nat, d: Descriptor, slots: seq<Slot>) returns (ok: bool, written: nat)
    requires size <= buffer.Length
    requires DescriptorOk(d) && FitsAll(d, slots) && |EncodeMessage(d, slots)| < TWO_32
    modifies buffer
    ensures ok <==> EncodableAll(d, slots) && |EncodeMessage(d, slots)| <= size
    ensures ok ==> written == |EncodeMessage(d, slots)| <= size && buffer[..written] == EncodeMessage(d, slots)
  {
    hide EncodeMessage, EncodableAll;
    var stream := new OStream(buffer, size);
    ok := Encode(stream, d, slots);
    written := stream.bytesWritten;
  }

  /** pb_encode_ex. */
  method EncodeEx(stream: OStream, d: Descriptor, slots: seq<Slot>, delimited: bool, nullTerminated: bool) returns (ok: bool)
    requires stream.Valid() && DescriptorOk(d) && FitsAll(d, slots) && |EncodeMessage(d, slots)| < TWO_32
    modifies stream, stream.buffer
    ensures stream.Continues(old(stream.Start()), old(stream.output), old(stream.Front()))
    ensures var bytes := EncodeMessage(d, slots);
            stream.Wrote(ok, EncodableAll(d, slots), old(stream.output),
              if delimited then Delimited(bytes) else if nullTerminated then bytes + [0] else bytes)
  {
    hide EncodeMessage, EncodableAll;
    if delimited {
      ok := EncodeSubmessage(stream, d, slots);
    } else if nullTerminated {
      ok := Encode(stream, d, slots);
      if ok {
        ok := stream.Write([0]);
      }
    } else {
      ok := Encode(stream, d, slots);
    }
  }
}
