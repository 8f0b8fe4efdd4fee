/** What decoding and encoding do to each other's results: every accepted message has a normal form. */
module PbNormalForm {
  import opened Basics
  import opened PbBits
  import opened PbVarint
  import opened PbMessage
  import opened PbRoundTrip
  import opened PbSizes
  import PbInput
  import PbDecoder
  import PbEncoder

  // ----- whatever is decoded can be encoded -----

  /** Strings are terminated and counts are in bounds, also in members that are absent. */
  ghost predicate Sound(k: Kind, v: Value)
    requires Fits(k, v)
    decreases k, 0
  {
    match k
    case Text(_) => 0 in v.buffer
    case Message(d) => SoundAll(d, v.slots)
    case _ => true
  }

  ghost predicate SoundSlot(f: Field, slot: Slot)
    requires FitsSlot(f, slot)
    decreases f, 0
  {
    match f.rule
    case Required => Sound(f.kind, slot.v)
    case Optional => Sound(f.kind, slot.v)
    case Repeated(cap) => |slot.items| <= cap && forall i :: 0 <= i < |slot.items| ==> Sound(f.kind, slot.items[i])
  }

  ghost predicate SoundAll(d: Descriptor, slots: seq<Slot>)
    requires FitsAll(d, slots)
    decreases d, 0
  {
    forall i :: 0 <= i < |slots| ==> SoundSlot(d.fields[i], slots[i])
  }

  lemma {:induction false} SoundIsEncodable(k: Kind, v: Value)
    requires Fits(k, v) && Sound(k, v)
    ensures Encodable(k, v)
    decreases k, 0
  {
    match k
    case Message(d) => SoundAllIsEncodable(d, v.slots);
    case _ =>
  }

  lemma {:induction false} SoundAllIsEncodable(d: Descriptor, slots: seq<Slot>)
    requires FitsAll(d, slots) && SoundAll(d, slots)
    ensures EncodableAll(d, slots)
    decreases d, 1
  {
    forall i | 0 <= i < |slots| ensures EncodableSlot(d.fields[i], slots[i]) {
      SoundSlotIsEncodable(d.fields[i], slots[i]);
    }
  }

  lemma {:induction false} SoundSlotIsEncodable(f: Field, slot: Slot)
    requires FitsSlot(f, slot) && SoundSlot(f, slot)
    ensures EncodableSlot(f, slot)
    decreases f, 0
  {
    match f.rule
    case Required => SoundIsEncodable(f.kind, slot.v);
    case Optional => SoundIsEncodable(f.kind, slot.v);
    case Repeated(_) =>
      forall i | 0 <= i < |slot.items| ensures Encodable(f.kind, slot.items[i]) {
        SoundIsEncodable(f.kind, slot.items[i]);
      }
  }

  lemma {:induction false} ZeroSound(k: Kind)
    requires KindOk(k) && RoomForNul(k)
    ensures Sound(k, Zero(k))
    decreases k, 0
  {
    match k
    case Text(size) => assert Zeros(size)[0] == 0;
    case Message(d) => DefaultsSound(d);
    case _ =>
  }

  lemma {:induction false} DefaultsSound(d: Descriptor)
    requires DescriptorOk(d) && RoomForNul(Message(d))
    ensures SoundAll(d, Defaults(d))
    decreases d, 0
  {
    forall i | 0 <= i < |d.fields| ensures SoundSlot(d.fields[i], Defaults(d)[i]) {
      assert RoomInField(d.fields[i]) && FieldOk(d.fields[i]);
      ZeroSound(d.fields[i].kind);
    }
  }

  lemma {:induction false} DecodedValueSound(k: Kind, s: seq<Byte>, was: Value)
    requires KindOk(k) && RoomForNul(k) && Fits(k, was) && Sound(k, was) && DecodeValue(k, s, was).Ok?
    ensures Sound(k, DecodeValue(k, s, was).value)
    decreases k, |s|, 0
  {
    hide ReadVarint32, ReadVarint, DecodeLoop, FromLittleEndian;
    match k
    case Text(_) =>
      var n := ReadVarint32(s).value;
      assert DecodeValue(k, s, was).value.buffer[n] == 0;
    case Message(d) => DecodedLoopSound(d, ReadDelimited(s).value, Progress(was.slots, {}));
    case _ =>
  }

  lemma {:induction false} PackedCount(k: Kind, cap: nat, s: seq<Byte>, items: seq<Value>)
    requires KindOk(k) && Packable(k) && (forall i :: 0 <= i < |items| ==> Fits(k, items[i])) && |items| <= cap
    requires DecodePacked(k, cap, s, items).Some?
    ensures |DecodePacked(k, cap, s, items).value| <= cap
    decreases |s|
  {
    hide ReadVarint32, ReadVarint, FromLittleEndian;
    if s != [] {
      var r := DecodeValue(k, s, Zero(k));
      PackedCount(k, cap, r.rest, items + [r.value]);
    }
  }

  lemma {:induction false} DecodedFieldSound(f: Field, wire: nat, s: seq<Byte>, was: Slot)
    requires FieldOk(f) && RoomInField(f) && FitsSlot(f, was) && SoundSlot(f, was) && DecodeField(f, wire, s, was).Ok?
    ensures SoundSlot(f, DecodeField(f, wire, s, was).value)
    decreases f, |s|, 0
  {
    hide ReadDelimited, DecodeValue, DecodePacked;
    match f.rule
    case Required => DecodedValueSound(f.kind, s, was.v);
    case Optional => DecodedValueSound(f.kind, s, was.v);
    case Repeated(cap) =>
      if wire == WT_STRING && Packable(f.kind) {
        PackedCount(f.kind, cap, ReadDelimited(s).value, was.items);
      } else {
        ZeroSound(f.kind);
        DecodedValueSound(f.kind, s, Zero(f.kind));
      }
  }

  lemma {:induction false} DecodedLoopSound(d: Descriptor, s: seq<Byte>, p: Progress)
    requires DescriptorOk(d) && RoomForNul(Message(d)) && FitsAll(d, p.slots) && SoundAll(d, p.slots)
    requires DecodeLoop(d, s, p).Some?
    ensures SoundAll(d, DecodeLoop(d, s, p).value.slots)
    decreases d, |s|, 0
  {
    hide ReadVarint32, DecodeField, Skip, SoundSlot;
    if s != [] {
      PbDecoder.LoopStep(d, s, p);
      var t := ReadVarint32(s).value;
      var rest := ReadVarint32(s).rest;
      var i := IndexOf(d.fields, t / 8);
      if i == |d.fields| {
        DecodedLoopSound(d, Skip(t % 8, rest).value, p);
      } else {
        assert RoomInField(d.fields[i]);
        DecodedFieldSound(d.fields[i], t % 8, rest, p.slots[i]);
        var r := DecodeField(d.fields[i], t % 8, rest, p.slots[i]);
        DecodedLoopSound(d, r.rest, Progress(p.slots[i := r.value], p.seen + {i}));
      }
    }
  }

  /** The encoder accepts every struct that the decoder fills. */
  lemma DecodedIsEncodable(d: Descriptor, s: seq<Byte>)
    requires DescriptorOk(d) && RoomForNul(Message(d)) && Decode(d, s).Some?
    ensures EncodableAll(d, Decode(d, s).value)
  {
    hide DecodeLoop, SoundAll, EncodableAll;
    DefaultsSound(d);
    DecodedLoopSound(d, s, Progress(Defaults(d), {}));
    SoundAllIsEncodable(d, Decode(d, s).value);
  }

  // ----- a decoded struct is encoded to the same bytes -----

  lemma {:induction false} CanonValueBytes(k: Kind, v: Value)
    requires KindOk(k) && Fits(k, v) && Encodable(k, v)
    ensures EncodeValue(k, Canon(k, v)) == EncodeValue(k, v)
    decreases k, 0
  {
    hide UpToNul, EncodeUpTo, CanonAll, Varint, LittleEndian;
    match k
    case Text(size) => CanonTextBytes(size, v);
    case Message(d) => CanonUpToBytes(d, v.slots, |v.slots|);
    case _ =>
  }

  lemma CanonTextBytes(size: nat, v: Value)
    requires KindOk(Text(size)) && Fits(Text(size), v)
    ensures EncodeValue(Text(size), Canon(Text(size), v)) == EncodeValue(Text(size), v)
  {
    hide Varint;
    PaddedText(UpToNul(v.buffer), size - |UpToNul(v.buffer)|);
  }

  lemma {:induction false} CanonItemsBytes(f: Field, items: seq<Value>)
    requires KindOk(f.kind) && forall i :: 0 <= i < |items| ==> Fits(f.kind, items[i]) && Encodable(f.kind, items[i])
    ensures EncodePacked(f.kind, CanonItems(f.kind, items)) == EncodePacked(f.kind, items)
    ensures EncodeItems(f, CanonItems(f.kind, items)) == EncodeItems(f, items)
    decreases f, 0, |items|
  {
    hide EncodeValue, Canon, Fits, Encodable, TagBytes;
    var c := CanonItems(f.kind, items);
    if items != [] {
      var n := |items| - 1;
      CanonItemsBytes(f, items[..n]);
      CanonValueBytes(f.kind, items[n]);
      assert c[..n] == CanonItems(f.kind, items[..n]);
    }
  }

  lemma {:induction false} CanonFieldBytes(f: Field, slot: Slot)
    requires FieldOk(f) && FitsSlot(f, slot) && EncodableSlot(f, slot)
    ensures EncodeField(f, CanonSlot(f, slot)) == EncodeField(f, slot)
    decreases f, 1
  {
    hide EncodeValue, Canon, Encodable, TagBytes;
    match f.rule
    case Required => CanonValueBytes(f.kind, slot.v);
    case Optional =>
      if slot.has {
        CanonValueBytes(f.kind, slot.v);
      }
    case Repeated(_) => CanonItemsBytes(f, slot.items);
  }

  lemma {:induction false} CanonUpToBytes(d: Descriptor, slots: seq<Slot>, n: nat)
    requires DescriptorOk(d) && FitsAll(d, slots) && EncodableAll(d, slots) && n <= |slots|
    ensures EncodeUpTo(d, CanonAll(d, slots), n) == EncodeUpTo(d, slots, n)
    decreases d, 0, n
  {
    hide EncodeField, CanonSlot;
    if n > 0 {
      CanonUpToBytes(d, slots, n - 1);
      CanonFieldBytes(d.fields[n - 1], slots[n - 1]);
    }
  }

  /**
   Normal form: whatever the decoder accepts (unpacked or split arrays, repeated scalars,
   overlong varints, unknown fields), encoding the result gives bytes that decode to the
   same message and that encoding gives again.
   */
  lemma NormalForm(d: Descriptor, s: seq<Byte>)
    requires DescriptorOk(d) && RoomForNul(Message(d)) && Decode(d, s).Some?
    requires |EncodeMessage(d, Decode(d, s).value)| < TWO_32
    ensures var m := Decode(d, s).value;
            && EncodableAll(d, m)
            && Decode(d, EncodeMessage(d, m)) == Some(CanonAll(d, m))
            && EncodeMessage(d, CanonAll(d, m)) == EncodeMessage(d, m)
  {
    hide DecodeInner, EncodeUpTo, EncodableAll;
    DecodedIsEncodable(d, s);
    var m := Decode(d, s).value;
    MessageRoundTrip(d, m);
    CanonUpToBytes(d, m, |m|);
  }

  /** Two structs are encoded to the same bytes exactly when they hold the same message. */
  lemma SameBytesSameMessage(d: Descriptor, a: seq<Slot>, b: seq<Slot>)
    requires DescriptorOk(d) && FitsAll(d, a) && FitsAll(d, b) && EncodableAll(d, a) && EncodableAll(d, b)
    requires |EncodeMessage(d, a)| < TWO_32 && |EncodeMessage(d, b)| < TWO_32
    ensures EncodeMessage(d, a) == EncodeMessage(d, b) <==> SameMessage(d, a, b)
  {
    hide DecodeInner, EncodeUpTo, EncodableAll, SameMessage, CanonAll, FitsAll, DescriptorOk;
    MessageRoundTrip(d, a);
    MessageRoundTrip(d, b);
    if SameMessage(d, a, b) {
      SameHasOneCanon(d, a, b);
      CanonMessageBytes(d, a);
      CanonMessageBytes(d, b);
    }
    if EncodeMessage(d, a) == EncodeMessage(d, b) {
      OneCanonIsSame(d, a, b);
    }
  }

  lemma CanonMessageBytes(d: Descriptor, slots: seq<Slot>)
    requires DescriptorOk(d) && FitsAll(d, slots) && EncodableAll(d, slots)
    ensures EncodeMessage(d, CanonAll(d, slots)) == EncodeMessage(d, slots)
  {
    CanonUpToBytes(d, slots, |slots|);
  }

  // ----- both ends together -----

  /** One side encodes into a buffer, the other side decodes it: the message arrives, or it did not fit. */
  method Exchange(d: Descriptor, slots: seq<Slot>, size: nat) returns (ok: bool, received: seq<Slot>)
    requires DescriptorOk(d) && FitsAll(d, slots) && |EncodeMessage(d, slots)| < TWO_32
    ensures ok <==> EncodableAll(d, slots) && |EncodeMessage(d, slots)| <= size
    ensures ok ==> received == CanonAll(d, slots) && SameMessage(d, slots, received)
  {
    hide EncodeMessage, EncodableAll, DecodeInner, CanonAll;
    received := slots;
    var buffer := new Byte[size];
    var written;
    ok, written := PbEncoder.EncodeToBuffer(buffer, size, d, slots);
    if ok {
      MessageRoundTrip(d, slots);
      var stream := new PbInput.IStream(buffer, written);
      ok, received := PbDecoder.DecodeEx(stream, d, slots, true, false);
    }
  }
}
