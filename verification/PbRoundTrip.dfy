/** Decoding what was encoded. */
module PbRoundTrip {
  import opened Basics
  import opened PbBits
  import opened PbVarint
  import opened PbMessage
  import opened PbMerge

  /** What a decoded struct holds: strings are filled up with zeros, absent members are zero. */
  ghost function Canon(k: Kind, v: Value): (c: Value)
    requires KindOk(k) && Fits(k, v)
    ensures Fits(k, c)
    decreases k, 0
  {
    match k
    case Text(size) => Chars(UpToNul(v.buffer) + Zeros(size - |UpToNul(v.buffer)|))
    case Message(d) => Struct(CanonAll(d, v.slots))
    case _ => v
  }

  ghost function CanonItems(k: Kind, items: seq<Value>): (c: seq<Value>)
    requires KindOk(k) && forall i :: 0 <= i < |items| ==> Fits(k, items[i])
    ensures |c| == |items| && forall i :: 0 <= i < |c| ==> Fits(k, c[i])
    decreases k, 1
  {
    seq(|items|, i requires 0 <= i < |items| => Canon(k, items[i]))
  }

  ghost function CanonSlot(f: Field, slot: Slot): (c: Slot)
    requires FieldOk(f) && FitsSlot(f, slot)
    ensures FitsSlot(f, c)
    decreases f, 0
  {
    match f.rule
    case Required => Single(Canon(f.kind, slot.v))
    case Optional => if slot.has then Maybe(true, Canon(f.kind, slot.v)) else Maybe(false, Zero(f.kind))
    case Repeated(_) => Array(CanonItems(f.kind, slot.items))
  }

  ghost function CanonAll(d: Descriptor, slots: seq<Slot>): (c: seq<Slot>)
    requires DescriptorOk(d) && FitsAll(d, slots)
    ensures FitsAll(d, c)
    decreases d, 0
  {
    seq(|slots|, i requires 0 <= i < |slots| => CanonSlot(d.fields[i], slots[i]))
  }

  // ----- the message in a struct -----

  /** The same text, the same number, or the same message. */
  ghost predicate SameValue(k: Kind, a: Value, b: Value)
    requires Fits(k, a) && Fits(k, b)
    decreases k, 0
  {
    match k
    case Text(_) => UpToNul(a.buffer) == UpToNul(b.buffer)
    case Message(d) => SameMessage(d, a.slots, b.slots)
    case _ => a.n == b.n
  }

  /** The same presence flag or count, and the same present values. */
  ghost predicate SameSlot(f: Field, a: Slot, b: Slot)
    requires FitsSlot(f, a) && FitsSlot(f, b)
    decreases f, 0
  {
    match f.rule
    case Required => SameValue(f.kind, a.v, b.v)
    case Optional => a.has == b.has && (a.has ==> SameValue(f.kind, a.v, b.v))
    case Repeated(_) =>
      && |a.items| == |b.items|
      && forall i :: 0 <= i < |a.items| ==> SameValue(f.kind, a.items[i], b.items[i])
  }

  /** Two structs hold the same message. */
  ghost predicate SameMessage(d: Descriptor, a: seq<Slot>, b: seq<Slot>)
    requires FitsAll(d, a) && FitsAll(d, b)
    decreases d, 0
  {
    forall i :: 0 <= i < |a| ==> SameSlot(d.fields[i], a[i], b[i])
  }

  /** A text with zeros behind it is that text. */
  lemma {:induction false} PaddedText(text: seq<Byte>, n: nat)
    requires 0 !in text
    ensures UpToNul(text + Zeros(n)) == text
  {
    var s := text + Zeros(n);
    if text == [] {
      assert UpToNul(s) == [];
    } else {
      assert s[1..] == text[1..] + Zeros(n);
      PaddedText(text[1..], n);
    }
  }

  lemma {:induction false} CanonValueIsSame(k: Kind, v: Value)
    requires KindOk(k) && Fits(k, v)
    ensures SameValue(k, v, Canon(k, v))
    decreases k, 0
  {
    match k
    case Text(size) => PaddedText(UpToNul(v.buffer), size - |UpToNul(v.buffer)|);
    case Message(d) => CanonIsSame(d, v.slots);
    case _ =>
  }

  lemma {:induction false} CanonSlotIsSame(f: Field, slot: Slot)
    requires FieldOk(f) && FitsSlot(f, slot)
    ensures SameSlot(f, slot, CanonSlot(f, slot))
    decreases f, 0
  {
    hide Canon, SameValue, Fits;
    match f.rule
    case Required => CanonValueIsSame(f.kind, slot.v);
    case Optional => CanonValueIsSame(f.kind, slot.v);
    case Repeated(_) =>
      forall i | 0 <= i < |slot.items| ensures SameValue(f.kind, slot.items[i], Canon(f.kind, slot.items[i])) {
        CanonValueIsSame(f.kind, slot.items[i]);
      }
  }

  /** The canonical struct holds the same message: flags, counts, present values and texts. */
  lemma {:induction false} CanonIsSame(d: Descriptor, slots: seq<Slot>)
    requires DescriptorOk(d) && FitsAll(d, slots)
    ensures SameMessage(d, slots, CanonAll(d, slots))
    decreases d, 0
  {
    hide CanonSlot, SameSlot, FitsSlot;
    forall i | 0 <= i < |slots| ensures SameSlot(d.fields[i], slots[i], CanonAll(d, slots)[i]) {
      CanonSlotIsSame(d.fields[i], slots[i]);
    }
  }

  lemma {:induction false} SameValueOneCanon(k: Kind, a: Value, b: Value)
    requires KindOk(k) && Fits(k, a) && Fits(k, b) && SameValue(k, a, b)
    ensures Canon(k, a) == Canon(k, b)
    decreases k, 0
  {
    match k
    case Message(d) => SameHasOneCanon(d, a.slots, b.slots);
    case _ =>
  }

  lemma {:induction false} SameSlotOneCanon(f: Field, a: Slot, b: Slot)
    requires FieldOk(f) && FitsSlot(f, a) && FitsSlot(f, b) && SameSlot(f, a, b)
    ensures CanonSlot(f, a) == CanonSlot(f, b)
    decreases f, 0
  {
    hide Canon, SameValue, Fits;
    match f.rule
    case Required => SameValueOneCanon(f.kind, a.v, b.v);
    case Optional =>
      if a.has {
        SameValueOneCanon(f.kind, a.v, b.v);
      }
    case Repeated(_) =>
      forall i | 0 <= i < |a.items| ensures Canon(f.kind, a.items[i]) == Canon(f.kind, b.items[i]) {
        SameValueOneCanon(f.kind, a.items[i], b.items[i]);
      }
      assert CanonItems(f.kind, a.items) == CanonItems(f.kind, b.items);
  }

  /** Structs that hold the same message have one canonical form. */
  lemma {:induction false} SameHasOneCanon(d: Descriptor, a: seq<Slot>, b: seq<Slot>)
    requires DescriptorOk(d) && FitsAll(d, a) && FitsAll(d, b) && SameMessage(d, a, b)
    ensures CanonAll(d, a) == CanonAll(d, b)
    decreases d, 0
  {
    hide CanonSlot, SameSlot, FitsSlot;
    forall i | 0 <= i < |a| ensures CanonAll(d, a)[i] == CanonAll(d, b)[i] {
      SameSlotOneCanon(d.fields[i], a[i], b[i]);
    }
  }

  lemma {:induction false} OneCanonSameValue(k: Kind, a: Value, b: Value)
    requires KindOk(k) && Fits(k, a) && Fits(k, b) && Canon(k, a) == Canon(k, b)
    ensures SameValue(k, a, b)
    decreases k, 0
  {
    match k
    case Text(size) =>
      PaddedText(UpToNul(a.buffer), size - |UpToNul(a.buffer)|);
      PaddedText(UpToNul(b.buffer), size - |UpToNul(b.buffer)|);
    case Message(d) => OneCanonIsSame(d, a.slots, b.slots);
    case _ =>
  }

  lemma {:induction false} OneCanonSameSlot(f: Field, a: Slot, b: Slot)
    requires FieldOk(f) && FitsSlot(f, a) && FitsSlot(f, b) && CanonSlot(f, a) == CanonSlot(f, b)
    ensures SameSlot(f, a, b)
    decreases f, 0
  {
    hide Canon, SameValue, Fits;
    match f.rule
    case Required => OneCanonSameValue(f.kind, a.v, b.v);
    case Optional =>
      if a.has {
        OneCanonSameValue(f.kind, a.v, b.v);
      }
    case Repeated(_) =>
      var c, e := CanonItems(f.kind, a.items), CanonItems(f.kind, b.items);
      forall i | 0 <= i < |a.items| ensures SameValue(f.kind, a.items[i], b.items[i]) {
        assert c[i] == e[i];
        OneCanonSameValue(f.kind, a.items[i], b.items[i]);
      }
  }

  lemma {:induction false} OneCanonIsSame(d: Descriptor, a: seq<Slot>, b: seq<Slot>)
    requires DescriptorOk(d) && FitsAll(d, a) && FitsAll(d, b) && CanonAll(d, a) == CanonAll(d, b)
    ensures SameMessage(d, a, b)
    decreases d, 0
  {
    hide CanonSlot, SameSlot, FitsSlot;
    forall i | 0 <= i < |a| ensures SameSlot(d.fields[i], a[i], b[i]) {
      assert CanonAll(d, a)[i] == CanonAll(d, b)[i];
      OneCanonSameSlot(d.fields[i], a[i], b[i]);
    }
  }

  // ----- values -----

  lemma {:induction false} LittleEndianBack(n: nat, k: nat)
    requires n < Pow256(k)
    ensures FromLittleEndian(LittleEndian(n, k)) == n
  {
    if k > 0 {
      LittleEndianBack(n / 256, k - 1);
      assert LittleEndian(n, k)[1..] == LittleEndian(n / 256, k - 1);
    }
  }

  function Pow256(k: nat): nat {
    if k == 0 then 1 else 256 * Pow256(k - 1)
  }

  lemma Pow256Four()
    ensures Pow256(4) == TWO_32
  {
    assert Pow256(0) == 1;
    assert Pow256(1) == 256 && Pow256(2) == 256 * 256 && Pow256(3) == 256 * Pow256(2);
  }

  lemma ScalarRoundTrip(k: Kind, v: Value, t: seq<Byte>)
    requires KindOk(k) && Packable(k) && Fits(k, v)
    ensures DecodeValue(k, EncodeValue(k, v) + t, Zero(k)) == Ok(v, t)
  {
    hide ReadVarint32, ReadVarint, Varint;
    match k
    case Bool => Varint32RoundTrip(v.n, t);
    case UVarint(_, _) => VarintRoundTrip(v.n, t);
    case Fixed32 =>
      Pow256Four();
      LittleEndianBack(v.n, 4);
      var s := LittleEndian(v.n, 4);
      assert (s + t)[..4] == s && (s + t)[4..] == t;
  }

  /** Every value is read back before any bytes that follow; a submessage and its whole struct with it. */
  lemma {:induction false} ValueRoundTrip(k: Kind, v: Value, t: seq<Byte>)
    requires KindOk(k) && Fits(k, v) && Encodable(k, v) && |EncodeValue(k, v)| < TWO_32
    ensures DecodeValue(k, EncodeValue(k, v) + t, Zero(k)) == Ok(Canon(k, v), t)
    decreases k, 0
  {
    hide ReadVarint32, ReadVarint, DecodeInner, ReadDelimited, Varint, EncodeMessage, LittleEndian;
    match k
    case Text(size) => TextRoundTrip(size, v, t);
    case Message(d) =>
      MessageRoundTrip(d, v.slots);
      DelimitedIsRead(EncodeMessage(d, v.slots), t);
    case _ => ScalarRoundTrip(k, v, t);
  }

  lemma TextRoundTrip(size: nat, v: Value, t: seq<Byte>)
    requires KindOk(Text(size)) && Fits(Text(size), v) && 0 in v.buffer
    ensures DecodeValue(Text(size), Delimited(UpToNul(v.buffer)) + t, Zero(Text(size))) == Ok(Canon(Text(size), v), t)
  {
    hide ReadVarint32, Varint;
    var text := UpToNul(v.buffer);
    Varint32RoundTrip(|text|, text + t);
    assert Delimited(text) + t == Varint(|text|) + (text + t);
    assert (text + t)[..|text|] == text && (text + t)[|text|..] == t;
    assert [0] + Zeros(size)[|text| + 1..] == Zeros(size - |text|);
    assert text + [0] + Zeros(size)[|text| + 1..] == text + ([0] + Zeros(size)[|text| + 1..]);
  }

  /** A packed run that was encoded is decoded to the same elements. */
  lemma {:induction false} PackedRoundTrip(k: Kind, cap: nat, items: seq<Value>)
    requires KindOk(k) && Packable(k) && |items| <= cap
    requires forall i :: 0 <= i < |items| ==> Fits(k, items[i])
    ensures DecodePacked(k, cap, EncodePacked(k, items), []) == Some(items)
    decreases |items|
  {
    hide DecodeValue, EncodeValue, Canon;
    if items != [] {
      var n := |items| - 1;
      PackedRoundTrip(k, cap, items[..n]);
      var a := EncodePacked(k, items[..n]);
      var b := EncodeValue(k, items[n]);
      PackedRunsAppend(k, cap, a, b, []);
      ScalarRoundTrip(k, items[n], []);
      assert b + [] == b;
      assert items == items[..n] + [items[n]];
      assert DecodePacked(k, cap, [], items) == Some(items);
      assert EncodePacked(k, items) == a + b;
    }
  }

  lemma NotEmpty(n: nat)
    ensures Varint(n) != [] && Varint(n) + [] == Varint(n)
  {
  }

  // ----- fields -----

  /** A tag is read as the field and the wire type that it was made of. */
  lemma TagRoundTrip(d: Descriptor, i: nat, wire: nat, s: seq<Byte>)
    requires DescriptorOk(d) && i < |d.fields| && wire < 8
    ensures ReadVarint32(TagBytes(d.fields[i].tag, wire) + s) == Ok(8 * d.fields[i].tag + wire, s)
    ensures TagBytes(d.fields[i].tag, wire) + s != []
    ensures IndexOf(d.fields, d.fields[i].tag) == i && (8 * d.fields[i].tag + wire) / 8 == d.fields[i].tag > 0
    ensures (8 * d.fields[i].tag + wire) % 8 == wire
  {
    hide ReadVarint32, IndexOf;
    assert FieldOk(d.fields[i]);
    Varint32RoundTrip(8 * d.fields[i].tag + wire, s);
    NotEmpty(8 * d.fields[i].tag + wire);
    FoundAt(d, i);
  }

  lemma FoundAt(d: Descriptor, i: nat)
    requires DescriptorOk(d) && i < |d.fields|
    ensures IndexOf(d.fields, d.fields[i].tag) == i
  {
    var j := IndexOf(d.fields, d.fields[i].tag);
  }

  /** A tag and a field behind it: one turn of the decoder's loop. */
  lemma OneTurn(d: Descriptor, i: nat, wire: nat, s: seq<Byte>, p: Progress, slot: Slot)
    requires DescriptorOk(d) && FitsAll(d, p.slots) && i < |d.fields| && wire < 8
    requires DecodeField(d.fields[i], wire, s, p.slots[i]) == Ok(slot, [])
    ensures DecodeLoop(d, TagBytes(d.fields[i].tag, wire) + s, p) == Some(Progress(p.slots[i := slot], p.seen + {i}))
  {
    hide ReadVarint32, DecodeField, TagBytes, IndexOf, FitsAll, FitsSlot, DescriptorOk, FieldOk;
    TagRoundTrip(d, i, wire, s);
    FieldFits(d, i, wire, s, p);
    var q := Progress(p.slots[i := slot], p.seen + {i});
    assert DecodeLoop(d, [], q) == Some(q);
  }

  lemma FieldFits(d: Descriptor, i: nat, wire: nat, s: seq<Byte>, p: Progress)
    requires DescriptorOk(d) && FitsAll(d, p.slots) && i < |d.fields|
    ensures |p.slots| == |d.fields| && FieldOk(d.fields[i]) && FitsSlot(d.fields[i], p.slots[i])
    ensures var r := DecodeField(d.fields[i], wire, s, p.slots[i]);
            r.Ok? ==> FitsSlot(d.fields[i], r.value) && FitsAll(d, p.slots[i := r.value])
  {
  }

  /** The progress after field i was decoded into a struct of defaults, if it was there at all. */
  ghost function After(d: Descriptor, slots: seq<Slot>, p: Progress, i: nat): Progress
    requires DescriptorOk(d) && FitsAll(d, slots) && FitsAll(d, p.slots) && i < |d.fields|
  {
    Progress(p.slots[i := CanonSlot(d.fields[i], slots[i])],
      if EncodeField(d.fields[i], slots[i]) == [] then p.seen else p.seen + {i})
  }

  lemma {:induction false} FieldRoundTrip(d: Descriptor, slots: seq<Slot>, p: Progress, i: nat)
    requires DescriptorOk(d) && FitsAll(d, slots) && EncodableAll(d, slots) && FitsAll(d, p.slots)
    requires i < |d.fields| && p.slots[i] == ZeroSlot(d.fields[i])
    requires |EncodeField(d.fields[i], slots[i])| < TWO_32
    ensures DecodeLoop(d, EncodeField(d.fields[i], slots[i]), p) == Some(After(d, slots, p, i))
    decreases d, 1
  {
    hide DecodeLoop, DecodeValue, EncodeValue, Canon, TagBytes, EncodePacked, DecodePacked, EncodeItems, Encodable;
    var f := d.fields[i];
    assert FieldOk(f) && FitsSlot(f, slots[i]) && EncodableSlot(f, slots[i]);
    match f.rule
    case Required =>
      ValueOfField(d, i, slots[i].v, p);
    case Optional =>
      if slots[i].has {
        ValueOfField(d, i, slots[i].v, p);
      } else {
        NothingToDecode(d, p);
        assert p.slots[i := p.slots[i]] == p.slots;
      }
    case Repeated(cap) =>
      var items := slots[i].items;
      if items == [] {
        NothingToDecode(d, p);
        assert CanonItems(f.kind, items) == [];
        assert p.slots[i := p.slots[i]] == p.slots;
      } else if Packable(f.kind) {
        PackedField(d, i, items, p);
      } else {
        ItemsField(d, i, items, p);
      }
  }

  lemma NothingToDecode(d: Descriptor, p: Progress)
    requires DescriptorOk(d) && FitsAll(d, p.slots)
    ensures DecodeLoop(d, [], p) == Some(p)
  {
  }

  /** A required or optional field that is there. */
  lemma {:induction false} ValueOfField(d: Descriptor, i: nat, v: Value, p: Progress)
    requires DescriptorOk(d) && FitsAll(d, p.slots) && i < |d.fields| && p.slots[i] == ZeroSlot(d.fields[i])
    requires !d.fields[i].rule.Repeated?
    requires KindOk(d.fields[i].kind) && Fits(d.fields[i].kind, v) && Encodable(d.fields[i].kind, v)
    requires |EncodeValue(d.fields[i].kind, v)| < TWO_32
    ensures var f := d.fields[i];
            var s := TagBytes(f.tag, WireType(f.kind)) + EncodeValue(f.kind, v);
            && s != []
            && DecodeLoop(d, s, p)
               == Some(Progress(
                 p.slots[i := if f.rule.Required? then Single(Canon(f.kind, v)) else Maybe(true, Canon(f.kind, v))],
                 p.seen + {i}))
    decreases d, 0
  {
    hide DecodeLoop, DecodeValue, EncodeValue, Canon, TagBytes, Encodable;
    var f := d.fields[i];
    assert FieldOk(f);
    ValueRoundTrip(f.kind, v, []);
    assert EncodeValue(f.kind, v) + [] == EncodeValue(f.kind, v);
    TagRoundTrip(d, i, WireType(f.kind), EncodeValue(f.kind, v));
    OneTurn(d, i, WireType(f.kind), EncodeValue(f.kind, v), p,
      if f.rule.Required? then Single(Canon(f.kind, v)) else Maybe(true, Canon(f.kind, v)));
  }

  lemma PackedField(d: Descriptor, i: nat, items: seq<Value>, p: Progress)
    requires DescriptorOk(d) && FitsAll(d, p.slots) && i < |d.fields| && p.slots[i] == ZeroSlot(d.fields[i])
    requires var f := d.fields[i];
             f.rule.Repeated? && Packable(f.kind) && KindOk(f.kind) && 0 < |items| <= f.rule.cap
             && (forall j :: 0 <= j < |items| ==> Fits(f.kind, items[j]))
             && |EncodePacked(f.kind, items)| < TWO_32
    ensures var f := d.fields[i];
            var s := TagBytes(f.tag, WT_STRING) + Delimited(EncodePacked(f.kind, items));
            && s != []
            && DecodeLoop(d, s, p) == Some(Progress(p.slots[i := Array(CanonItems(f.kind, items))], p.seen + {i}))
  {
    hide DecodeLoop, DecodeValue, TagBytes, Delimited, ReadDelimited, EncodePacked;
    var f := d.fields[i];
    assert FieldOk(f);
    var packed := EncodePacked(f.kind, items);
    PackedRoundTrip(f.kind, f.rule.cap, items);
    DelimitedIsRead(packed, []);
    assert Delimited(packed) + [] == Delimited(packed);
    assert CanonItems(f.kind, items) == items;
    TagRoundTrip(d, i, WT_STRING, Delimited(packed));
    OneTurn(d, i, WT_STRING, Delimited(packed), p, Array(items));
  }

  /** Unpacked elements come in one by one. */
  lemma {:induction false} ItemsField(d: Descriptor, i: nat, items: seq<Value>, p: Progress)
    requires DescriptorOk(d) && FitsAll(d, p.slots) && i < |d.fields| && p.slots[i] == Array([])
    requires var f := d.fields[i];
             f.rule.Repeated? && !Packable(f.kind) && KindOk(f.kind) && |items| <= f.rule.cap
             && (forall j :: 0 <= j < |items| ==> Fits(f.kind, items[j]) && Encodable(f.kind, items[j]))
             && |EncodeItems(f, items)| < TWO_32
    ensures var f := d.fields[i];
            var s := EncodeItems(f, items);
            && (items != [] ==> s != [])
            && DecodeLoop(d, s, p)
               == Some(Progress(p.slots[i := Array(CanonItems(f.kind, items))], if items == [] then p.seen else p.seen + {i}))
    decreases d, 0, |items|
  {
    hide DecodeLoop, EncodeValue, Canon, CanonItems, TagBytes, EncodeItems, Encodable, FitsAll, Fits, DescriptorOk, Varint;
    var f := d.fields[i];
    FieldFits(d, i, 0, [], p);
    ItemsEnd(f, items);
    if items == [] {
      NothingToDecode(d, p);
      assert p.slots[i := p.slots[i]] == p.slots;
    } else {
      var n := |items| - 1;
      var last := TagBytes(f.tag, WireType(f.kind)) + EncodeValue(f.kind, items[n]);
      ItemsField(d, i, items[..n], p);
      LastItem(d, i, items, p);
      DecodeLoopAppend(d, EncodeItems(f, items[..n]), last, p);
    }
  }

  /** What the last element adds to the bytes. */
  lemma ItemsEnd(f: Field, items: seq<Value>)
    requires KindOk(f.kind) && forall j :: 0 <= j < |items| ==> Fits(f.kind, items[j])
    ensures items == [] ==> EncodeItems(f, items) == [] && CanonItems(f.kind, items) == []
    ensures items != [] ==>
              var n := |items| - 1;
              var last := TagBytes(f.tag, WireType(f.kind)) + EncodeValue(f.kind, items[n]);
              EncodeItems(f, items) == EncodeItems(f, items[..n]) + last && last != []
  {
    hide EncodeValue, Fits;
    if items != [] {
      NotEmpty(8 * f.tag + WireType(f.kind));
    }
  }

  /** The last element behind the others: one turn of the decoder's loop. */
  lemma {:induction false} LastItem(d: Descriptor, i: nat, items: seq<Value>, p: Progress)
    requires DescriptorOk(d) && FitsAll(d, p.slots) && i < |d.fields| && i < |p.slots|
    requires var f := d.fields[i];
             f.rule.Repeated? && !Packable(f.kind) && KindOk(f.kind) && 0 < |items| <= f.rule.cap
             && (forall j :: 0 <= j < |items| ==> Fits(f.kind, items[j]) && Encodable(f.kind, items[j]))
             && |EncodeItems(f, items)| < TWO_32
    ensures var f := d.fields[i];
            var n := |items| - 1;
            var mid := Progress(p.slots[i := Array(CanonItems(f.kind, items[..n]))], if n == 0 then p.seen else p.seen + {i});
            && FitsAll(d, mid.slots)
            && DecodeLoop(d, TagBytes(f.tag, WireType(f.kind)) + EncodeValue(f.kind, items[n]), mid)
               == Some(Progress(p.slots[i := Array(CanonItems(f.kind, items))], p.seen + {i}))
    decreases d, 0, 0
  {
    hide DecodeLoop, DecodeValue, EncodeValue, Canon, TagBytes, EncodeItems, Encodable, FitsAll, Fits, DescriptorOk, Varint;
    var f := d.fields[i];
    var n := |items| - 1;
    var wire := WireType(f.kind);
    var one := EncodeValue(f.kind, items[n]);
    FieldFits(d, i, 0, [], p);
    ItemsEnd(f, items);
    ValueRoundTrip(f.kind, items[n], []);
    assert one + [] == one;
    var c := CanonItems(f.kind, items[..n]);
    var mid := Progress(p.slots[i := Array(c)], if n == 0 then p.seen else p.seen + {i});
    assert CanonItems(f.kind, items) == c + [Canon(f.kind, items[n])];
    ArrayFits(d, i, items[..n], p);
    AppendOne(f, wire, one, c, Canon(f.kind, items[n]));
    OneTurn(d, i, wire, one, mid, Array(CanonItems(f.kind, items)));
    assert mid.slots[i := Array(CanonItems(f.kind, items))] == p.slots[i := Array(CanonItems(f.kind, items))];
    assert mid.seen + {i} == p.seen + {i};
  }

  lemma ArrayFits(d: Descriptor, i: nat, items: seq<Value>, p: Progress)
    requires DescriptorOk(d) && FitsAll(d, p.slots) && i < |d.fields| && d.fields[i].rule.Repeated? && KindOk(d.fields[i].kind)
    requires forall j :: 0 <= j < |items| ==> Fits(d.fields[i].kind, items[j])
    ensures var c := CanonItems(d.fields[i].kind, items);
            |p.slots| == |d.fields| && FitsSlot(d.fields[i], Array(c)) && FitsAll(d, p.slots[i := Array(c)])
  {
    hide Fits, Canon;
    var slots := p.slots[i := Array(CanonItems(d.fields[i].kind, items))];
    forall j | 0 <= j < |slots| ensures FitsSlot(d.fields[j], slots[j]) {
      if j != i {
        assert FitsSlot(d.fields[j], p.slots[j]);
      }
    }
  }

  lemma AppendOne(f: Field, wire: nat, s: seq<Byte>, items: seq<Value>, v: Value)
    requires FieldOk(f) && f.rule.Repeated? && !Packable(f.kind) && |items| < f.rule.cap && FitsSlot(f, Array(items))
    requires DecodeValue(f.kind, s, Zero(f.kind)) == Ok(v, [])
    ensures DecodeField(f, wire, s, Array(items)) == Ok(Array(items + [v]), [])
  {
  }

  // ----- messages -----

  /** The struct after the first n fields: those are decoded, the others hold defaults. */
  ghost function Mixed(d: Descriptor, slots: seq<Slot>, n: nat): (m: seq<Slot>)
    requires DescriptorOk(d) && FitsAll(d, slots) && n <= |slots|
    ensures FitsAll(d, m)
  {
    CanonAll(d, slots)[..n] + Defaults(d)[n..]
  }

  /** The first n fields of a message decode to themselves; required ones are seen. */
  lemma {:induction false} PrefixRoundTrip(d: Descriptor, slots: seq<Slot>, n: nat) returns (p: Progress)
    requires DescriptorOk(d) && FitsAll(d, slots) && EncodableAll(d, slots) && n <= |slots|
    requires |EncodeUpTo(d, slots, n)| < TWO_32
    ensures FitsAll(d, p.slots) && p.slots == Mixed(d, slots, n)
    ensures DecodeLoop(d, EncodeUpTo(d, slots, n), Progress(Defaults(d), {})) == Some(p)
    ensures forall i :: 0 <= i < n && d.fields[i].rule.Required? ==> i in p.seen
    ensures forall i :: i in p.seen ==> i < n
    decreases d, 2, n
  {
    hide DecodeLoop, EncodeField, EncodableAll, FitsSlot, FieldOk, CanonSlot, Mixed, ZeroSlot, Defaults;
    if n == 0 {
      MixedStart(d, slots);
      p := Progress(Defaults(d), {});
      NothingToDecode(d, p);
    } else {
      var i := n - 1;
      var q := PrefixRoundTrip(d, slots, i);
      MixedStart(d, slots);
      MixedAt(d, slots, i);
      FieldRoundTrip(d, slots, q, i);
      DecodeLoopAppend(d, EncodeUpTo(d, slots, i), EncodeField(d.fields[i], slots[i]), Progress(Defaults(d), {}));
      p := After(d, slots, q, i);
      MixedNext(d, slots, i);
      RequiredIsThere(d.fields[i], slots[i]);
    }
  }

  lemma MixedStart(d: Descriptor, slots: seq<Slot>)
    requires DescriptorOk(d) && FitsAll(d, slots)
    ensures Mixed(d, slots, 0) == Defaults(d) && FitsAll(d, Defaults(d))
  {
  }

  lemma MixedAt(d: Descriptor, slots: seq<Slot>, i: nat)
    requires DescriptorOk(d) && FitsAll(d, slots) && i < |slots|
    ensures |slots| == |d.fields| == |Mixed(d, slots, i)|
    ensures FieldOk(d.fields[i]) && FitsSlot(d.fields[i], slots[i]) && Mixed(d, slots, i)[i] == ZeroSlot(d.fields[i])
  {
  }

  lemma MixedNext(d: Descriptor, slots: seq<Slot>, i: nat)
    requires DescriptorOk(d) && FitsAll(d, slots) && i < |slots|
    ensures Mixed(d, slots, i)[i := CanonSlot(d.fields[i], slots[i])] == Mixed(d, slots, i + 1)
  {
  }

  lemma RequiredIsThere(f: Field, slot: Slot)
    requires FitsSlot(f, slot)
    ensures f.rule.Required? ==> EncodeField(f, slot) != []
  {
    NotEmpty(8 * f.tag + WireType(f.kind));
  }

  /**
   The whole-message round trip: decoding the encoded bytes succeeds, consumes all of them
   and gives the same presence flags, counts, present values and string contents.
   */
  lemma {:induction false} MessageRoundTrip(d: Descriptor, slots: seq<Slot>)
    requires DescriptorOk(d) && FitsAll(d, slots) && EncodableAll(d, slots)
    requires |EncodeMessage(d, slots)| < TWO_32
    ensures Decode(d, EncodeMessage(d, slots)) == Some(CanonAll(d, slots))
    ensures SameMessage(d, slots, CanonAll(d, slots))
    decreases d, 3
  {
    hide DecodeLoop, EncodeUpTo, EncodableAll;
    CanonIsSame(d, slots);
    var p := PrefixRoundTrip(d, slots, |slots|);
    assert Mixed(d, slots, |slots|) == CanonAll(d, slots);
  }
}
