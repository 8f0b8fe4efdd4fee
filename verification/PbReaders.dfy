/**
 What readers make of encoded bytes that do not share the writer's descriptor: readers that
 lack some of its fields, and readers that got only a part of the message.
 */
module PbReaders {
  import opened Basics
  import opened PbBits
  import opened PbVarint
  import opened PbMessage
  import opened PbMerge
  import opened PbRoundTrip

  // ----- wire types -----

  /** The wire type of a value tells a reader that does not know its kind where it ends. */
  lemma WireTypeSkipsValue(k: Kind, v: Value, rest: seq<Byte>)
    requires KindOk(k) && Fits(k, v) && |EncodeValue(k, v)| < TWO_32
    ensures Skip(WireType(k), EncodeValue(k, v) + rest) == Some(rest)
  {
    hide Varint, EncodeMessage, UpToNul, ReadDelimited, Extent;
    match k
    case Bool => SkipsVarint(v.n, rest);
    case UVarint(_, _) => SkipsVarint(v.n, rest);
    case Fixed32 =>
      var s := LittleEndian(v.n, 4);
      assert (s + rest)[4..] == rest;
    case Text(_) => SkipsDelimited(UpToNul(v.buffer), rest);
    case Message(d) => SkipsDelimited(EncodeMessage(d, v.slots), rest);
  }

  lemma SkipsVarint(n: nat, rest: seq<Byte>)
    ensures Skip(WT_VARINT, Varint(n) + rest) == Some(rest)
  {
    hide Varint, Extent;
    VarintExtent(n, rest);
    NotEmpty(n);
  }

  lemma SkipsDelimited(s: seq<Byte>, rest: seq<Byte>)
    requires |Delimited(s)| < TWO_32
    ensures Skip(WT_STRING, Delimited(s) + rest) == Some(rest)
  {
    hide Varint, ReadDelimited;
    DelimitedIsRead(s, rest);
  }

  /** A value as any writer may send it, under one of the four wire types in use. */
  ghost predicate ForeignValue(wire: nat, value: seq<Byte>) {
    || (wire == 0 && exists n :: value == Varint(n))
    || (wire == 1 && |value| == 8)
    || (wire == 2 && exists s: seq<Byte> :: |Delimited(s)| < TWO_32 && value == Delimited(s))
    || (wire == 5 && |value| == 4)
  }

  /** It is skipped exactly, whatever it is. */
  lemma ForeignValueIsSkipped(wire: nat, value: seq<Byte>, rest: seq<Byte>)
    requires ForeignValue(wire, value)
    ensures Skip(wire, value + rest) == Some(rest)
  {
    hide Varint, Extent, ReadDelimited, Delimited;
    if wire == 0 {
      var n :| value == Varint(n);
      SkipsVarint(n, rest);
    } else if wire == 2 {
      var s: seq<Byte> :| |Delimited(s)| < TWO_32 && value == Delimited(s);
      SkipsDelimited(s, rest);
    } else {
      assert (value + rest)[|value|..] == rest;
    }
  }

  // ----- fields that a reader does not know -----

  ghost predicate Lacks(d: Descriptor, tag: nat) {
    forall i :: 0 <= i < |d.fields| ==> d.fields[i].tag != tag
  }

  /** A key with a tag that the reader lacks, and a value that its wire type delimits. */
  lemma KeyIsUnknown(d: Descriptor, tag: nat, wire: nat, value: seq<Byte>)
    requires Lacks(d, tag) && 0 < tag < 0x1_0000 && wire < 8 && Skip(wire, value) == Some([])
    ensures UnknownField(d, TagBytes(tag, wire) + value)
  {
    hide ReadVarint32, Skip, IndexOf;
    Varint32RoundTrip(8 * tag + wire, value);
    LacksMeans(d, tag);
  }

  lemma LacksMeans(d: Descriptor, tag: nat)
    requires Lacks(d, tag)
    ensures IndexOf(d.fields, tag) == |d.fields|
  {
  }

  /** Whatever a field holds, a reader that lacks it goes on behind it with the struct it had. */
  lemma UnknownFieldIsSkipped(d: Descriptor, p: Progress, f: Field, slot: Slot)
    requires DescriptorOk(d) && FitsAll(d, p.slots) && FieldOk(f) && FitsSlot(f, slot) && Lacks(d, f.tag)
    requires |EncodeField(f, slot)| < TWO_32
    ensures DecodeLoop(d, EncodeField(f, slot), p) == Some(p)
  {
    hide DecodeLoop, EncodeValue, EncodePacked, EncodeItems, TagBytes, Delimited, Skip, FitsAll, DescriptorOk, Fits;
    match f.rule
    case Required => ValueIsSkipped(d, p, f, slot.v);
    case Optional =>
      if slot.has {
        ValueIsSkipped(d, p, f, slot.v);
      } else {
        NothingToDecode(d, p);
      }
    case Repeated(_) =>
      if slot.items == [] {
        NothingToDecode(d, p);
      } else if Packable(f.kind) {
        PackedIsSkipped(d, p, f, slot.items);
      } else {
        ItemsAreSkipped(d, p, f, slot.items);
      }
  }

  lemma ValueIsSkipped(d: Descriptor, p: Progress, f: Field, v: Value)
    requires DescriptorOk(d) && FitsAll(d, p.slots) && FieldOk(f) && Fits(f.kind, v) && Lacks(d, f.tag)
    requires |TagBytes(f.tag, WireType(f.kind)) + EncodeValue(f.kind, v)| < TWO_32
    ensures DecodeLoop(d, TagBytes(f.tag, WireType(f.kind)) + EncodeValue(f.kind, v), p) == Some(p)
  {
    hide DecodeLoop, EncodeValue, TagBytes, Skip, UnknownField, Fits, FitsAll, DescriptorOk;
    var value := EncodeValue(f.kind, v);
    WireTypeSkipsValue(f.kind, v, []);
    assert value + [] == value;
    KeyIsUnknown(d, f.tag, WireType(f.kind), value);
    UnknownFieldLoop(d, TagBytes(f.tag, WireType(f.kind)) + value, p);
  }

  lemma PackedIsSkipped(d: Descriptor, p: Progress, f: Field, items: seq<Value>)
    requires DescriptorOk(d) && FitsAll(d, p.slots) && FieldOk(f) && Lacks(d, f.tag)
    requires forall i :: 0 <= i < |items| ==> Fits(f.kind, items[i])
    requires |TagBytes(f.tag, WT_STRING) + Delimited(EncodePacked(f.kind, items))| < TWO_32
    ensures DecodeLoop(d, TagBytes(f.tag, WT_STRING) + Delimited(EncodePacked(f.kind, items)), p) == Some(p)
  {
    hide DecodeLoop, EncodePacked, TagBytes, Delimited, Skip, UnknownField, Fits, FitsAll, DescriptorOk;
    var value := Delimited(EncodePacked(f.kind, items));
    SkipsDelimited(EncodePacked(f.kind, items), []);
    assert value + [] == value;
    KeyIsUnknown(d, f.tag, WT_STRING, value);
    UnknownFieldLoop(d, TagBytes(f.tag, WT_STRING) + value, p);
  }

  lemma {:induction false} ItemsAreSkipped(d: Descriptor, p: Progress, f: Field, items: seq<Value>)
    requires DescriptorOk(d) && FitsAll(d, p.slots) && FieldOk(f) && Lacks(d, f.tag)
    requires forall i :: 0 <= i < |items| ==> Fits(f.kind, items[i])
    requires |EncodeItems(f, items)| < TWO_32
    ensures DecodeLoop(d, EncodeItems(f, items), p) == Some(p)
    decreases |items|
  {
    hide DecodeLoop, EncodeValue, EncodeItems, TagBytes, Fits, FitsAll, DescriptorOk, FieldOk;
    KindIsOk(f);
    ItemsEnd(f, items);
    if items == [] {
      NothingToDecode(d, p);
    } else {
      var n := |items| - 1;
      var last := TagBytes(f.tag, WireType(f.kind)) + EncodeValue(f.kind, items[n]);
      ItemsAreSkipped(d, p, f, items[..n]);
      ValueIsSkipped(d, p, f, items[n]);
      DecodeLoopAppend(d, EncodeItems(f, items[..n]), last, p);
    }
  }

  lemma KindIsOk(f: Field)
    requires FieldOk(f)
    ensures KindOk(f.kind)
  {
  }

  // ----- older readers -----

  /** `d` is an older version of `newer`, to which fields were added. */
  ghost predicate Older(d: Descriptor, newer: Descriptor) {
    d.fields <= newer.fields
  }

  lemma OlderFields(d: Descriptor, newer: Descriptor, slots: seq<Slot>)
    requires Older(d, newer) && DescriptorOk(d) && DescriptorOk(newer) && FitsAll(newer, slots)
    ensures |d.fields| <= |slots| == |newer.fields| && FitsAll(d, slots[..|d.fields|])
    ensures forall i :: 0 <= i < |d.fields| ==> newer.fields[i] == d.fields[i]
    ensures forall i :: |d.fields| <= i < |slots| ==>
              FieldOk(newer.fields[i]) && FitsSlot(newer.fields[i], slots[i]) && Lacks(d, newer.fields[i].tag)
    ensures EncodableAll(newer, slots) ==> EncodableAll(d, slots[..|d.fields|])
  {
    hide FieldOk, FitsSlot, EncodableSlot;
    var own := slots[..|d.fields|];
    forall i | 0 <= i < |own| ensures own[i] == slots[i] && d.fields[i] == newer.fields[i] {
    }
  }

  lemma {:induction false} OlderBytes(d: Descriptor, newer: Descriptor, slots: seq<Slot>, n: nat)
    requires Older(d, newer) && DescriptorOk(d) && DescriptorOk(newer) && FitsAll(newer, slots)
    requires |d.fields| <= |slots| && FitsAll(d, slots[..|d.fields|]) && n <= |d.fields|
    ensures EncodeUpTo(newer, slots, n) == EncodeUpTo(d, slots[..|d.fields|], n)
  {
    hide EncodeField, FitsSlot, FieldOk;
    if n > 0 {
      OlderBytes(d, newer, slots, n - 1);
    }
  }

  lemma {:induction false} AddedFieldsAreSkipped(d: Descriptor, newer: Descriptor, slots: seq<Slot>, n: nat)
    requires Older(d, newer) && DescriptorOk(d) && DescriptorOk(newer) && FitsAll(newer, slots) && EncodableAll(newer, slots)
    requires |d.fields| <= n <= |slots| && |EncodeUpTo(newer, slots, n)| < TWO_32
    ensures FitsAll(d, slots[..|d.fields|])
    ensures Decode(d, EncodeUpTo(newer, slots, n)) == Some(CanonAll(d, slots[..|d.fields|]))
    decreases n
  {
    hide DecodeLoop, EncodeField, FitsSlot, FieldOk, EncodableAll, FitsAll, DescriptorOk, Lacks, Complete, CanonAll, Defaults;
    OlderFields(d, newer, slots);
    var m := |d.fields|;
    if n == m {
      OlderBytes(d, newer, slots, m);
      MessageRoundTrip(d, slots[..m]);
    } else {
      var a := EncodeUpTo(newer, slots, n - 1);
      var u := EncodeField(newer.fields[n - 1], slots[n - 1]);
      AddedFieldsAreSkipped(d, newer, slots, n - 1);
      DefaultsFit(d);
      var p := Progress(Defaults(d), {});
      UnknownFieldIsSkipped(d, DecodeLoop(d, a, p).value, newer.fields[n - 1], slots[n - 1]);
      DecodeLoopAppend(d, a, u, p);
    }
  }

  lemma DefaultsFit(d: Descriptor)
    requires DescriptorOk(d)
    ensures FitsAll(d, Defaults(d))
  {
  }

  /** A reader with an older descriptor gets the message without the added fields, and nothing else. */
  lemma OlderReaderReads(d: Descriptor, newer: Descriptor, slots: seq<Slot>)
    requires Older(d, newer) && DescriptorOk(d) && DescriptorOk(newer) && FitsAll(newer, slots) && EncodableAll(newer, slots)
    requires |EncodeMessage(newer, slots)| < TWO_32
    ensures |d.fields| <= |slots| && FitsAll(d, slots[..|d.fields|])
    ensures Decode(d, EncodeMessage(newer, slots)) == Some(CanonAll(d, slots[..|d.fields|]))
  {
    hide DecodeInner, EncodeUpTo, EncodableAll, CanonAll;
    OlderFields(d, newer, slots);
    AddedFieldsAreSkipped(d, newer, slots, |slots|);
  }

  // ----- required fields -----

  /** A message cut off between two fields is accepted exactly if none of the first 64 required fields is behind the cut. */
  lemma CutMessageIsAccepted(d: Descriptor, slots: seq<Slot>, n: nat)
    requires DescriptorOk(d) && FitsAll(d, slots) && EncodableAll(d, slots) && n <= |slots|
    requires |EncodeUpTo(d, slots, n)| < TWO_32
    ensures Decode(d, EncodeUpTo(d, slots, n)).Some? <==>
              forall i :: n <= i < |d.fields| && d.fields[i].rule.Required? ==> RequiredBefore(d.fields, i) >= 64
  {
    hide DecodeLoop, EncodeUpTo, FitsAll, DescriptorOk, EncodableAll, RequiredBefore;
    var p := PrefixRoundTrip(d, slots, n);
  }

  // ----- absent members -----

  /** All memory of the member is zero. */
  ghost predicate Blank(k: Kind, v: Value)
    requires Fits(k, v)
    decreases k, 0
  {
    match k
    case Text(_) => forall i :: 0 <= i < |v.buffer| ==> v.buffer[i] == 0
    case Message(d) => BlankAll(d, v.slots)
    case _ => v.n == 0
  }

  /** The member is absent, and its memory zero. */
  ghost predicate BlankSlot(f: Field, slot: Slot)
    requires FitsSlot(f, slot)
    decreases f, 0
  {
    match f.rule
    case Required => Blank(f.kind, slot.v)
    case Optional => !slot.has && Blank(f.kind, slot.v)
    case Repeated(_) => slot.items == []
  }

  ghost predicate BlankAll(d: Descriptor, slots: seq<Slot>)
    requires FitsAll(d, slots)
    decreases d, 0
  {
    forall i :: 0 <= i < |slots| ==> BlankSlot(d.fields[i], slots[i])
  }

  lemma {:induction false} ZeroIsBlank(k: Kind)
    requires KindOk(k)
    ensures Blank(k, Zero(k))
    decreases k, 0
  {
    match k
    case Message(d) => DefaultsAreBlank(d);
    case _ =>
  }

  lemma {:induction false} DefaultsAreBlank(d: Descriptor)
    requires DescriptorOk(d)
    ensures BlankAll(d, Defaults(d))
    decreases d, 0
  {
    hide Blank;
    forall i | 0 <= i < |d.fields| ensures BlankSlot(d.fields[i], Defaults(d)[i]) {
      assert FieldOk(d.fields[i]);
      ZeroIsBlank(d.fields[i].kind);
    }
  }

  /** The empty message is a blank struct, unless a field is required. */
  lemma EmptyMessageIsBlank(d: Descriptor)
    requires DescriptorOk(d)
    ensures BlankAll(d, Defaults(d))
    ensures Decode(d, []) == if forall i :: 0 <= i < |d.fields| ==> !d.fields[i].rule.Required? then Some(Defaults(d)) else None
  {
    hide BlankAll, Defaults;
    DefaultsAreBlank(d);
    DefaultsFit(d);
    NothingToDecode(d, Progress(Defaults(d), {}));
    if i :| 0 <= i < |d.fields| && d.fields[i].rule.Required? {
      FirstRequired(d, i);
    }
  }

  /** The first required field counts among the first 64. */
  lemma {:induction false} FirstRequired(d: Descriptor, i: nat)
    requires i < |d.fields| && d.fields[i].rule.Required?
    ensures exists j :: 0 <= j < |d.fields| && d.fields[j].rule.Required? && RequiredBefore(d.fields, j) == 0
  {
    if RequiredBefore(d.fields, i) > 0 {
      var j := EarlierRequired(d, i);
      FirstRequired(d, j);
    }
  }

  lemma {:induction false} EarlierRequired(d: Descriptor, i: nat) returns (j: nat)
    requires i <= |d.fields| && RequiredBefore(d.fields, i) > 0
    ensures j < i && d.fields[j].rule.Required?
  {
    if d.fields[i - 1].rule.Required? {
      j := i - 1;
    } else {
      j := EarlierRequired(d, i - 1);
    }
  }

  // ----- malformed messages -----

  /** At a field boundary a key without a tag, or an unknown one of a wire type that is not in use, spoils the message. */
  lemma MalformedIsRefused(d: Descriptor, a: seq<Byte>, tag: nat, wire: nat, rest: seq<Byte>)
    requires DescriptorOk(d) && DecodeLoop(d, a, Progress(Defaults(d), {})).Some? && wire < 8 && tag < 0x1_0000
    requires tag == 0 || (Lacks(d, tag) && wire !in {0, 1, 2, 5})
    ensures Decode(d, a + (TagBytes(tag, wire) + rest)) == None
  {
    hide DecodeLoop, ReadVarint32, Defaults, DescriptorOk, IndexOf, Varint;
    DefaultsFit(d);
    var p := Progress(Defaults(d), {});
    DecodeLoopAppend(d, a, TagBytes(tag, wire) + rest, p);
    Varint32RoundTrip(8 * tag + wire, rest);
    NotEmpty(8 * tag + wire);
    BadKey(d, TagBytes(tag, wire) + rest, DecodeLoop(d, a, p).value, 8 * tag + wire, rest);
  }

  lemma BadKey(d: Descriptor, s: seq<Byte>, p: Progress, key: nat, rest: seq<Byte>)
    requires DescriptorOk(d) && FitsAll(d, p.slots) && s != [] && ReadVarint32(s) == Ok(key, rest)
    requires key / 8 == 0 || (Lacks(d, key / 8) && key % 8 !in {0, 1, 2, 5})
    ensures DecodeLoop(d, s, p) == None
  {
    hide ReadVarint32, IndexOf;
    if key / 8 != 0 {
      LacksMeans(d, key / 8);
    }
  }

  // ----- what does not fit a member -----

  lemma LimitIs(size: nat)
    requires size in {1, 2, 4, 8}
    ensures Limit(size) == Pow256(size)
  {
    assert Pow256(0) == 1 && Pow256(1) == 256 && Pow256(2) == 0x1_0000;
    assert Pow256(3) == 256 * Pow256(2) && Pow256(4) == 256 * Pow256(3);
    assert Pow256(5) == 256 * Pow256(4) && Pow256(6) == 256 * Pow256(5);
    assert Pow256(7) == 256 * Pow256(6) && Pow256(8) == 256 * Pow256(7);
  }

  /** A number is accepted exactly if the member has enough bytes for it. */
  lemma NumberIsAccepted(size: nat, largest: nat, n: nat, rest: seq<Byte>, was: Value)
    requires KindOk(UVarint(size, largest)) && Fits(UVarint(size, largest), was) && n < TWO_64
    ensures DecodeValue(UVarint(size, largest), Varint(n) + rest, was)
         == if n < Pow256(size) then Ok(Number(n), rest) else Fail
  {
    hide ReadVarint, Varint, Pow256, Limit;
    VarintRoundTrip(n, rest);
    LimitIs(size);
  }

  /** A text is accepted exactly if there is room for it and its terminator, and it is then the member's text. */
  lemma TextIsAccepted(size: nat, text: seq<Byte>, rest: seq<Byte>, was: Value)
    requires KindOk(Text(size)) && Fits(Text(size), was) && |text| < TWO_32
    ensures var r := DecodeValue(Text(size), Delimited(text) + rest, was);
            && (r.Ok? <==> |text| < size)
            && (r.Ok? ==> r.rest == rest && r.value.buffer[..|text|] == text && UpToNul(r.value.buffer) == UpToNul(text))
  {
    hide ReadVarint32, Varint;
    Varint32RoundTrip(|text|, text + rest);
    assert Delimited(text) + rest == Varint(|text|) + (text + rest);
    assert (text + rest)[..|text|] == text && (text + rest)[|text|..] == rest;
    if |text| < size {
      var behind := was.buffer[|text| + 1..];
      assert text + [0] + behind == text + ([0] + behind);
      TerminatedText(text, behind);
    }
  }

  lemma {:induction false} TerminatedText(text: seq<Byte>, behind: seq<Byte>)
    ensures UpToNul(text + ([0] + behind)) == UpToNul(text)
  {
    var s := text + ([0] + behind);
    if text == [] {
      assert s[0] == 0;
    } else if text[0] != 0 {
      assert s[1..] == text[1..] + ([0] + behind);
      TerminatedText(text[1..], behind);
    }
  }

  /** Any number but zero is true. */
  lemma BoolIsRead(n: nat, rest: seq<Byte>, was: Value)
    requires Fits(Bool, was) && n < TWO_32
    ensures DecodeValue(Bool, Varint(n) + rest, was) == Ok(Number(if n == 0 then 0 else 1), rest)
  {
    hide ReadVarint32, Varint;
    Varint32RoundTrip(n, rest);
  }

  // ----- known bytes -----

  lemma OneByte(n: nat)
    requires n < 128
    ensures Varint(n) == [n]
  {
  }

  lemma FourBytesOf(n: nat)
    requires n < TWO_32
    ensures LittleEndian(n, 4) == [n % 256, n / 0x100 % 256, n / 0x1_0000 % 256, n / 0x100_0000 % 256]
  {
    var a := n / 256;
    var b := a / 256;
    assert n / 0x1_0000 == b && n / 0x100_0000 == b / 256;
    assert LittleEndian(b / 256, 1) == [b / 256 % 256] + LittleEndian(b / 256 / 256, 0);
    assert LittleEndian(b, 2) == [b % 256] + LittleEndian(b / 256, 1);
    assert LittleEndian(a, 3) == [a % 256] + LittleEndian(b, 2);
  }

  /**
   The bytes of two members of a GPS record as the protocol buffers encoding has them: the
   hours, a small number under key 0x10, and the latitude, a float under key 0x25.
   */
  lemma GpsBytes(hours: Field, n: nat, latitude: Field, x: nat)
    requires hours.tag == 2 && hours.rule.Optional? && hours.kind == UVarint(4, TWO_32 - 1) && n < 128
    requires latitude.tag == 4 && latitude.rule.Optional? && latitude.kind == Fixed32 && x < TWO_32
    ensures EncodeField(hours, Maybe(true, Number(n))) == [0x10, n]
    ensures EncodeField(latitude, Maybe(true, Number(x)))
         == [0x25, x % 256, x / 0x100 % 256, x / 0x1_0000 % 256, x / 0x100_0000 % 256]
  {
    hide Varint, LittleEndian;
    OneByte(8 * hours.tag);
    OneByte(n);
    OneByte(8 * latitude.tag + 5);
    FourBytesOf(x);
  }
}
