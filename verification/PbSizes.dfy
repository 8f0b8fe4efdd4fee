/** How long encoded messages can get (the *_size constants of messages.pb.h). */
module PbSizes {
  import opened Arith
  import opened Basics
  import opened PbBits
  import opened PbVarint
  import opened PbMessage

  function VarintSize(n: nat): nat {
    |Varint(n)|
  }

  function DelimitedSize(n: nat): nat {
    VarintSize(n) + n
  }

  /** Every string has room for its terminator. */
  ghost predicate RoomForNul(k: Kind)
    decreases k
  {
    match k
    case Text(size) => size > 0
    case Message(d) => forall i :: 0 <= i < |d.fields| ==> RoomInField(d.fields[i])
    case _ => true
  }

  ghost predicate RoomInField(f: Field)
    decreases f
  {
    RoomForNul(f.kind)
  }

  /** The size of the longest encoding of a value, a field, a message. */
  ghost function MaxValue(k: Kind): nat
    decreases k, 0
  {
    match k
    case Bool => 1
    case UVarint(_, largest) => VarintSize(largest)
    case Fixed32 => 4
    case Text(size) => DelimitedSize(if size == 0 then 0 else size - 1)
    case Message(d) => DelimitedSize(MaxMessage(d))
  }

  ghost function MaxField(f: Field): nat
    decreases f, 0
  {
    match f.rule
    case Required => VarintSize(8 * f.tag + WireType(f.kind)) + MaxValue(f.kind)
    case Optional => VarintSize(8 * f.tag + WireType(f.kind)) + MaxValue(f.kind)
    case Repeated(cap) =>
      if cap == 0 then 0
      else if Packable(f.kind) then VarintSize(8 * f.tag + WT_STRING) + DelimitedSize(cap * MaxValue(f.kind))
      else cap * (VarintSize(8 * f.tag + WireType(f.kind)) + MaxValue(f.kind))
  }

  ghost function MaxUpTo(d: Descriptor, n: nat): nat
    requires n <= |d.fields|
    decreases d, 0, n
  {
    if n == 0 then 0 else MaxUpTo(d, n - 1) + MaxField(d.fields[n - 1])
  }

  ghost function MaxMessage(d: Descriptor): nat
    decreases d, 1
  {
    MaxUpTo(d, |d.fields|)
  }

  /** Numbers are ones that the .proto type allows: enumerators, for an enumeration. */
  ghost predicate InRange(k: Kind, v: Value)
    requires Fits(k, v)
    decreases k, 0
  {
    match k
    case UVarint(_, largest) => v.n <= largest
    case Message(d) => AllInRange(d, v.slots)
    case _ => true
  }

  ghost predicate SlotInRange(f: Field, slot: Slot)
    requires FitsSlot(f, slot)
    decreases f, 0
  {
    match f.rule
    case Required => InRange(f.kind, slot.v)
    case Optional => slot.has ==> InRange(f.kind, slot.v)
    case Repeated(_) => forall i :: 0 <= i < |slot.items| ==> InRange(f.kind, slot.items[i])
  }

  ghost predicate AllInRange(d: Descriptor, slots: seq<Slot>)
    requires FitsAll(d, slots)
    decreases d, 0
  {
    forall i :: 0 <= i < |slots| ==> SlotInRange(d.fields[i], slots[i])
  }

  lemma {:induction false} VarintSizeGrows(a: nat, b: nat)
    requires a <= b
    ensures VarintSize(a) <= VarintSize(b)
  {
    if b >= 128 && a >= 128 {
      VarintSizeGrows(a / 128, b / 128);
    }
  }

  lemma DelimitedSizeGrows(a: nat, b: nat)
    requires a <= b
    ensures DelimitedSize(a) <= DelimitedSize(b)
  {
    VarintSizeGrows(a, b);
  }

  // ----- nothing is longer -----

  lemma {:induction false} ValueBound(k: Kind, v: Value)
    requires KindOk(k) && Fits(k, v) && Encodable(k, v) && InRange(k, v)
    ensures |EncodeValue(k, v)| <= MaxValue(k)
    decreases k, 0
  {
    hide Varint;
    match k
    case Bool => OneByte(v.n);
    case UVarint(_, largest) => VarintSizeGrows(v.n, largest);
    case Fixed32 =>
    case Text(size) => DelimitedSizeGrows(|UpToNul(v.buffer)|, size - 1);
    case Message(d) =>
      MessageBound(d, v.slots);
      DelimitedSizeGrows(|EncodeMessage(d, v.slots)|, MaxMessage(d));
  }

  lemma {:induction false} PackedBound(k: Kind, items: seq<Value>)
    requires KindOk(k) && Packable(k)
    requires forall i :: 0 <= i < |items| ==> Fits(k, items[i]) && InRange(k, items[i])
    ensures |EncodePacked(k, items)| <= |items| * MaxValue(k)
    decreases k, 1, |items|
  {
    hide EncodeValue, MaxValue, Fits, InRange;
    if items != [] {
      var n := |items| - 1;
      PackedBound(k, items[..n]);
      ScalarEncodable(k, items[n]);
      ValueBound(k, items[n]);
      assert |items| * MaxValue(k) == n * MaxValue(k) + MaxValue(k);
    }
  }

  lemma ScalarEncodable(k: Kind, v: Value)
    requires Packable(k) && Fits(k, v)
    ensures Encodable(k, v)
  {
  }

  lemma {:induction false} ItemsBound(f: Field, items: seq<Value>)
    requires KindOk(f.kind)
    requires forall i :: 0 <= i < |items| ==> Fits(f.kind, items[i]) && Encodable(f.kind, items[i]) && InRange(f.kind, items[i])
    ensures |EncodeItems(f, items)| <= |items| * (VarintSize(8 * f.tag + WireType(f.kind)) + MaxValue(f.kind))
    decreases f, 0, |items|
  {
    hide EncodeValue, MaxValue, Fits, InRange, Encodable, Varint;
    if items != [] {
      var n := |items| - 1;
      var one := VarintSize(8 * f.tag + WireType(f.kind)) + MaxValue(f.kind);
      ItemsBound(f, items[..n]);
      ValueBound(f.kind, items[n]);
      assert |items| * one == n * one + one;
    }
  }

  lemma {:induction false} FieldBound(f: Field, slot: Slot)
    requires FieldOk(f) && FitsSlot(f, slot) && EncodableSlot(f, slot) && SlotInRange(f, slot)
    ensures |EncodeField(f, slot)| <= MaxField(f)
    decreases f, 1
  {
    hide EncodeValue, MaxValue, Fits, InRange, Encodable, Varint;
    match f.rule
    case Required => ValueBound(f.kind, slot.v);
    case Optional =>
      if slot.has {
        ValueBound(f.kind, slot.v);
      }
    case Repeated(cap) =>
      var items := slot.items;
      if items != [] {
        if Packable(f.kind) {
          PackedBound(f.kind, items);
          MulMono(|items|, cap, MaxValue(f.kind));
          DelimitedSizeGrows(|EncodePacked(f.kind, items)|, cap * MaxValue(f.kind));
        } else {
          ItemsBound(f, items);
          MulMono(|items|, cap, VarintSize(8 * f.tag + WireType(f.kind)) + MaxValue(f.kind));
        }
      }
  }

  lemma {:induction false} UpToBound(d: Descriptor, slots: seq<Slot>, n: nat)
    requires DescriptorOk(d) && FitsAll(d, slots) && EncodableAll(d, slots) && AllInRange(d, slots) && n <= |slots|
    ensures |EncodeUpTo(d, slots, n)| <= MaxUpTo(d, n)
    decreases d, 0, n
  {
    hide EncodeField, MaxField, SlotInRange;
    if n > 0 {
      UpToBound(d, slots, n - 1);
      FieldBound(d.fields[n - 1], slots[n - 1]);
    }
  }

  lemma MessageBound(d: Descriptor, slots: seq<Slot>)
    requires DescriptorOk(d) && FitsAll(d, slots) && EncodableAll(d, slots) && AllInRange(d, slots)
    ensures |EncodeMessage(d, slots)| <= MaxMessage(d)
    decreases d, 1
  {
    hide EncodeUpTo, MaxUpTo, SlotInRange;
    UpToBound(d, slots, |slots|);
  }

  // ----- and something is as long -----

  /** A string that leaves only the last byte for its terminator. */
  ghost function FullText(size: nat): (s: seq<Byte>)
    requires size > 0
    ensures |s| == size && 0 in s && |UpToNul(s)| == size - 1
  {
    var s: seq<Byte> := seq(size, i => if i == size - 1 then 0 else 1);
    assert s[size - 1] == 0;
    s
  }

  ghost function Copies(k: Kind, n: nat): (items: seq<Value>)
    requires KindOk(k) && RoomForNul(k)
    ensures |items| == n
    ensures forall i :: 0 <= i < n ==> items[i] == Fullest(k) && Fits(k, items[i]) && Encodable(k, items[i]) && InRange(k, items[i])
    decreases k, 1
  {
    seq(n, i => Fullest(k))
  }

  ghost function Fullest(k: Kind): (v: Value)
    requires KindOk(k) && RoomForNul(k)
    ensures Fits(k, v) && Encodable(k, v) && InRange(k, v)
    decreases k, 0
  {
    match k
    case Bool => Number(1)
    case UVarint(_, largest) => Number(largest)
    case Fixed32 => Number(TWO_32 - 1)
    case Text(size) => Chars(FullText(size))
    case Message(d) => Struct(FullestAll(d))
  }

  ghost function FullestSlot(f: Field): (slot: Slot)
    requires FieldOk(f) && RoomInField(f)
    ensures FitsSlot(f, slot) && EncodableSlot(f, slot) && SlotInRange(f, slot)
    decreases f, 0
  {
    match f.rule
    case Required => Single(Fullest(f.kind))
    case Optional => Maybe(true, Fullest(f.kind))
    case Repeated(cap) => Array(Copies(f.kind, cap))
  }

  ghost function FullestAll(d: Descriptor): (slots: seq<Slot>)
    requires DescriptorOk(d) && forall i :: 0 <= i < |d.fields| ==> RoomInField(d.fields[i])
    ensures FitsAll(d, slots) && EncodableAll(d, slots) && AllInRange(d, slots)
    decreases d, 0
  {
    seq(|d.fields|, i requires 0 <= i < |d.fields| => FullestSlot(d.fields[i]))
  }

  lemma {:induction false} FullestValue(k: Kind)
    requires KindOk(k) && RoomForNul(k)
    ensures |EncodeValue(k, Fullest(k))| == MaxValue(k)
    decreases k, 0
  {
    hide Varint;
    match k
    case Bool => OneByte(1);
    case UVarint(_, _) =>
    case Fixed32 =>
    case Text(size) =>
    case Message(d) => FullestMessage(d);
  }

  lemma {:induction false} FullestPacked(k: Kind, n: nat)
    requires KindOk(k) && RoomForNul(k)
    ensures |EncodePacked(k, Copies(k, n))| == n * MaxValue(k)
    decreases k, 1, n
  {
    hide EncodeValue, MaxValue, Fullest;
    if n > 0 {
      FullestPacked(k, n - 1);
      FullestValue(k);
      assert Copies(k, n)[..n - 1] == Copies(k, n - 1);
      assert n * MaxValue(k) == (n - 1) * MaxValue(k) + MaxValue(k);
    }
  }

  lemma {:induction false} FullestItems(f: Field, n: nat)
    requires KindOk(f.kind) && RoomForNul(f.kind)
    ensures |EncodeItems(f, Copies(f.kind, n))| == n * (VarintSize(8 * f.tag + WireType(f.kind)) + MaxValue(f.kind))
    decreases f, 0, n
  {
    hide EncodeValue, MaxValue, Varint, Fullest;
    if n > 0 {
      var one := VarintSize(8 * f.tag + WireType(f.kind)) + MaxValue(f.kind);
      FullestItems(f, n - 1);
      FullestValue(f.kind);
      assert Copies(f.kind, n)[..n - 1] == Copies(f.kind, n - 1);
      assert n * one == (n - 1) * one + one;
    }
  }

  lemma {:induction false} FullestField(f: Field)
    requires FieldOk(f) && RoomInField(f)
    ensures |EncodeField(f, FullestSlot(f))| == MaxField(f)
    decreases f, 1
  {
    hide EncodeValue, MaxValue, Varint, Fullest;
    match f.rule
    case Required => FullestValue(f.kind);
    case Optional => FullestValue(f.kind);
    case Repeated(cap) =>
      if Packable(f.kind) {
        FullestPacked(f.kind, cap);
      } else {
        FullestItems(f, cap);
      }
  }

  lemma {:induction false} FullestUpTo(d: Descriptor, n: nat)
    requires DescriptorOk(d) && n <= |d.fields| && forall i :: 0 <= i < |d.fields| ==> RoomInField(d.fields[i])
    ensures |EncodeUpTo(d, FullestAll(d), n)| == MaxUpTo(d, n)
    decreases d, 0, n
  {
    hide EncodeField, MaxField, FullestSlot;
    if n > 0 {
      FullestUpTo(d, n - 1);
      FullestField(d.fields[n - 1]);
    }
  }

  lemma FullestMessage(d: Descriptor)
    requires DescriptorOk(d) && forall i :: 0 <= i < |d.fields| ==> RoomInField(d.fields[i])
    ensures |EncodeMessage(d, FullestAll(d))| == MaxMessage(d)
    decreases d, 1
  {
    hide EncodeUpTo, MaxUpTo;
    FullestUpTo(d, |d.fields|);
  }

  /** The maximum is exact: no message is longer, and one is as long. */
  lemma MaxMessageIsExact(d: Descriptor)
    requires DescriptorOk(d) && forall i :: 0 <= i < |d.fields| ==> RoomInField(d.fields[i])
    ensures forall slots :: FitsAll(d, slots) && EncodableAll(d, slots) && AllInRange(d, slots) ==>
              |EncodeMessage(d, slots)| <= MaxMessage(d)
    ensures exists slots :: FitsAll(d, slots) && EncodableAll(d, slots) && AllInRange(d, slots) &&
              |EncodeMessage(d, slots)| == MaxMessage(d)
  {
    hide EncodeMessage, MaxMessage, EncodableAll, AllInRange;
    forall slots | FitsAll(d, slots) && EncodableAll(d, slots) && AllInRange(d, slots)
      ensures |EncodeMessage(d, slots)| <= MaxMessage(d)
    {
      MessageBound(d, slots);
    }
    FullestMessage(d);
    FullestIsGood(d);
  }

  lemma FullestIsGood(d: Descriptor)
    requires DescriptorOk(d) && forall i :: 0 <= i < |d.fields| ==> RoomInField(d.fields[i])
    ensures FitsAll(d, FullestAll(d)) && EncodableAll(d, FullestAll(d)) && AllInRange(d, FullestAll(d))
  {
  }

  // ----- the messages of messages.pb.h -----

  const U32: Kind := UVarint(4, 0xFFFF_FFFF)
  const U64: Kind := UVarint(8, 0xFFFF_FFFF_FFFF_FFFF)

  /** eState: 0 to 2. */
  const STATE: Kind := UVarint(4, 2)

  const COMMON_HEADER: Descriptor := Descriptor([
    Field(1, Required, U32), Field(2, Required, U32), Field(3, Required, U32),
    Field(4, Required, U32), Field(5, Required, U32), Field(6, Required, U32),
    Field(7, Optional, U32), Field(8, Optional, U32), Field(9, Optional, STATE),
    Field(10, Optional, U32), Field(11, Optional, Bool), Field(12, Optional, U32),
    Field(13, Optional, U32), Field(14, Optional, U32), Field(15, Optional, U32),
    Field(16, Optional, U32), Field(17, Optional, Text(100)), Field(18, Optional, U32),
    Field(19, Optional, U32), Field(20, Optional, Bool), Field(21, Required, U64)])

  const STATUS_MESSAGE: Descriptor := Descriptor([Field(1, Required, Message(COMMON_HEADER))])

  const GPS_MESSAGE: Descriptor := Descriptor([
    Field(1, Required, Message(COMMON_HEADER)),
    Field(2, Optional, U32), Field(3, Optional, U32), Field(4, Optional, Fixed32),
    Field(5, Optional, Fixed32), Field(6, Optional, Fixed32), Field(7, Optional, U32),
    Field(8, Optional, U32), Field(9, Optional, Fixed32), Field(10, Optional, U32)])

  const SENSOR_DATA_MESSAGE: Descriptor := Descriptor([
    Field(1, Required, Message(COMMON_HEADER)),
    Field(2, Repeated(24), U32), Field(3, Repeated(24), U32), Field(4, Repeated(24), U32),
    Field(5, Repeated(24), U32), Field(6, Repeated(24), U32),
    Field(7, Optional, U32), Field(8, Optional, U32), Field(9, Optional, U32),
    Field(10, Optional, Bool), Field(11, Optional, U32), Field(12, Optional, U32),
    Field(13, Optional, U32), Field(14, Optional, U32), Field(15, Optional, U32)])

  lemma VarintSizes()
    ensures forall n: nat :: n < 128 ==> VarintSize(n) == 1
    ensures forall n: nat :: 128 <= n < 0x4000 ==> VarintSize(n) == 2
    ensures VarintSize(0xFFFF_FFFF) == 5 && VarintSize(0xFFFF_FFFF_FFFF_FFFF) == 10
  {
    hide Varint;
    Pow128Values();
    forall n: nat | n < 0x4000 ensures if n < 128 then VarintSize(n) == 1 else VarintSize(n) == 2 {
      VarintLength(n, 1);
      VarintLength(n, 2);
    }
    VarintLength(0xFFFF_FFFF, 4);
    VarintLength(0xFFFF_FFFF, 5);
    VarintLength(0xFFFF_FFFF_FFFF_FFFF, 9);
    VarintLength(0xFFFF_FFFF_FFFF_FFFF, 10);
  }

  /** The sizes of fields that occur once. */
  lemma SingleSizes(f: Field)
    requires !f.rule.Repeated? && 0 < f.tag < 0x800
    ensures var tag := if f.tag < 16 then 1 else 2;
            && (f.kind == U32 ==> MaxField(f) == tag + 5)
            && (f.kind == U64 ==> MaxField(f) == tag + 10)
            && (f.kind == STATE ==> MaxField(f) == tag + 1)
            && (f.kind == Bool ==> MaxField(f) == tag + 1)
            && (f.kind == Fixed32 ==> MaxField(f) == tag + 4)
            && (f.kind == Text(100) ==> MaxField(f) == tag + 100)
  {
    hide VarintSize;
    VarintSizes();
  }

  lemma HourlySize(f: Field)
    requires f.rule == Repeated(24) && f.kind == U32 && 0 < f.tag < 16
    ensures MaxField(f) == 122
  {
    hide VarintSize;
    VarintSizes();
  }

  lemma HeaderFieldSize(f: Field)
    requires f == Field(1, Required, Message(COMMON_HEADER))
    ensures MaxField(f) == 223
  {
    hide VarintSize, MaxMessage;
    VarintSizes();
    CommonHeaderSize();
  }

  lemma CommonHeaderFront()
    ensures MaxUpTo(COMMON_HEADER, 10) == 56
  {
    hide MaxField;
    var d := COMMON_HEADER;
    SingleSizes(d.fields[0]);
    assert MaxUpTo(d, 1) == 6;
    SingleSizes(d.fields[1]);
    assert MaxUpTo(d, 2) == 12;
    SingleSizes(d.fields[2]);
    assert MaxUpTo(d, 3) == 18;
    SingleSizes(d.fields[3]);
    assert MaxUpTo(d, 4) == 24;
    SingleSizes(d.fields[4]);
    assert MaxUpTo(d, 5) == 30;
    SingleSizes(d.fields[5]);
    assert MaxUpTo(d, 6) == 36;
    SingleSizes(d.fields[6]);
    assert MaxUpTo(d, 7) == 42;
    SingleSizes(d.fields[7]);
    assert MaxUpTo(d, 8) == 48;
    SingleSizes(d.fields[8]);
    assert MaxUpTo(d, 9) == 50;
    SingleSizes(d.fields[9]);
    assert MaxUpTo(d, 10) == 56;
  }

  /** CommonHeader_size is exact. */
  lemma CommonHeaderSize()
    ensures MaxMessage(COMMON_HEADER) == 220
  {
    hide MaxField;
    var d := COMMON_HEADER;
    CommonHeaderFront();
    SingleSizes(d.fields[10]);
    assert MaxUpTo(d, 11) == 58;
    SingleSizes(d.fields[11]);
    assert MaxUpTo(d, 12) == 64;
    SingleSizes(d.fields[12]);
    assert MaxUpTo(d, 13) == 70;
    SingleSizes(d.fields[13]);
    assert MaxUpTo(d, 14) == 76;
    SingleSizes(d.fields[14]);
    assert MaxUpTo(d, 15) == 82;
    SingleSizes(d.fields[15]);
    assert MaxUpTo(d, 16) == 89;
    SingleSizes(d.fields[16]);
    assert MaxUpTo(d, 17) == 191;
    SingleSizes(d.fields[17]);
    assert MaxUpTo(d, 18) == 198;
    SingleSizes(d.fields[18]);
    assert MaxUpTo(d, 19) == 205;
    SingleSizes(d.fields[19]);
    assert MaxUpTo(d, 20) == 208;
    SingleSizes(d.fields[20]);
    assert MaxUpTo(d, 21) == 220;
  }

  /** So are StatusMessage_size and GpsMessage_size. */
  lemma StatusAndGpsSizes()
    ensures MaxMessage(STATUS_MESSAGE) == 223 && MaxMessage(GPS_MESSAGE) == 273
  {
    hide MaxField;
    HeaderFieldSize(STATUS_MESSAGE.fields[0]);
    assert MaxUpTo(STATUS_MESSAGE, 0) == 0;
    var d := GPS_MESSAGE;
    HeaderFieldSize(d.fields[0]);
    assert MaxUpTo(d, 1) == 223;
    SingleSizes(d.fields[1]);
    assert MaxUpTo(d, 2) == 229;
    SingleSizes(d.fields[2]);
    assert MaxUpTo(d, 3) == 235;
    SingleSizes(d.fields[3]);
    assert MaxUpTo(d, 4) == 240;
    SingleSizes(d.fields[4]);
    assert MaxUpTo(d, 5) == 245;
    SingleSizes(d.fields[5]);
    assert MaxUpTo(d, 6) == 250;
    SingleSizes(d.fields[6]);
    assert MaxUpTo(d, 7) == 256;
    SingleSizes(d.fields[7]);
    assert MaxUpTo(d, 8) == 262;
    SingleSizes(d.fields[8]);
    assert MaxUpTo(d, 9) == 267;
    SingleSizes(d.fields[9]);
    assert MaxUpTo(d, 10) == 273;
  }

  /** SensorDataMessage_size, 993, allows for unpacked arrays; the encoder packs them and needs 883. */
  lemma SensorDataSize()
    ensures MaxMessage(SENSOR_DATA_MESSAGE) == 883 <= 993
  {
    hide MaxField;
    var d := SENSOR_DATA_MESSAGE;
    HeaderFieldSize(d.fields[0]);
    assert MaxUpTo(d, 1) == 223;
    HourlySize(d.fields[1]);
    assert MaxUpTo(d, 2) == 345;
    HourlySize(d.fields[2]);
    assert MaxUpTo(d, 3) == 467;
    HourlySize(d.fields[3]);
    assert MaxUpTo(d, 4) == 589;
    HourlySize(d.fields[4]);
    assert MaxUpTo(d, 5) == 711;
    HourlySize(d.fields[5]);
    assert MaxUpTo(d, 6) == 833;
    SingleSizes(d.fields[6]);
    assert MaxUpTo(d, 7) == 839;
    SingleSizes(d.fields[7]);
    assert MaxUpTo(d, 8) == 845;
    SingleSizes(d.fields[8]);
    assert MaxUpTo(d, 9) == 851;
    SingleSizes(d.fields[9]);
    assert MaxUpTo(d, 10) == 853;
    SingleSizes(d.fields[10]);
    assert MaxUpTo(d, 11) == 859;
    SingleSizes(d.fields[11]);
    assert MaxUpTo(d, 12) == 865;
    SingleSizes(d.fields[12]);
    assert MaxUpTo(d, 13) == 871;
    SingleSizes(d.fields[13]);
    assert MaxUpTo(d, 14) == 877;
    SingleSizes(d.fields[14]);
    assert MaxUpTo(d, 15) == 883;
  }

  lemma HeaderOk()
    ensures DescriptorOk(COMMON_HEADER)
  {
    var d := COMMON_HEADER;
    forall i | 0 <= i < |d.fields| ensures FieldOk(d.fields[i]) && d.fields[i].tag == i + 1 {
    }
  }

  lemma DescriptorsOk()
    ensures DescriptorOk(STATUS_MESSAGE) && DescriptorOk(GPS_MESSAGE) && DescriptorOk(SENSOR_DATA_MESSAGE)
  {
    HeaderOk();
    forall i | 0 <= i < |GPS_MESSAGE.fields|
      ensures FieldOk(GPS_MESSAGE.fields[i]) && GPS_MESSAGE.fields[i].tag == i + 1
    {
    }
    forall i | 0 <= i < |SENSOR_DATA_MESSAGE.fields|
      ensures FieldOk(SENSOR_DATA_MESSAGE.fields[i]) && SENSOR_DATA_MESSAGE.fields[i].tag == i + 1
    {
    }
  }

  /** With valid enumerators every message stays within its declared size. */
  lemma DeclaredSizesSuffice(slots: seq<Slot>)
    ensures FitsAll(COMMON_HEADER, slots) && EncodableAll(COMMON_HEADER, slots) && AllInRange(COMMON_HEADER, slots) ==>
              |EncodeMessage(COMMON_HEADER, slots)| <= 220
    ensures FitsAll(STATUS_MESSAGE, slots) && EncodableAll(STATUS_MESSAGE, slots) && AllInRange(STATUS_MESSAGE, slots) ==>
              |EncodeMessage(STATUS_MESSAGE, slots)| <= 223
    ensures FitsAll(GPS_MESSAGE, slots) && EncodableAll(GPS_MESSAGE, slots) && AllInRange(GPS_MESSAGE, slots) ==>
              |EncodeMessage(GPS_MESSAGE, slots)| <= 273
    ensures FitsAll(SENSOR_DATA_MESSAGE, slots) && EncodableAll(SENSOR_DATA_MESSAGE, slots) && AllInRange(SENSOR_DATA_MESSAGE, slots) ==>
              |EncodeMessage(SENSOR_DATA_MESSAGE, slots)| <= 883 <= 993
  {
    hide FitsAll, EncodableAll, AllInRange, EncodeMessage, MaxMessage, DescriptorOk;
    HeaderOk();
    DescriptorsOk();
    CommonHeaderSize();
    StatusAndGpsSizes();
    SensorDataSize();
    Within(COMMON_HEADER, slots);
    Within(STATUS_MESSAGE, slots);
    Within(GPS_MESSAGE, slots);
    Within(SENSOR_DATA_MESSAGE, slots);
  }

  lemma Within(d: Descriptor, slots: seq<Slot>)
    requires DescriptorOk(d)
    ensures FitsAll(d, slots) && EncodableAll(d, slots) && AllInRange(d, slots) ==> |EncodeMessage(d, slots)| <= MaxMessage(d)
  {
    hide EncodableAll, AllInRange, EncodeMessage, MaxMessage, DescriptorOk;
    if FitsAll(d, slots) && EncodableAll(d, slots) && AllInRange(d, slots) {
      MessageBound(d, slots);
    }
  }
}
