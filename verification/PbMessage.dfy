/**
 Messages of the nanopb codec: descriptors, the values of their C structs, and what
 pb_encode.c and pb_decode.c make of them.
 */
module PbMessage {
  import opened Basics
  import opened PbBits
  import opened PbVarint

  /** The field types in use; `size` is data_size, `largest` the largest value that the .proto type allows. */
  datatype Kind = Bool | UVarint(size: nat, largest: nat) | Fixed32 | Text(size: nat) | Message(desc: Descriptor)

  datatype Rule = Required | Optional | Repeated(cap: nat)

  datatype Field = Field(tag: nat, rule: Rule, kind: Kind)

  datatype Descriptor = Descriptor(fields: seq<Field>)

  /** A member of a C struct: a number, a char array, a nested struct. */
  datatype Value = Number(n: nat) | Chars(buffer: seq<Byte>) | Struct(slots: seq<Slot>)

  /** A member with its has_ flag or its count. */
  datatype Slot = Single(v: Value) | Maybe(has: bool, v: Value) | Array(items: seq<Value>)

  const WT_VARINT := 0
  const WT_64BIT := 1
  const WT_STRING := 2
  const WT_32BIT := 5

  /** PB_MAX_REQUIRED_FIELDS. */
  const MAX_REQUIRED := 64

  /** PB_LTYPE(type) <= PB_LTYPE_LAST_PACKABLE. */
  predicate Packable(k: Kind) {
    k.Bool? || k.UVarint? || k.Fixed32?
  }

  function WireType(k: Kind): nat {
    match k
    case Bool => WT_VARINT
    case UVarint(_, _) => WT_VARINT
    case Fixed32 => WT_32BIT
    case Text(_) => WT_STRING
    case Message(_) => WT_STRING
  }

  /** The values of an unsigned member of `size` bytes. */
  function Limit(size: nat): nat {
    if size == 1 then 0x100 else if size == 2 then 0x1_0000 else if size == 4 then TWO_32 else TWO_64
  }

  // ----- well-formed descriptors and structs -----

  ghost predicate KindOk(k: Kind)
    decreases k
  {
    match k
    case Bool => true
    case UVarint(size, largest) => size in {1, 2, 4, 8} && largest < Limit(size)
    case Fixed32 => true
    case Text(size) => size < 0x1_0000
    case Message(d) => DescriptorOk(d)
  }

  /** Tags are distinct and 16 bits wide; there are no repeated strings. */
  ghost predicate DescriptorOk(d: Descriptor)
    decreases d
  {
    && (forall i :: 0 <= i < |d.fields| ==> FieldOk(d.fields[i]))
    && (forall i, j :: 0 <= i < j < |d.fields| ==> d.fields[i].tag != d.fields[j].tag)
  }

  ghost predicate FieldOk(f: Field)
    decreases f
  {
    && 0 < f.tag < 0x1_0000
    && KindOk(f.kind)
    && (f.rule.Repeated? ==> !f.kind.Text?)
  }

  /** The value is one that the C member can hold. */
  ghost predicate Fits(k: Kind, v: Value)
    decreases k, 0
  {
    match k
    case Bool => v.Number? && v.n <= 1
    case UVarint(size, _) => v.Number? && v.n < Limit(size)
    case Fixed32 => v.Number? && v.n < TWO_32
    case Text(size) => v.Chars? && |v.buffer| == size
    case Message(d) => v.Struct? && FitsAll(d, v.slots)
  }

  ghost predicate FitsSlot(f: Field, slot: Slot)
    decreases f, 0
  {
    match f.rule
    case Required => slot.Single? && Fits(f.kind, slot.v)
    case Optional => slot.Maybe? && Fits(f.kind, slot.v)
    case Repeated(_) => slot.Array? && forall i :: 0 <= i < |slot.items| ==> Fits(f.kind, slot.items[i])
  }

  ghost predicate FitsAll(d: Descriptor, slots: seq<Slot>)
    decreases d, 0
  {
    |slots| == |d.fields| && forall i :: 0 <= i < |slots| ==> FitsSlot(d.fields[i], slots[i])
  }

  // ----- defaults -----

  ghost function Zeros(n: nat): (s: seq<Byte>)
    ensures |s| == n && forall i :: 0 <= i < n ==> s[i] == 0
  {
    seq(n, i => 0)
  }

  /** pb_field_set_to_default, without the has_ flag. */
  ghost function Zero(k: Kind): (v: Value)
    requires KindOk(k)
    ensures Fits(k, v)
    decreases k
  {
    match k
    case Bool => Number(0)
    case UVarint(_, _) => Number(0)
    case Fixed32 => Number(0)
    case Text(size) => Chars(Zeros(size))
    case Message(d) => Struct(Defaults(d))
  }

  ghost function ZeroSlot(f: Field): (slot: Slot)
    requires FieldOk(f)
    ensures FitsSlot(f, slot)
    decreases f
  {
    match f.rule
    case Required => Single(Zero(f.kind))
    case Optional => Maybe(false, Zero(f.kind))
    case Repeated(_) => Array([])
  }

  /** pb_message_set_to_defaults. */
  ghost function Defaults(d: Descriptor): (slots: seq<Slot>)
    requires DescriptorOk(d)
    ensures FitsAll(d, slots)
    decreases d
  {
    seq(|d.fields|, i requires 0 <= i < |d.fields| => ZeroSlot(d.fields[i]))
  }

  // ----- encoding -----

  function LittleEndian(n: nat, k: nat): (s: seq<Byte>)
    ensures |s| == k
  {
    if k == 0 then [] else [n % 256] + LittleEndian(n / 256, k - 1)
  }

  function FromLittleEndian(s: seq<Byte>): nat {
    if s == [] then 0 else s[0] as nat + 256 * FromLittleEndian(s[1..])
  }

  /** A string up to its terminator, or all of it. */
  function UpToNul(s: seq<Byte>): (t: seq<Byte>)
    ensures |t| <= |s| && t == s[..|t|] && 0 !in t
    ensures |t| < |s| ==> s[|t|] == 0
    ensures 0 in s ==> |t| < |s|
  {
    if s == [] || s[0] == 0 then [] else [s[0]] + UpToNul(s[1..])
  }

  /** The encoder refuses unterminated strings and counts beyond the array. */
  ghost predicate Encodable(k: Kind, v: Value)
    requires Fits(k, v)
    decreases k, 0
  {
    match k
    case Text(_) => 0 in v.buffer
    case Message(d) => EncodableAll(d, v.slots)
    case _ => true
  }

  ghost predicate EncodableSlot(f: Field, slot: Slot)
    requires FitsSlot(f, slot)
    decreases f, 0
  {
    match f.rule
    case Required => Encodable(f.kind, slot.v)
    case Optional => slot.has ==> Encodable(f.kind, slot.v)
    case Repeated(cap) => |slot.items| <= cap && forall i :: 0 <= i < |slot.items| ==> Encodable(f.kind, slot.items[i])
  }

  ghost predicate EncodableAll(d: Descriptor, slots: seq<Slot>)
    requires FitsAll(d, slots)
    decreases d, 0
  {
    forall i :: 0 <= i < |slots| ==> EncodableSlot(d.fields[i], slots[i])
  }

  /** pb_encode_tag. */
  ghost function TagBytes(tag: nat, wire: nat): (s: seq<Byte>) {
    Varint(8 * tag + wire)
  }

  /** A length and as many bytes. */
  ghost function Delimited(s: seq<Byte>): seq<Byte> {
    Varint(|s|) + s
  }

  /** A value behind its tag. */
  ghost function EncodeValue(k: Kind, v: Value): seq<Byte>
    requires Fits(k, v)
    decreases k, 0
  {
    match k
    case Bool => Varint(v.n)
    case UVarint(_, _) => Varint(v.n)
    case Fixed32 => LittleEndian(v.n, 4)
    case Text(_) => Delimited(UpToNul(v.buffer))
    case Message(d) => Delimited(EncodeMessage(d, v.slots))
  }

  /** The contents of a packed array. */
  ghost function EncodePacked(k: Kind, items: seq<Value>): seq<Byte>
    requires forall i :: 0 <= i < |items| ==> Fits(k, items[i])
    decreases k, 1, |items|
  {
    if items == [] then []
    else EncodePacked(k, items[..|items| - 1]) + EncodeValue(k, items[|items| - 1])
  }

  /** Array elements that each have a tag of their own. */
  ghost function EncodeItems(f: Field, items: seq<Value>): seq<Byte>
    requires forall i :: 0 <= i < |items| ==> Fits(f.kind, items[i])
    decreases f, 1, |items|
  {
    if items == [] then []
    else EncodeItems(f, items[..|items| - 1]) + TagBytes(f.tag, WireType(f.kind)) + EncodeValue(f.kind, items[|items| - 1])
  }

  /** encode_field. */
  ghost function EncodeField(f: Field, slot: Slot): seq<Byte>
    requires FitsSlot(f, slot)
    decreases f, 2
  {
    match f.rule
    case Required => TagBytes(f.tag, WireType(f.kind)) + EncodeValue(f.kind, slot.v)
    case Optional => if slot.has then TagBytes(f.tag, WireType(f.kind)) + EncodeValue(f.kind, slot.v) else []
    case Repeated(_) =>
      if slot.items == [] then []
      else if Packable(f.kind) then TagBytes(f.tag, WT_STRING) + Delimited(EncodePacked(f.kind, slot.items))
      else EncodeItems(f, slot.items)
  }

  /** pb_encode, up to field n. */
  ghost function EncodeUpTo(d: Descriptor, slots: seq<Slot>, n: nat): seq<Byte>
    requires FitsAll(d, slots) && n <= |slots|
    decreases d, 1, n
  {
    if n == 0 then [] else EncodeUpTo(d, slots, n - 1) + EncodeField(d.fields[n - 1], slots[n - 1])
  }

  /** pb_encode. */
  ghost function EncodeMessage(d: Descriptor, slots: seq<Slot>): seq<Byte>
    requires FitsAll(d, slots)
    decreases d, 2
  {
    EncodeUpTo(d, slots, |slots|)
  }

  // ----- decoding -----

  /** pb_make_string_substream: the bytes that a length announces. */
  ghost function ReadDelimited(s: seq<Byte>): (r: Parsed<seq<Byte>>)
    ensures r.Ok? ==> |r.rest| < |s| && |r.value| < |s|
  {
    match ReadVarint32(s)
    case Fail => Fail
    case Ok(n, rest) => if |rest| < n then Fail else Ok(rest[..n], rest[n..])
  }

  /** decode_basic_field, into a member that holds `was`. */
  ghost function DecodeValue(k: Kind, s: seq<Byte>, was: Value): (r: Parsed<Value>)
    requires KindOk(k) && Fits(k, was)
    ensures r.Ok? ==> Fits(k, r.value) && |r.rest| < |s|
    decreases k, |s|, 0
  {
    match k
    case Bool =>
      (match ReadVarint32(s)
       case Fail => Fail
       case Ok(n, rest) => Ok(Number(if n != 0 then 1 else 0), rest))
    case UVarint(size, _) =>
      (match ReadVarint(s)
       case Fail => Fail
       case Ok(n, rest) => if n >= Limit(size) then Fail else Ok(Number(n), rest))
    case Fixed32 =>
      if |s| < 4 then Fail else
        FourBytes(s[..4]);
        Ok(Number(FromLittleEndian(s[..4])), s[4..])
    case Text(size) =>
      (match ReadVarint32(s)
       case Fail => Fail
       case Ok(n, rest) =>
         if n + 1 == TWO_32 || n + 1 > size || |rest| < n then Fail
         else Ok(Chars(rest[..n] + [0] + was.buffer[n + 1..]), rest[n..]))
    case Message(d) =>
      (match ReadDelimited(s)
       case Fail => Fail
       case Ok(sub, rest) =>
         match DecodeInner(d, sub, was.slots)
         case None => Fail
         case Some(slots) => Ok(Struct(slots), rest))
  }

  lemma FourBytes(s: seq<Byte>)
    requires |s| == 4
    ensures FromLittleEndian(s) < TWO_32
  {
    assert s[1..][1..] == s[2..] && s[2..][1..] == s[3..] && s[3..][1..] == [];
    assert FromLittleEndian(s[3..]) == s[3] as nat;
    assert FromLittleEndian(s[2..]) == s[2] as nat + 256 * FromLittleEndian(s[3..]);
    assert FromLittleEndian(s[1..]) == s[1] as nat + 256 * FromLittleEndian(s[2..]);
  }

  /** The elements of a packed array are appended to those that are there. */
  ghost function DecodePacked(k: Kind, cap: nat, s: seq<Byte>, items: seq<Value>): (r: Option<seq<Value>>)
    requires KindOk(k) && forall i :: 0 <= i < |items| ==> Fits(k, items[i])
    ensures r.Some? ==> forall i :: 0 <= i < |r.value| ==> Fits(k, r.value[i])
    decreases k, |s|, 1
  {
    if s == [] then Some(items)
    else if |items| >= cap then None
    else match DecodeValue(k, s, Zero(k))
         case Fail => None
         case Ok(v, rest) => DecodePacked(k, cap, rest, items + [v])
  }

  /** decode_static_field; the wire type only tells packed arrays. */
  ghost function DecodeField(f: Field, wire: nat, s: seq<Byte>, was: Slot): (r: Parsed<Slot>)
    requires FieldOk(f) && FitsSlot(f, was)
    ensures r.Ok? ==> FitsSlot(f, r.value) && |r.rest| < |s|
    decreases f, |s|, 0
  {
    match f.rule
    case Required =>
      (match DecodeValue(f.kind, s, was.v)
       case Fail => Fail
       case Ok(v, rest) => Ok(Single(v), rest))
    case Optional =>
      (match DecodeValue(f.kind, s, was.v)
       case Fail => Fail
       case Ok(v, rest) => Ok(Maybe(true, v), rest))
    case Repeated(cap) =>
      if wire == WT_STRING && Packable(f.kind) then
        match ReadDelimited(s)
        case Fail => Fail
        case Ok(sub, rest) =>
          (match DecodePacked(f.kind, cap, sub, was.items)
           case None => Fail
           case Some(items) => Ok(Array(items), rest))
      else if |was.items| >= cap then Fail
      else
        match DecodeValue(f.kind, s, Zero(f.kind))
        case Fail => Fail
        case Ok(v, rest) => Ok(Array(was.items + [v]), rest)
  }

  /** pb_skip_field: the bytes behind the field. */
  ghost function Skip(wire: nat, s: seq<Byte>): (r: Option<seq<Byte>>)
    ensures r.Some? ==> |r.value| < |s|
  {
    if wire == WT_VARINT then if Extent(s) == 0 then None else Some(s[Extent(s)..])
    else if wire == WT_64BIT then if |s| < 8 then None else Some(s[8..])
    else if wire == WT_STRING then
      match ReadDelimited(s) case Fail => None case Ok(_, rest) => Some(rest)
    else if wire == WT_32BIT then if |s| < 4 then None else Some(s[4..])
    else None
  }

  /** The index of the field with the tag, or the number of fields. */
  function IndexOf(fields: seq<Field>, tag: nat): (i: nat)
    ensures i <= |fields|
    ensures i < |fields| ==> fields[i].tag == tag
    ensures i == |fields| ==> forall j :: 0 <= j < |fields| ==> fields[j].tag != tag
  {
    if fields == [] then 0
    else if fields[0].tag == tag then 0
    else IndexOf(fields[1..], tag) + 1
  }

  /** The struct being filled, and the fields that were seen. */
  datatype Progress = Progress(slots: seq<Slot>, seen: set<nat>)

  /** The loop of pb_decode_inner. */
  ghost function DecodeLoop(d: Descriptor, s: seq<Byte>, p: Progress): (r: Option<Progress>)
    requires DescriptorOk(d) && FitsAll(d, p.slots)
    ensures r.Some? ==> FitsAll(d, r.value.slots)
    decreases d, |s|, 0
  {
    if s == [] then Some(p) else
      match ReadVarint32(s)
      case Fail => None
      case Ok(t, rest) =>
        if t / 8 == 0 then None else
          var i := IndexOf(d.fields, t / 8);
          if i == |d.fields| then
            match Skip(t % 8, rest)
            case None => None
            case Some(behind) => DecodeLoop(d, behind, p)
          else
            match DecodeField(d.fields[i], t % 8, rest, p.slots[i])
            case Fail => None
            case Ok(slot, behind) => DecodeLoop(d, behind, Progress(p.slots[i := slot], p.seen + {i}))
  }

  /** required_field_index of field i. */
  function RequiredBefore(fields: seq<Field>, i: nat): nat
    requires i <= |fields|
  {
    if i == 0 then 0 else RequiredBefore(fields, i - 1) + if fields[i - 1].rule.Required? then 1 else 0
  }

  /** The first 64 required fields were all seen. */
  ghost predicate Complete(d: Descriptor, seen: set<nat>) {
    forall i :: 0 <= i < |d.fields| && d.fields[i].rule.Required? && RequiredBefore(d.fields, i) < MAX_REQUIRED ==> i in seen
  }

  /** pb_decode_inner. */
  ghost function DecodeInner(d: Descriptor, s: seq<Byte>, was: seq<Slot>): (r: Option<seq<Slot>>)
    requires DescriptorOk(d) && FitsAll(d, was)
    ensures r.Some? ==> FitsAll(d, r.value)
    decreases d, |s|, 1
  {
    match DecodeLoop(d, s, Progress(was, {}))
    case None => None
    case Some(p) => if Complete(d, p.seen) then Some(p.slots) else None
  }

  /** pb_decode: PB_DECODE_NOINIT is DecodeInner. */
  ghost function Decode(d: Descriptor, s: seq<Byte>): (r: Option<seq<Slot>>)
    requires DescriptorOk(d)
    ensures r.Some? ==> FitsAll(d, r.value)
  {
    DecodeInner(d, s, Defaults(d))
  }
}
