/** pb_decode.c, reading from a stream; it computes what PbMessage's decoding functions say. */
module PbDecoder {
  import opened Basics
  import opened PbBits
  import opened PbVarint
  import opened PbInput
  import opened PbMessage

  /** The stream has moved from `s` to what the result leaves, or failed with it. */
  ghost predicate Parses<T>(ok: bool, value: T, rest: seq<Byte>, r: Parsed<T>) {
    ok == r.Ok? && (ok ==> r == Ok(value, rest))
  }

  /** The end of the stream stays; after a failure it may have been left short. */
  predicate Ends(ok: bool, end: nat, was: nat) {
    end <= was && (ok ==> end == was)
  }

  /** pb_dec_bool, pb_dec_varint for unsigned members, and pb_dec_fixed. */
  method DecodeScalar(stream: IStream, k: Kind, was: Value) returns (ok: bool, v: Value)
    requires stream.Valid() && KindOk(k) && Packable(k) && Fits(k, was)
    modifies stream
    ensures stream.Valid() && stream.state + stream.bytesLeft == old(stream.state + stream.bytesLeft)
    ensures Parses(ok, v, stream.Rest(), DecodeValue(k, old(stream.Rest()), was))
  {
    hide ReadVarint32, ReadVarint, FromLittleEndian;
    v := was;
    match k
    case Bool =>
      var n;
      ok, n := stream.DecodeVarint32();
      if ok {
        v := Number(if n != 0 then 1 else 0);
      }
    case UVarint(size, _) =>
      var n;
      ok, n := stream.DecodeVarint();
      if ok {
        var clamped := n % Limit(size);
        v := Number(clamped);
        ok := clamped == n;
        Clamped(n, size);
      }
    case Fixed32 =>
      var data;
      ok, data := stream.Read(4);
      if ok {
        v := Number(FromLittleEndian(data));
      }
  }

  lemma Clamped(n: nat, size: nat)
    ensures n % Limit(size) == n <==> n < Limit(size)
  {
  }

  /** pb_dec_string: the terminator is written first, then the text, and older bytes stay behind it. */
  method DecodeString(stream: IStream, size: nat, was: Value) returns (ok: bool, v: Value)
    requires stream.Valid() && KindOk(Text(size)) && Fits(Text(size), was)
    modifies stream
    ensures stream.Valid() && Ends(ok, stream.state + stream.bytesLeft, old(stream.state + stream.bytesLeft))
    ensures Parses(ok, v, stream.Rest(), DecodeValue(Text(size), old(stream.Rest()), was))
  {
    hide ReadVarint32;
    v := was;
    var n;
    ok, n := stream.DecodeVarint32();
    if !ok {
      return;
    }
    InWord(old(stream.Rest()));
    var allocSize := (n + 1) % TWO_32;
    if allocSize < n {
      return false, v;
    }
    if allocSize > size {
      return false, v;
    }
    var dest := was.buffer[n := 0];
    var data;
    ok, data := stream.Read(n);
    if ok {
      assert data + dest[n..] == data + [0] + was.buffer[n + 1..];
      v := Chars(data + dest[n..]);
    }
  }

  lemma InWord(s: seq<Byte>)
    ensures ReadVarint32(s).Ok? ==> ReadVarint32(s).value < TWO_32
  {
  }

  /** decode_basic_field. */
  method DecodeBasicField(stream: IStream, k: Kind, was: Value) returns (ok: bool, v: Value)
    requires stream.Valid() && KindOk(k) && Fits(k, was)
    modifies stream
    ensures stream.Valid() && Ends(ok, stream.state + stream.bytesLeft, old(stream.state + stream.bytesLeft))
    ensures Parses(ok, v, stream.Rest(), DecodeValue(k, old(stream.Rest()), was))
    decreases k, 0
  {
    hide ReadVarint32, ReadVarint, FromLittleEndian, ReadDelimited, DecodeInner;
    match k
    case Text(size) => ok, v := DecodeString(stream, size, was);
    case Message(d) => ok, v := DecodeSubmessage(stream, d, was);
    case _ => ok, v := DecodeScalar(stream, k, was);
  }

  /** pb_dec_submessage; the caller has set new array elements to their defaults. */
  method DecodeSubmessage(stream: IStream, d: Descriptor, was: Value) returns (ok: bool, v: Value)
    requires stream.Valid() && DescriptorOk(d) && Fits(Message(d), was)
    modifies stream
    ensures stream.Valid() && Ends(ok, stream.state + stream.bytesLeft, old(stream.state + stream.bytesLeft))
    ensures Parses(ok, v, stream.Rest(), DecodeValue(Message(d), old(stream.Rest()), was))
    decreases d, 2
  {
    hide ReadDelimited, DecodeInner;
    v := was;
    var sub;
    ok, sub := stream.MakeStringSubstream();
    if !ok {
      return;
    }
    var status, slots := DecodeMessage(sub, d, was.slots);
    ok := stream.CloseStringSubstream(sub);
    ok := status;
    v := Struct(slots);
  }

  /** The packed branch of decode_static_field. */
  method DecodePackedArray(stream: IStream, k: Kind, cap: nat, was: seq<Value>) returns (ok: bool, items: seq<Value>)
    requires stream.Valid() && KindOk(k) && Packable(k) && forall i :: 0 <= i < |was| ==> Fits(k, was[i])
    modifies stream
    ensures stream.Valid() && Ends(ok, stream.state + stream.bytesLeft, old(stream.state + stream.bytesLeft))
    ensures var r := ReadDelimited(old(stream.Rest()));
            && (ok <==> r.Ok? && DecodePacked(k, cap, r.value, was).Some?)
            && (ok ==> items == DecodePacked(k, cap, r.value, was).value && stream.Rest() == r.rest)
  {
    hide ReadDelimited, DecodeValue, DecodePacked;
    items := was;
    var sub;
    ok, sub := stream.MakeStringSubstream();
    if !ok {
      return;
    }
    var status;
    status, items := DecodeElements(sub, k, cap, was);
    if sub.bytesLeft != 0 {
      return false, items;
    }
    ok := stream.CloseStringSubstream(sub);
    ok := status;
  }

  /** Its loop over the substream: elements while there is room for them. */
  method DecodeElements(sub: IStream, k: Kind, cap: nat, was: seq<Value>) returns (status: bool, items: seq<Value>)
    requires sub.Valid() && KindOk(k) && Packable(k) && forall i :: 0 <= i < |was| ==> Fits(k, was[i])
    modifies sub
    ensures sub.Valid() && sub.state + sub.bytesLeft == old(sub.state + sub.bytesLeft)
    ensures var r := DecodePacked(k, cap, old(sub.Rest()), was);
            if status && sub.bytesLeft == 0 then r == Some(items) else r == None
  {
    hide DecodeValue, DecodePacked, Fits;
    ghost var s := sub.Rest();
    status, items := true, was;
    var element := DefaultValue(k);
    while sub.bytesLeft > 0 && |items| < cap && status
      invariant sub.Valid() && sub.state + sub.bytesLeft == old(sub.state + sub.bytesLeft)
      invariant status ==> (forall i :: 0 <= i < |items| ==> Fits(k, items[i]))
                           && DecodePacked(k, cap, s, was) == DecodePacked(k, cap, sub.Rest(), items)
      invariant !status ==> DecodePacked(k, cap, s, was) == None
      decreases status, sub.bytesLeft
    {
      var v;
      ghost var before := sub.Rest();
      ZeroFits(k);
      PackedStep(k, cap, before, items);
      status, v := DecodeScalar(sub, k, element);
      if status {
        items := items + [v];
      }
    }
    if status {
      PackedEnd(k, cap, sub.Rest(), items);
    }
  }

  lemma ZeroFits(k: Kind)
    requires KindOk(k)
    ensures Fits(k, Zero(k))
  {
  }

  lemma PackedEnd(k: Kind, cap: nat, s: seq<Byte>, items: seq<Value>)
    requires KindOk(k) && forall i :: 0 <= i < |items| ==> Fits(k, items[i])
    ensures s == [] ==> DecodePacked(k, cap, s, items) == Some(items)
    ensures s != [] && |items| >= cap ==> DecodePacked(k, cap, s, items) == None
  {
  }

  lemma PackedStep(k: Kind, cap: nat, s: seq<Byte>, items: seq<Value>)
    requires KindOk(k) && s != [] && |items| < cap && forall i :: 0 <= i < |items| ==> Fits(k, items[i])
    ensures var r := DecodeValue(k, s, Zero(k));
            && (r.Ok? ==> |r.rest| < |s| && Fits(k, r.value))
            && DecodePacked(k, cap, s, items) == match r case Fail => None case Ok(v, rest) => DecodePacked(k, cap, rest, items + [v])
  {
  }

  /** decode_static_field. */
  method DecodeStaticField(stream: IStream, f: Field, wire: nat, was: Slot) returns (ok: bool, slot: Slot)
    requires stream.Valid() && FieldOk(f) && FitsSlot(f, was)
    modifies stream
    ensures stream.Valid() && Ends(ok, stream.state + stream.bytesLeft, old(stream.state + stream.bytesLeft))
    ensures Parses(ok, slot, stream.Rest(), DecodeField(f, wire, old(stream.Rest()), was))
    decreases f, 0
  {
    hide ReadDelimited, DecodeValue, DecodePacked;
    slot := was;
    match f.rule {
      case Required =>
        var v;
        ok, v := DecodeBasicField(stream, f.kind, was.v);
        slot := Single(v);
      case Optional =>
        var v;
        ok, v := DecodeBasicField(stream, f.kind, was.v);
        slot := Maybe(true, v);
      case Repeated(cap) =>
        if wire == WT_STRING && Packable(f.kind) {
          var items;
          ok, items := DecodePackedArray(stream, f.kind, cap, was.items);
          slot := Array(items);
        } else {
          if |was.items| >= cap {
            return false, slot;
          }
          var element := DefaultValue(f.kind);
          var v;
          ok, v := DecodeBasicField(stream, f.kind, element);
          slot := Array(was.items + [v]);
        }
    }
  }

  /** What a new array element holds: defaults for a submessage. */
  method DefaultValue(k: Kind) returns (v: Value)
    requires KindOk(k)
    ensures v == Zero(k)
    decreases k, 0
  {
    match k
    case Bool => v := Number(0);
    case UVarint(_, _) => v := Number(0);
    case Fixed32 => v := Number(0);
    case Text(size) =>
      var zeros: seq<Byte> := seq(size, i => 0);
      v := Chars(zeros);
      assert zeros == Zeros(size);
    case Message(d) =>
      var slots := SetToDefaults(d);
      v := Struct(slots);
  }

  /** pb_message_set_to_defaults, with pb_field_set_to_default. */
  method SetToDefaults(d: Descriptor) returns (slots: seq<Slot>)
    requires DescriptorOk(d)
    ensures slots == Defaults(d)
    decreases d, 1
  {
    slots := [];
    var i := 0;
    while i < |d.fields|
      invariant i <= |d.fields| && slots == Defaults(d)[..i]
    {
      var f := d.fields[i];
      if f.rule.Repeated? {
        slots := slots + [Array([])];
      } else {
        var v := DefaultValue(f.kind);
        slots := slots + [if f.rule.Required? then Single(v) else Maybe(false, v)];
      }
      assert slots[i] == ZeroSlot(f);
      i := i + 1;
    }
  }

  // ----- required fields -----

  /** Field i is a required one whose flag is bit j. */
  ghost predicate Flag(fields: seq<Field>, i: nat, j: nat) {
    i < |fields| && fields[i].rule.Required? && RequiredBefore(fields, i) == j
  }

  /** Bit j of the two words of fields_seen. */
  predicate FlagBit(low: nat, high: nat, j: nat) {
    if j < 32 then Bit(low, j) else Bit(high, j - 32)
  }

  ghost predicate Recorded(fields: seq<Field>, seen: set<nat>, j: nat) {
    exists i :: i in seen && Flag(fields, i, j)
  }

  /** The two words of fields_seen hold the flags of what was seen. */
  ghost predicate Records(low: nat, high: nat, fields: seq<Field>, seen: set<nat>) {
    && low < TWO_32 && high < TWO_32
    && (forall i :: i in seen ==> i < |fields|)
    && (forall j :: 0 <= j < 64 ==> (FlagBit(low, high, j) <==> Recorded(fields, seen, j)))
  }

  lemma NothingRecorded(fields: seq<Field>)
    ensures Records(0, 0, fields, {})
  {
    forall j: nat ensures !FlagBit(0, 0, j) {
      NoBits(if j < 32 then j else j - 32);
    }
  }

  /** Setting bit j & 31 of word j >> 5 records field i; other fields change nothing. */
  lemma RecordsMore(low: nat, high: nat, fields: seq<Field>, seen: set<nat>, i: nat)
    requires Records(low, high, fields, seen) && i < |fields|
    ensures var j := RequiredBefore(fields, i);
            && (!fields[i].rule.Required? || j >= MAX_REQUIRED ==> Records(low, high, fields, seen + {i}))
            && (fields[i].rule.Required? && j < 32 ==> Records(BitOr(low, Pow2(j)), high, fields, seen + {i}))
            && (fields[i].rule.Required? && 32 <= j < 64 ==> Records(low, BitOr(high, Pow2(j - 32)), fields, seen + {i}))
  {
    hide Bit, BitOr, Pow2, Recorded;
    var j := RequiredBefore(fields, i);
    SetBit(low, j % 32);
    SetBit(high, j % 32);
    forall k: nat ensures Recorded(fields, seen + {i}, k) <==> Recorded(fields, seen, k) || Flag(fields, i, k) {
      RecordedMore(fields, seen, i, k);
    }
    forall k | 0 <= k < 64
      ensures fields[i].rule.Required? && j < 32 ==> (FlagBit(BitOr(low, Pow2(j)), high, k) <==> FlagBit(low, high, k) || k == j)
      ensures fields[i].rule.Required? && 32 <= j < 64 ==>
                (FlagBit(low, BitOr(high, Pow2(j - 32)), k) <==> FlagBit(low, high, k) || k == j)
    {
    }
  }

  lemma RecordedMore(fields: seq<Field>, seen: set<nat>, i: nat, k: nat)
    ensures Recorded(fields, seen + {i}, k) <==> Recorded(fields, seen, k) || Flag(fields, i, k)
  {
    hide Flag;
    if Flag(fields, i, k) {
      assert i in seen + {i};
    }
    if m :| m in seen && Flag(fields, m, k) {
      assert m in seen + {i};
    }
  }

  lemma SetBit(w: nat, j: nat)
    requires w < TWO_32 && j < 32
    ensures BitOr(w, Pow2(j)) < TWO_32
    ensures forall k: nat :: Bit(BitOr(w, Pow2(j)), k) <==> Bit(w, k) || k == j
  {
    hide Bit, BitOr, Pow2;
    WordSizes();
    PowBelow(j);
    OrBelow(w, Pow2(j), 32);
    forall k: nat ensures Bit(BitOr(w, Pow2(j)), k) <==> Bit(w, k) || k == j {
      OrBits(w, Pow2(j), k);
      OneBit(j, k);
    }
  }

  lemma PowBelow(j: nat)
    requires j < 32
    ensures Pow2(j) < Pow2(32)
  {
    Pow2Grows(j, 31);
    assert Pow2(32) == 2 * Pow2(31);
  }

  /** Required fields are numbered without gaps. */
  lemma {:induction false} EveryFlagHasAField(fields: seq<Field>, n: nat, j: nat) returns (i: nat)
    requires n <= |fields| && j < RequiredBefore(fields, n)
    ensures i < n && Flag(fields, i, j)
  {
    if RequiredBefore(fields, n - 1) == j {
      i := n - 1;
    } else {
      i := EveryFlagHasAField(fields, n - 1, j);
    }
  }

  lemma {:induction false} FlagsDiffer(fields: seq<Field>, i: nat, n: nat)
    requires i < n <= |fields| && fields[i].rule.Required?
    ensures RequiredBefore(fields, i) < RequiredBefore(fields, n)
    decreases n
  {
    if n > i + 1 {
      FlagsDiffer(fields, i, n - 1);
    }
  }

  lemma FlagIsUnique(fields: seq<Field>, i: nat, k: nat, j: nat)
    requires Flag(fields, i, j) && Flag(fields, k, j)
    ensures i == k
  {
    if i < k {
      FlagsDiffer(fields, i, k);
    } else if k < i {
      FlagsDiffer(fields, k, i);
    }
  }

  /** A word that holds exactly the flags of the first n of its fields. */
  ghost predicate Full(word: nat, n: nat) {
    word == Pow2(n) - 1
  }

  lemma FullHasBits(word: nat, n: nat, k: nat)
    requires Full(word, n)
    ensures Bit(word, k) <==> k < n
  {
    LowBits(n, k);
  }

  lemma BitsAreFull(word: nat, n: nat)
    requires word < TWO_32 && n <= 32 && forall k :: 0 <= k < 32 ==> (Bit(word, k) <==> k < n)
    ensures Full(word, n)
  {
    hide Pow2;
    WordSizes();
    Pow2Grows(n, 32);
    forall k | 0 <= k < 32 ensures Bit(word, k) <==> Bit(LowMask(n), k) {
      LowBits(n, k);
    }
    SameBits(word, LowMask(n), 32);
  }

  /** allbits >> (32 - n). */
  function LowMask(n: nat): (m: nat)
    ensures m == Pow2(n) - 1
  {
    Pow2(n) - 1
  }

  /** The test of whole words and of the remaining bits means that every required field that has a flag was seen. */
  lemma WordsTellComplete(low: nat, high: nat, d: Descriptor, seen: set<nat>)
    requires Records(low, high, d.fields, seen)
    ensures var all := RequiredBefore(d.fields, |d.fields|);
            var n := if all > MAX_REQUIRED then MAX_REQUIRED else all;
            && (n <= 32 ==> (Complete(d, seen) <==> Full(low, n)))
            && (n > 32 ==> (Complete(d, seen) <==> Full(low, 32) && Full(high, n - 32)))
  {
    hide Full, Recorded, Complete;
    var all := RequiredBefore(d.fields, |d.fields|);
    var n := if all > MAX_REQUIRED then MAX_REQUIRED else all;
    forall j | 0 <= j < 64
      ensures Recorded(d.fields, seen, j) ==> j < n
      ensures j < n && Complete(d, seen) ==> Recorded(d.fields, seen, j)
    {
      RecordedAt(d, seen, j);
    }
    if (n <= 32 && Full(low, n)) || (n > 32 && Full(low, 32) && Full(high, n - 32)) {
      forall j | 0 <= j < n ensures Recorded(d.fields, seen, j) {
        if j < 32 {
          FullHasBits(low, if n <= 32 then n else 32, j);
        } else {
          FullHasBits(high, n - 32, j - 32);
        }
        assert FlagBit(low, high, j);
      }
      AllRecordedIsComplete(d, seen, n);
    }
    if Complete(d, seen) {
      FlagBits(low, high);
      BitsAreFull(low, if n <= 32 then n else 32);
      if n > 32 {
        BitsAreFull(high, n - 32);
      }
    }
  }

  lemma FlagBits(low: nat, high: nat)
    ensures forall k :: 0 <= k < 32 ==> (Bit(low, k) <==> FlagBit(low, high, k))
    ensures forall k :: 0 <= k < 32 ==> (Bit(high, k) <==> FlagBit(low, high, k + 32))
    ensures forall j :: 32 <= j < 64 ==> (FlagBit(low, high, j) <==> Bit(high, j - 32))
  {
  }

  lemma RecordedAt(d: Descriptor, seen: set<nat>, j: nat)
    requires j < MAX_REQUIRED && forall i :: i in seen ==> i < |d.fields|
    ensures var all := RequiredBefore(d.fields, |d.fields|);
            && (Recorded(d.fields, seen, j) ==> j < all)
            && (j < all && Complete(d, seen) ==> Recorded(d.fields, seen, j))
  {
    if j < RequiredBefore(d.fields, |d.fields|) {
      var i := EveryFlagHasAField(d.fields, |d.fields|, j);
    }
    if i :| i in seen && Flag(d.fields, i, j) {
      FlagsDiffer(d.fields, i, |d.fields|);
    }
  }

  lemma AllRecordedIsComplete(d: Descriptor, seen: set<nat>, n: nat)
    requires n == MAX_REQUIRED || n == RequiredBefore(d.fields, |d.fields|)
    requires forall j :: 0 <= j < n ==> Recorded(d.fields, seen, j)
    ensures Complete(d, seen)
  {
    forall i | 0 <= i < |d.fields| && d.fields[i].rule.Required? && RequiredBefore(d.fields, i) < MAX_REQUIRED
      ensures i in seen
    {
      FlagsDiffer(d.fields, i, |d.fields|);
      var j := RequiredBefore(d.fields, i);
      assert Recorded(d.fields, seen, j);
      var k :| k in seen && Flag(d.fields, k, j);
      FlagIsUnique(d.fields, i, k, j);
    }
  }

  /** The final check of pb_decode_inner. */
  method CheckRequired(bitfield: array<nat>, d: Descriptor, ghost seen: set<nat>) returns (ok: bool)
    requires bitfield.Length == 2 && Records(bitfield[0], bitfield[1], d.fields, seen)
    ensures ok <==> Complete(d, seen)
  {
    hide Records, Complete, RequiredBefore, Pow2;
    WordSizes();
    WordsTellComplete(bitfield[0], bitfield[1], d, seen);
    NoneRequired();
    var count := RequiredBefore(d.fields, |d.fields|);
    if count > MAX_REQUIRED {
      count := MAX_REQUIRED;
    }
    NoneIsFull(bitfield[0], bitfield[1], d, seen);
    if count > 0 {
      var i := 0;
      while i < count / 32
        invariant i <= count / 32
        invariant forall j :: 0 <= j < i ==> Full(bitfield[j], 32)
      {
        if bitfield[i] != TWO_32 - 1 {
          return false;
        }
        i := i + 1;
      }
      if count % 32 != 0 {
        if bitfield[count / 32] != LowMask(count % 32) {
          return false;
        }
      }
    }
    ok := true;
  }

  lemma NoneRequired()
    ensures Pow2(0) - 1 == 0
  {
  }

  /** Without required fields no flag was ever set. */
  lemma NoneIsFull(low: nat, high: nat, d: Descriptor, seen: set<nat>)
    requires Records(low, high, d.fields, seen)
    ensures RequiredBefore(d.fields, |d.fields|) == 0 ==> Complete(d, seen)
  {
    if RequiredBefore(d.fields, |d.fields|) == 0 {
      AllRecordedIsComplete(d, seen, 0);
    }
  }

  // ----- messages -----

  /** The flag of a required field is set in fields_seen. */
  method MarkSeen(bitfield: array<nat>, fields: seq<Field>, i: nat, ghost seen: set<nat>)
    requires bitfield.Length == 2 && i < |fields| && Records(bitfield[0], bitfield[1], fields, seen)
    modifies bitfield
    ensures Records(bitfield[0], bitfield[1], fields, seen + {i})
  {
    hide Records, BitOr, Pow2;
    RecordsMore(bitfield[0], bitfield[1], fields, seen, i);
    var required := RequiredBefore(fields, i);
    if fields[i].rule.Required? && required < MAX_REQUIRED {
      bitfield[required / 32] := BitOr(bitfield[required / 32], Pow2(required % 32));
    }
  }

  /** pb_decode_inner. */
  method DecodeMessage(stream: IStream, d: Descriptor, was: seq<Slot>) returns (ok: bool, slots: seq<Slot>)
    requires stream.Valid() && DescriptorOk(d) && FitsAll(d, was)
    modifies stream
    ensures stream.Valid() && Ends(ok, stream.state + stream.bytesLeft, old(stream.state + stream.bytesLeft))
    ensures ok <==> DecodeInner(d, old(stream.Rest()), was).Some?
    ensures ok ==> DecodeInner(d, old(stream.Rest()), was) == Some(slots) && stream.bytesLeft == 0
    decreases d, 1
  {
    hide DecodeLoop, DecodeInner, Complete, Records, DecodeField, Skip, ReadVarint32, FitsAll, FitsSlot, DescriptorOk, FieldOk;
    ghost var s := stream.Rest();
    InnerMeans(d, s, was);
    ghost var start := Progress(was, {});
    slots := was;
    ghost var seen: set<nat> := {};
    var bitfield := new nat[2](i => 0);
    NothingRecorded(d.fields);
    while stream.bytesLeft > 0
      invariant stream.Valid() && stream.state + stream.bytesLeft == old(stream.state + stream.bytesLeft)
      invariant FitsAll(d, slots) && Records(bitfield[0], bitfield[1], d.fields, seen)
      invariant DecodeLoop(d, s, start) == DecodeLoop(d, stream.Rest(), Progress(slots, seen))
      decreases stream.bytesLeft
      modifies stream, bitfield
    {
      ghost var before := stream.Rest();
      LoopStep(d, before, Progress(slots, seen));
      var tag, wire, eof;
      ok, tag, wire, eof := stream.DecodeTag();
      if !ok {
        if eof {
          break;
        }
        return;
      }
      if tag == 0 {
        return false, slots;
      }
      var i := IndexOf(d.fields, tag);
      if i == |d.fields| {
        ok := stream.SkipField(wire);
        if !ok {
          return;
        }
      } else {
        var f := d.fields[i];
        MarkSeen(bitfield, d.fields, i, seen);
        var slot;
        ok, slot := DecodeStaticField(stream, f, wire, slots[i]);
        if !ok {
          return;
        }
        slots := slots[i := slot];
        seen := seen + {i};
      }
    }
    assert stream.Rest() == [];
    LoopEnd(d, Progress(slots, seen));
    ok := CheckRequired(bitfield, d, seen);
  }

  /** One turn of the loop. */
  lemma LoopStep(d: Descriptor, s: seq<Byte>, p: Progress)
    requires DescriptorOk(d) && FitsAll(d, p.slots) && s != []
    ensures DecodeLoop(d, s, p) ==
      match ReadVarint32(s)
      case Fail => None
      case Ok(t, rest) =>
        if t / 8 == 0 then None else
          var i := IndexOf(d.fields, t / 8);
          if i == |d.fields| then
            match Skip(t % 8, rest)
            case None => None
            case Some(behind) => DecodeLoop(d, behind, p)
          else
            match DecodeField(d.fields[i], t % 8, rest, p.slots[i])
            case Fail => None
            case Ok(slot, behind) => DecodeLoop(d, behind, Progress(p.slots[i := slot], p.seen + {i}))
    ensures ReadVarint32(s).Ok? ==>
      var t := ReadVarint32(s).value;
      var rest := ReadVarint32(s).rest;
      var i := IndexOf(d.fields, t / 8);
      && |rest| < |s| && |p.slots| == |d.fields|
      && (Skip(t % 8, rest).Some? ==> |Skip(t % 8, rest).value| < |rest|)
      && (i < |d.fields| ==>
            && FieldOk(d.fields[i]) && FitsSlot(d.fields[i], p.slots[i])
            && var r := DecodeField(d.fields[i], t % 8, rest, p.slots[i]);
               r.Ok? ==> |r.rest| < |rest| && FitsAll(d, p.slots[i := r.value]))
  {
  }

  lemma InnerMeans(d: Descriptor, s: seq<Byte>, was: seq<Slot>)
    requires DescriptorOk(d) && FitsAll(d, was)
    ensures DecodeInner(d, s, was) ==
      match DecodeLoop(d, s, Progress(was, {}))
      case None => None
      case Some(p) => if Complete(d, p.seen) then Some(p.slots) else None
  {
  }

  lemma LoopEnd(d: Descriptor, p: Progress)
    requires DescriptorOk(d) && FitsAll(d, p.slots)
    ensures DecodeLoop(d, [], p) == Some(p)
  {
  }

  /** pb_decode_ex; `init` is the absence of PB_DECODE_NOINIT, `delimited` is PB_DECODE_DELIMITED. */
  method DecodeEx(stream: IStream, d: Descriptor, was: seq<Slot>, init: bool, delimited: bool) returns (ok: bool, slots: seq<Slot>)
    requires stream.Valid() && DescriptorOk(d) && FitsAll(d, was)
    modifies stream
    ensures stream.Valid()
    ensures var from := if init then Defaults(d) else was;
            var s := old(stream.Rest());
            if delimited then
              var r := ReadDelimited(s);
              && (ok <==> r.Ok? && DecodeInner(d, r.value, from).Some?)
              && (ok ==> DecodeInner(d, r.value, from) == Some(slots) && stream.Rest() == r.rest)
            else
              && (ok <==> DecodeInner(d, s, from).Some?)
              && (ok ==> DecodeInner(d, s, from) == Some(slots) && stream.Rest() == [])
  {
    hide ReadDelimited, DecodeInner, Defaults;
    DefaultsFit(d);
    slots := was;
    if init {
      slots := SetToDefaults(d);
    }
    if !delimited {
      ok, slots := DecodeMessage(stream, d, slots);
    } else {
      var sub;
      ok, sub := stream.MakeStringSubstream();
      if !ok {
        return;
      }
      var status;
      status, slots := DecodeMessage(sub, d, slots);
      ok := stream.CloseStringSubstream(sub);
      ok := status;
    }
  }

  lemma DefaultsFit(d: Descriptor)
    requires DescriptorOk(d)
    ensures FitsAll(d, Defaults(d))
  {
  }
}
