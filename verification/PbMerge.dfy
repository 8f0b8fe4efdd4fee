/** Decoding as an action on the struct: what a concatenation of encoded bytes does to it. */
module PbMerge {
  import opened Basics
  import opened PbBits
  import opened PbVarint
  import opened PbMessage

  // ----- a field is decoded from its own bytes only -----

  lemma ReadDelimitedStays(s: seq<Byte>, t: seq<Byte>)
    requires ReadDelimited(s).Ok?
    ensures ReadDelimited(s + t) == Ok(ReadDelimited(s).value, ReadDelimited(s).rest + t)
  {
    hide ReadVarint32;
    ReadVarint32Stays(s, t);
    var n := ReadVarint32(s).value;
    var rest := ReadVarint32(s).rest;
    assert (rest + t)[..n] == rest[..n] && (rest + t)[n..] == rest[n..] + t;
  }

  lemma DecodeValueStays(k: Kind, s: seq<Byte>, was: Value, t: seq<Byte>)
    requires KindOk(k) && Fits(k, was) && DecodeValue(k, s, was).Ok?
    ensures DecodeValue(k, s + t, was) == Ok(DecodeValue(k, s, was).value, DecodeValue(k, s, was).rest + t)
  {
    hide ReadVarint32, ReadVarint, ReadDelimited, DecodeInner;
    match k
    case Bool => ReadVarint32Stays(s, t);
    case UVarint(_, _) => ReadVarintStays(s, t);
    case Fixed32 =>
      assert (s + t)[..4] == s[..4] && (s + t)[4..] == s[4..] + t;
    case Text(_) =>
      ReadVarint32Stays(s, t);
      var n := ReadVarint32(s).value;
      var rest := ReadVarint32(s).rest;
      assert (rest + t)[..n] == rest[..n] && (rest + t)[n..] == rest[n..] + t;
    case Message(_) => ReadDelimitedStays(s, t);
  }

  lemma DecodeFieldStays(f: Field, wire: nat, s: seq<Byte>, was: Slot, t: seq<Byte>)
    requires FieldOk(f) && FitsSlot(f, was) && DecodeField(f, wire, s, was).Ok?
    ensures DecodeField(f, wire, s + t, was) == Ok(DecodeField(f, wire, s, was).value, DecodeField(f, wire, s, was).rest + t)
  {
    hide DecodeValue, DecodePacked, ReadDelimited;
    match f.rule
    case Required => DecodeValueStays(f.kind, s, was.v, t);
    case Optional => DecodeValueStays(f.kind, s, was.v, t);
    case Repeated(cap) =>
      if wire == WT_STRING && Packable(f.kind) {
        ReadDelimitedStays(s, t);
      } else {
        DecodeValueStays(f.kind, s, Zero(f.kind), t);
      }
  }

  lemma SkipStays(wire: nat, s: seq<Byte>, t: seq<Byte>)
    requires Skip(wire, s).Some?
    ensures Skip(wire, s + t) == Some(Skip(wire, s).value + t)
  {
    hide ReadDelimited;
    if wire == WT_VARINT {
      ExtentStays(s, t);
    } else if wire == WT_64BIT {
      assert (s + t)[8..] == s[8..] + t;
    } else if wire == WT_STRING {
      ReadDelimitedStays(s, t);
    } else {
      assert (s + t)[4..] == s[4..] + t;
    }
  }

  /** Reading moves on. */
  lemma Consumes(d: Descriptor, s: seq<Byte>, p: Progress)
    requires DescriptorOk(d) && FitsAll(d, p.slots) && ReadVarint32(s).Ok?
    ensures var t := ReadVarint32(s).value;
            var rest := ReadVarint32(s).rest;
            var i := IndexOf(d.fields, t / 8);
            && |rest| < |s|
            && (Skip(t % 8, rest).Some? ==> |Skip(t % 8, rest).value| < |rest|)
            && (i < |d.fields| && DecodeField(d.fields[i], t % 8, rest, p.slots[i]).Ok? ==>
                  |DecodeField(d.fields[i], t % 8, rest, p.slots[i]).rest| < |rest|)
  {
  }

  // ----- concatenation -----

  /** Decoding two runs of fields one after the other is decoding their concatenation. */
  lemma {:induction false} DecodeLoopAppend(d: Descriptor, a: seq<Byte>, b: seq<Byte>, p: Progress)
    requires DescriptorOk(d) && FitsAll(d, p.slots) && DecodeLoop(d, a, p).Some?
    ensures DecodeLoop(d, a + b, p) == DecodeLoop(d, b, DecodeLoop(d, a, p).value)
    decreases |a|
  {
    hide ReadVarint32, DecodeField, Skip, FitsSlot, FieldOk;
    if a == [] {
      assert a + b == b;
    } else {
      ReadVarint32Stays(a, b);
      Consumes(d, a, p);
      var t := ReadVarint32(a).value;
      var rest := ReadVarint32(a).rest;
      var i := IndexOf(d.fields, t / 8);
      if i == |d.fields| {
        SkipStays(t % 8, rest, b);
        DecodeLoopAppend(d, Skip(t % 8, rest).value, b, p);
      } else {
        DecodeFieldStays(d.fields[i], t % 8, rest, p.slots[i], b);
        var r := DecodeField(d.fields[i], t % 8, rest, p.slots[i]);
        DecodeLoopAppend(d, r.rest, b, Progress(p.slots[i := r.value], p.seen + {i}));
      }
    }
  }

  /** What was seen before changes nothing but what was seen after. */
  lemma {:induction false} DecodeLoopSeen(d: Descriptor, s: seq<Byte>, slots: seq<Slot>, seen: set<nat>)
    requires DescriptorOk(d) && FitsAll(d, slots)
    ensures var r := DecodeLoop(d, s, Progress(slots, {}));
            DecodeLoop(d, s, Progress(slots, seen)) == match r case None => None case Some(p) => Some(Progress(p.slots, seen + p.seen))
    decreases |s|
  {
    hide ReadVarint32, DecodeField, Skip, FitsSlot, FieldOk;
    if s == [] {
      assert seen + {} == seen;
    } else if ReadVarint32(s).Ok? && ReadVarint32(s).value / 8 != 0 {
      Consumes(d, s, Progress(slots, seen));
      var t := ReadVarint32(s).value;
      var rest := ReadVarint32(s).rest;
      var i := IndexOf(d.fields, t / 8);
      if i == |d.fields| {
        if Skip(t % 8, rest).Some? {
          DecodeLoopSeen(d, Skip(t % 8, rest).value, slots, seen);
        }
      } else if DecodeField(d.fields[i], t % 8, rest, slots[i]).Ok? {
        var r := DecodeField(d.fields[i], t % 8, rest, slots[i]);
        DecodeLoopSeen(d, r.rest, slots[i := r.value], seen + {i});
        DecodeLoopSeen(d, r.rest, slots[i := r.value], {i});
        assert {} + {i} == {i};
        if DecodeLoop(d, r.rest, Progress(slots[i := r.value], {})).Some? {
          var more := DecodeLoop(d, r.rest, Progress(slots[i := r.value], {})).value.seen;
          assert seen + {i} + more == seen + ({i} + more);
        }
      }
    }
  }

  /** Decoding is a merge action: b over the result of a is the concatenation over the old struct. */
  lemma DecodeMerges(d: Descriptor, a: seq<Byte>, b: seq<Byte>, was: seq<Slot>)
    requires DescriptorOk(d) && FitsAll(d, was) && DecodeInner(d, a, was).Some?
    ensures var mid := DecodeInner(d, a, was).value;
            && (DecodeInner(d, b, mid).Some? ==> DecodeInner(d, a + b, was) == DecodeInner(d, b, mid))
            && (DecodeInner(d, a + b, was).Some? <==> DecodeLoop(d, b, Progress(mid, {})).Some?)
  {
    hide DecodeLoop, FitsAll, DescriptorOk;
    DecodeLoopAppend(d, a, b, Progress(was, {}));
    var p := DecodeLoop(d, a, Progress(was, {})).value;
    DecodeLoopSeen(d, b, p.slots, p.seen);
  }

  /** The bytes of a whole field whose tag is not in the descriptor. */
  ghost predicate UnknownField(d: Descriptor, u: seq<Byte>) {
    && ReadVarint32(u).Ok?
    && var t := ReadVarint32(u).value;
       && t / 8 != 0 && IndexOf(d.fields, t / 8) == |d.fields|
       && Skip(t % 8, ReadVarint32(u).rest) == Some([])
  }

  lemma UnknownFieldLoop(d: Descriptor, u: seq<Byte>, p: Progress)
    requires DescriptorOk(d) && FitsAll(d, p.slots) && UnknownField(d, u)
    ensures DecodeLoop(d, u, p) == Some(p)
  {
    hide Skip;
    assert u != [];
  }

  /** Unknown fields at a field boundary change nothing, neither the result nor whether there is one. */
  lemma UnknownFieldsAreIgnored(d: Descriptor, a: seq<Byte>, u: seq<Byte>, b: seq<Byte>, was: seq<Slot>)
    requires DescriptorOk(d) && FitsAll(d, was) && UnknownField(d, u)
    requires DecodeLoop(d, a, Progress(was, {})).Some?
    ensures DecodeInner(d, a + u + b, was) == DecodeInner(d, a + b, was)
  {
    hide DecodeLoop, UnknownField;
    var p := Progress(was, {});
    DecodeLoopAppend(d, a, b, p);
    DecodeLoopAppend(d, a, u + b, p);
    assert a + u + b == a + (u + b);
    var mid := DecodeLoop(d, a, p).value;
    UnknownFieldLoop(d, u, mid);
    DecodeLoopAppend(d, u, b, mid);
  }

  // ----- the parts of the action -----

  /** The bytes of one occurrence of field i. */
  ghost predicate OneField(d: Descriptor, s: seq<Byte>, p: Progress, i: nat)
    requires DescriptorOk(d) && FitsAll(d, p.slots)
  {
    && i < |d.fields|
    && ReadVarint32(s).Ok?
    && var t := ReadVarint32(s).value;
       && t / 8 != 0 && IndexOf(d.fields, t / 8) == i
       && var r := DecodeField(d.fields[i], t % 8, ReadVarint32(s).rest, p.slots[i]);
          r.Ok? && r.rest == []
  }

  /** Last one wins: of two occurrences of a scalar field the first might as well not be there. */
  lemma LastOneWins(d: Descriptor, a: seq<Byte>, b: seq<Byte>, p: Progress, i: nat)
    requires DescriptorOk(d) && FitsAll(d, p.slots)
    requires OneField(d, a, p, i) && OneField(d, b, p, i)
    requires Packable(d.fields[i].kind) && !d.fields[i].rule.Repeated?
    ensures DecodeLoop(d, a + b, p) == DecodeLoop(d, b, p) && DecodeLoop(d, b, p).Some?
  {
    hide ReadVarint32, ReadVarint, FromLittleEndian;
    var mid := OneFieldLoop(d, a, p, i);
    var end := OneFieldLoop(d, b, p, i);
    var f := d.fields[i];
    var t := ReadVarint32(b).value;
    var rest := ReadVarint32(b).rest;
    ScalarForgets(f, t % 8, rest, p.slots[i], mid.slots[i]);
    DecodeLoopAppend(d, a, b, p);
    var again := OneFieldLoop(d, b, mid, i);
    assert again.slots == end.slots && again.seen == end.seen;
  }

  /** What one occurrence does. */
  lemma OneFieldLoop(d: Descriptor, s: seq<Byte>, p: Progress, i: nat) returns (q: Progress)
    requires DescriptorOk(d) && FitsAll(d, p.slots) && OneField(d, s, p, i)
    ensures DecodeLoop(d, s, p) == Some(q) && FitsAll(d, q.slots)
    ensures var t := ReadVarint32(s).value;
            q == Progress(p.slots[i := DecodeField(d.fields[i], t % 8, ReadVarint32(s).rest, p.slots[i]).value], p.seen + {i})
  {
    hide ReadVarint32, DecodeField;
    Consumes(d, s, p);
    var t := ReadVarint32(s).value;
    q := Progress(p.slots[i := DecodeField(d.fields[i], t % 8, ReadVarint32(s).rest, p.slots[i]).value], p.seen + {i});
    assert DecodeLoop(d, [], q) == Some(q);
  }

  /** The old value of a scalar does not matter. */
  lemma ScalarForgets(f: Field, wire: nat, s: seq<Byte>, was: Slot, other: Slot)
    requires FieldOk(f) && FitsSlot(f, was) && FitsSlot(f, other) && Packable(f.kind) && !f.rule.Repeated?
    ensures DecodeField(f, wire, s, was) == DecodeField(f, wire, s, other)
  {
  }

  /** A string's text is the last one's, though the buffer behind its terminator keeps older bytes. */
  lemma LastTextWins(size: nat, s: seq<Byte>, was: Value, other: Value)
    requires KindOk(Text(size)) && Fits(Text(size), was) && Fits(Text(size), other)
    ensures var r := DecodeValue(Text(size), s, was);
            var q := DecodeValue(Text(size), s, other);
            && r.Ok? == q.Ok?
            && (r.Ok? ==> r.rest == q.rest && UpToNul(r.value.buffer) == UpToNul(q.value.buffer) && 0 in r.value.buffer)
  {
    hide ReadVarint32;
    var r := DecodeValue(Text(size), s, was);
    var q := DecodeValue(Text(size), s, other);
    if r.Ok? {
      var n := ReadVarint32(s).value;
      assert r.value.buffer[..n + 1] == q.value.buffer[..n + 1];
      SameText(r.value.buffer, q.value.buffer, n);
      assert r.value.buffer[n] == 0;
    }
  }

  lemma {:induction false} SameText(a: seq<Byte>, b: seq<Byte>, n: nat)
    requires n < |a| && n < |b| && a[..n + 1] == b[..n + 1] && a[n] == 0
    ensures UpToNul(a) == UpToNul(b)
  {
    assert a[0] == a[..n + 1][0] == b[0];
    if a[0] != 0 {
      assert a[1..][..n] == a[..n + 1][1..] && b[1..][..n] == b[..n + 1][1..];
      SameText(a[1..], b[1..], n - 1);
    }
  }

  /** Packed runs append: two runs are one. */
  lemma {:induction false} PackedRunsAppend(k: Kind, cap: nat, a: seq<Byte>, b: seq<Byte>, items: seq<Value>)
    requires KindOk(k) && forall i :: 0 <= i < |items| ==> Fits(k, items[i])
    requires DecodePacked(k, cap, a, items).Some?
    ensures DecodePacked(k, cap, a + b, items) == DecodePacked(k, cap, b, DecodePacked(k, cap, a, items).value)
    ensures items <= DecodePacked(k, cap, a, items).value
    decreases |a|
  {
    hide DecodeValue, Fits, KindOk;
    if a == [] {
      assert a + b == b;
    } else {
      DecodeValueStays(k, a, Zero(k), b);
      var r := DecodeValue(k, a, Zero(k));
      PackedRunsAppend(k, cap, r.rest, b, items + [r.value]);
    }
  }

  /** Two occurrences of a submessage merge: they are one with the payloads concatenated. */
  lemma SubmessagesMerge(d: Descriptor, a: seq<Byte>, b: seq<Byte>, was: Value)
    requires DescriptorOk(d) && Fits(Message(d), was)
    requires |a| + |b| < TWO_32
    requires DecodeValue(Message(d), Delimited(a), was).Ok?
    requires DecodeValue(Message(d), Delimited(b), DecodeValue(Message(d), Delimited(a), was).value).Ok?
    ensures DecodeValue(Message(d), Delimited(a + b), was)
            == DecodeValue(Message(d), Delimited(b), DecodeValue(Message(d), Delimited(a), was).value)
  {
    hide DecodeInner, Delimited, ReadDelimited;
    DelimitedIsRead(a, []);
    DelimitedIsRead(b, []);
    DelimitedIsRead(a + b, []);
    assert Delimited(a) + [] == Delimited(a) && Delimited(b) + [] == Delimited(b) && Delimited(a + b) + [] == Delimited(a + b);
    DecodeMerges(d, a, b, was.slots);
  }

  lemma DelimitedIsRead(s: seq<Byte>, t: seq<Byte>)
    requires |s| < TWO_32
    ensures ReadDelimited(Delimited(s) + t) == Ok(s, t)
  {
    hide ReadVarint32;
    Varint32RoundTrip(|s|, s + t);
    assert Delimited(s) + t == Varint(|s|) + (s + t);
  }
}
