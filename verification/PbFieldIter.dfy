/**
 Field descriptors packed into words (pb.h), and the iterator over them (pb_common.c).
 */
module PbFieldIter {
  import opened PbBits
  import M = PbMessage

  /**
   What a descriptor says of a field; `width` is its number of words.  The size offset is a
   difference of two offsets in the struct, and may be negative.
   */
  datatype FieldInfo = FieldInfo(
    tag: nat, kind: nat, dataOffset: nat, dataSize: nat, sizeOffset: int, arraySize: nat, width: nat)

  const LTYPE_SUBMESSAGE := 8
  const LTYPE_SUBMSG_W_CB := 9
  const LTYPE_EXTENSION := 10

  /** PB_LTYPE and PB_HTYPE. */
  function LType(kind: nat): nat { kind % 16 }

  function HType(kind: nat): nat { kind / 16 % 4 }

  predicate IsRequired(kind: nat) { HType(kind) == 0 }

  predicate IsSubmessage(kind: nat) { LType(kind) == LTYPE_SUBMESSAGE || LType(kind) == LTYPE_SUBMSG_W_CB }

  // ----- packing -----

  /** (int8_t)x. */
  function Int8(x: int): (r: int)
    ensures -0x80 <= r < 0x80 && (r - x) % 0x100 == 0
  {
    if x % 0x100 < 0x80 then x % 0x100 else x % 0x100 - 0x100
  }

  /** The PB_FIELDINFO_ASSERT_n conditions; that of four words tests the size offset after a cast to int8_t. */
  predicate Asserted(f: FieldInfo) {
    && f.kind < 0x100
    && (if f.width == 1 then f.tag < 0x40 && f.dataOffset < 0x100 && 0 <= f.sizeOffset < 0x10 && f.dataSize < 0x10 && f.arraySize < 2
        else if f.width == 2 then
          f.tag < 0x400 && f.dataOffset < 0x1_0000 && 0 <= f.sizeOffset < 0x10 && f.dataSize < 0x1000 && f.arraySize < 0x1000
        else
          && f.width == 4 && f.tag < 0x1_0000 && f.dataOffset < 0x1_0000
          && 0 <= Int8(f.sizeOffset) && f.dataSize < 0x1_0000 && f.arraySize < 0x1_0000)
  }

  /** The lowest 16 bits of every first word: the format, six bits of the tag, and the type. */
  function FirstHalf(format: nat, f: FieldInfo): nat {
    BitOr(BitOr(format, Shl(f.tag, 2) % 0x100), Shl(f.kind, 8))
  }

  /** tag & 0x2c0. */
  function TagMask(tag: nat): nat {
    Shl(tag / 0x40 % 4, 6) + Shl(tag / 0x200 % 2, 9)
  }

  /** PB_FIELDINFO_1, _2 and _4. */
  function Pack(f: FieldInfo): (words: seq<nat>)
    requires f.width in {1, 2, 4}
    ensures |words| == f.width
  {
    if f.width == 1 then
      [BitOr(BitOr(BitOr(FirstHalf(0, f), Shl(f.dataOffset % 0x100, 16)), Shl(f.sizeOffset % 0x10, 24)), Shl(f.dataSize % 0x10, 28))]
    else if f.width == 2 then
      [BitOr(BitOr(FirstHalf(1, f), Shl(f.arraySize % 0x1000, 16)), Shl(f.sizeOffset % 0x10, 28)),
       BitOr(BitOr(f.dataOffset % 0x1_0000, Shl(f.dataSize % 0x1000, 16)), Shl(TagMask(f.tag), 22))]
    else
      [BitOr(FirstHalf(2, f), Shl(f.arraySize % 0x1_0000, 16)),
       BitOr(Int8(f.sizeOffset) % TWO_32, Shl(f.tag, 2) / 0x100 * 0x100),
       f.dataOffset,
       f.dataSize]
  }

  /** What load_descriptor_values reads at a position. */
  function Loaded(words: seq<nat>, at: nat): FieldInfo
    requires at < |words| && at + Width(words[at]) <= |words|
  {
    var word0 := words[at];
    var tag := word0 / 4 % 0x40;
    var kind := word0 / 0x100 % 0x100;
    if Width(word0) == 1 then
      FieldInfo(tag, kind, word0 / 0x1_0000 % 0x100, word0 / 0x1000_0000 % 0x10, word0 / 0x100_0000 % 0x10, 1, 1)
    else
      var word1 := words[at + 1];
      if Width(word0) == 2 then
        FieldInfo(BitOr(tag, Shl(word1 / 0x1000_0000, 6)) % 0x1_0000, kind, word1 % 0x1_0000,
          word1 / 0x1_0000 % 0x1000, word0 / 0x1000_0000 % 0x10, word0 / 0x1_0000 % 0x1000, 2)
      else
        FieldInfo(BitOr(tag, Shl(word1 / 0x100, 6)) % 0x1_0000, kind, words[at + 2],
          words[at + 3] % 0x1_0000, Int8(word1), word0 / 0x1_0000 % 0x1_0000, Width(word0))
  }

  /** 1 << (word & 3). */
  function Width(word: nat): (w: nat)
    ensures w in {1, 2, 4, 8}
  {
    if word % 4 == 0 then 1 else if word % 4 == 1 then 2 else if word % 4 == 2 then 4 else 8
  }

  lemma Powers()
    ensures Pow2(2) == 4 && Pow2(6) == 0x40 && Pow2(8) == 0x100 && Pow2(9) == 0x200 && Pow2(16) == 0x1_0000
    ensures Pow2(22) == 0x40_0000 && Pow2(24) == 0x100_0000 && Pow2(28) == 0x1000_0000
  {
    hide Pow2;
    SmallPowers();
    Pow2Adds(8, 8);
    Pow2Adds(16, 6);
    Pow2Adds(16, 8);
    Pow2Adds(22, 6);
  }

  lemma SmallPowers()
    ensures Pow2(2) == 4 && Pow2(6) == 0x40 && Pow2(8) == 0x100 && Pow2(9) == 0x200
  {
    assert Pow2(4) == 16 && Pow2(5) == 32 && Pow2(7) == 128;
  }

  /** Or-ing a number that was shifted beyond the other's bits adds it. */
  lemma OrAbove(a: nat, b: nat, k: nat, p: nat)
    requires p == Pow2(k) && a < p
    ensures BitOr(a, Shl(b, k)) == a + p * b
  {
    hide BitOr, Pow2;
    OrDisjoint(a, b, k);
  }

  lemma ShlIs(a: nat, k: nat, p: nat)
    requires p == Pow2(k)
    ensures Shl(a, k) == p * a
  {
    hide Pow2;
  }

  /** The first half as a sum. */
  lemma FirstHalfIs(format: nat, f: FieldInfo)
    requires format < 4 && f.kind < 0x100
    ensures FirstHalf(format, f) == format + 4 * (f.tag % 0x40) + 0x100 * f.kind < 0x1_0000
  {
    hide BitOr, Pow2, Shl;
    Powers();
    ShlIs(f.tag, 2, 4);
    ShlIs(f.tag % 0x40, 2, 4);
    assert 4 * f.tag % 0x100 == 4 * (f.tag % 0x40);
    OrAbove(format, f.tag % 0x40, 2, 4);
    OrAbove(format + 4 * (f.tag % 0x40), f.kind, 8, 0x100);
  }

  lemma Pack1Is(f: FieldInfo)
    requires Asserted(f) && f.width == 1
    ensures Pack(f) == [4 * f.tag + 0x100 * f.kind + 0x1_0000 * f.dataOffset + 0x100_0000 * f.sizeOffset + 0x1000_0000 * f.dataSize]
  {
    hide BitOr, Pow2, FirstHalf, Shl;
    Powers();
    FirstHalfIs(0, f);
    var a := FirstHalf(0, f);
    OrAbove(a, f.dataOffset, 16, 0x1_0000);
    var b := a + 0x1_0000 * f.dataOffset;
    OrAbove(b, f.sizeOffset, 24, 0x100_0000);
    OrAbove(b + 0x100_0000 * f.sizeOffset, f.dataSize, 28, 0x1000_0000);
  }

  /** tag & 0x2c0, moved to the top of a word. */
  lemma TagMaskIs(tag: nat)
    ensures Shl(TagMask(tag), 22) == Shl(tag / 0x40 % 4 + 8 * (tag / 0x200 % 2), 28)
  {
    hide Pow2, Shl;
    Powers();
    ShlIs(tag / 0x40 % 4, 6, 0x40);
    ShlIs(tag / 0x200 % 2, 9, 0x200);
    ShlIs(TagMask(tag), 22, 0x40_0000);
    ShlIs(tag / 0x40 % 4 + 8 * (tag / 0x200 % 2), 28, 0x1000_0000);
  }

  lemma Pack2Is(f: FieldInfo)
    requires Asserted(f) && f.width == 2
    ensures Pack(f) ==
      [1 + 4 * (f.tag % 0x40) + 0x100 * f.kind + 0x1_0000 * f.arraySize + 0x1000_0000 * f.sizeOffset,
       f.dataOffset + 0x1_0000 * f.dataSize + 0x1000_0000 * (f.tag / 0x40 % 4 + 8 * (f.tag / 0x200 % 2))]
  {
    hide BitOr, Pow2, FirstHalf, Shl, TagMask;
    Powers();
    FirstHalfIs(1, f);
    TagMaskIs(f.tag);
    var a := FirstHalf(1, f);
    OrAbove(a, f.arraySize, 16, 0x1_0000);
    OrAbove(a + 0x1_0000 * f.arraySize, f.sizeOffset, 28, 0x1000_0000);
    OrAbove(f.dataOffset, f.dataSize, 16, 0x1_0000);
    OrAbove(f.dataOffset + 0x1_0000 * f.dataSize, f.tag / 0x40 % 4 + 8 * (f.tag / 0x200 % 2), 28, 0x1000_0000);
  }

  lemma Pack4Is(f: FieldInfo)
    requires Asserted(f) && f.width == 4
    ensures Pack(f) ==
      [2 + 4 * (f.tag % 0x40) + 0x100 * f.kind + 0x1_0000 * f.arraySize, Int8(f.sizeOffset) + 0x100 * (f.tag / 0x40), f.dataOffset, f.dataSize]
  {
    hide BitOr, Pow2, FirstHalf, Shl;
    Powers();
    FirstHalfIs(2, f);
    OrAbove(FirstHalf(2, f), f.arraySize, 16, 0x1_0000);
    ShlIs(f.tag, 2, 4);
    assert 4 * f.tag / 0x100 == f.tag / 0x40;
    ShlIs(f.tag / 0x40, 8, 0x100);
    OrAbove(Int8(f.sizeOffset), f.tag / 0x40, 8, 0x100);
  }

  /** The bits of a word between p and p * q. */
  lemma Extract(low: nat, x: nat, high: nat, p: nat, q: nat)
    requires low < p && x < q
    ensures (low + p * (x + q * high)) / p % q == x
  {
    ModUnique(x + q * high, p, low);
    assert low + p * (x + q * high) == (x + q * high) * p + low;
    ModUnique(high, q, x);
    assert x + q * high == high * q + x;
  }

  /** The format, tag and type of a first word. */
  lemma FirstWordParts(format: nat, tag: nat, kind: nat, high: nat)
    requires format < 4 && tag < 0x40 && kind < 0x100
    ensures var w := format + 4 * tag + 0x100 * kind + 0x1_0000 * high;
            w % 4 == format && w / 4 % 0x40 == tag && w / 0x100 % 0x100 == kind
  {
    Extract(format, tag, kind + 0x100 * high, 4, 0x40);
    Extract(format + 4 * tag, kind, high, 0x100, 0x100);
  }

  lemma Parts1(f: FieldInfo, w: nat)
    requires Asserted(f) && f.width == 1
    requires w == 4 * f.tag + 0x100 * f.kind + 0x1_0000 * f.dataOffset + 0x100_0000 * f.sizeOffset + 0x1000_0000 * f.dataSize
    ensures w / 0x1_0000 % 0x100 == f.dataOffset && w / 0x100_0000 % 0x10 == f.sizeOffset && w / 0x1000_0000 % 0x10 == f.dataSize
  {
    var a := 4 * f.tag + 0x100 * f.kind;
    Extract(a, f.dataOffset, f.sizeOffset + 0x10 * f.dataSize, 0x1_0000, 0x100);
    Extract(a + 0x1_0000 * f.dataOffset, f.sizeOffset, f.dataSize, 0x100_0000, 0x10);
    Extract(a + 0x1_0000 * f.dataOffset + 0x100_0000 * f.sizeOffset, f.dataSize, 0, 0x1000_0000, 0x10);
  }

  lemma Parts2(f: FieldInfo, w0: nat, w1: nat, high: nat)
    requires Asserted(f) && f.width == 2 && high < 0x10
    requires w0 == 1 + 4 * (f.tag % 0x40) + 0x100 * f.kind + 0x1_0000 * f.arraySize + 0x1000_0000 * f.sizeOffset
    requires w1 == f.dataOffset + 0x1_0000 * f.dataSize + 0x1000_0000 * high
    ensures w0 / 0x1_0000 % 0x1000 == f.arraySize && w0 / 0x1000_0000 % 0x10 == f.sizeOffset
    ensures w1 % 0x1_0000 == f.dataOffset && w1 / 0x1_0000 % 0x1000 == f.dataSize && w1 / 0x1000_0000 == high
  {
    var a := 1 + 4 * (f.tag % 0x40) + 0x100 * f.kind;
    Extract(a, f.arraySize, f.sizeOffset, 0x1_0000, 0x1000);
    Extract(a + 0x1_0000 * f.arraySize, f.sizeOffset, 0, 0x1000_0000, 0x10);
    Extract(f.dataOffset, f.dataSize, high, 0x1_0000, 0x1000);
  }

  /**
   What survives packing: a 1-word field is no array, the 2-word packer drops bit 8 of the
   tag, and the 4-word packer cuts the size offset to eight bits.
   */
  predicate Packs(f: FieldInfo) {
    && (f.width == 1 ==> f.arraySize == 1)
    && (f.width == 2 ==> f.tag / 0x100 % 2 == 0)
    && (f.width == 4 ==> 0 <= f.sizeOffset < 0x80)
  }

  /**
   Reading inverts packing exactly for the fields that survive it; those are all with tags
   below 64 and size offsets below 128, arrays in one word aside.
   */
  lemma LoadInvertsPack(f: FieldInfo)
    requires Asserted(f)
    ensures Width(Pack(f)[0]) == f.width
    ensures Loaded(Pack(f), 0) == f <==> Packs(f)
    ensures f.tag < 0x40 && 0 <= f.sizeOffset < 0x80 && (f.width == 1 ==> f.arraySize == 1) ==> Loaded(Pack(f), 0) == f
    ensures Pack(f)[0] / 4 % 0x40 == f.tag % 0x40 && Pack(f)[0] / 0x100 % 0x100 == f.kind
  {
    hide BitOr, Shl, Pack, Pow2, Loaded, Width, Int8;
    if f.width == 1 {
      Load1(f);
    } else if f.width == 2 {
      TagOf2(f.tag);
      Load2(f);
    } else {
      Load4(f);
      Int8Keeps(f.sizeOffset);
    }
  }

  /** Fields that pass the assertions and are not read back: with a tag of 256, and with a size offset of 300. */
  lemma PackingLoses(f: FieldInfo, g: FieldInfo)
    requires Asserted(f) && f.width == 2 && f.tag == 0x100
    requires Asserted(g) && g.width == 4 && g.sizeOffset == 300
    ensures Width(Pack(f)[0]) == 2 && Loaded(Pack(f), 0) != f
    ensures Width(Pack(g)[0]) == 4 && Loaded(Pack(g), 0) == g.(sizeOffset := 44)
  {
    hide BitOr, Shl, Pack, Pow2, Loaded;
    LoadInvertsPack(f);
    Load4(g);
  }

  lemma Int8Keeps(x: int)
    ensures Int8(x) == x && 0 <= x <==> 0 <= x < 0x80
  {
  }

  lemma Load1(f: FieldInfo)
    requires Asserted(f) && f.width == 1
    ensures Width(Pack(f)[0]) == 1 && Loaded(Pack(f), 0) == f.(arraySize := 1)
    ensures Pack(f)[0] / 4 % 0x40 == f.tag && Pack(f)[0] / 0x100 % 0x100 == f.kind
  {
    hide BitOr, Shl, Pack;
    Pack1Is(f);
    FirstWordParts(0, f.tag, f.kind, f.dataOffset + 0x100 * f.sizeOffset + 0x1000 * f.dataSize);
    Parts1(f, Pack(f)[0]);
  }

  lemma TagOf2(tag: nat)
    requires tag < 0x400
    ensures var high := tag / 0x40 % 4 + 8 * (tag / 0x200 % 2);
            && high < 16
            && BitOr(tag % 0x40, Shl(high, 6)) == tag % 0x40 + 0x40 * high < 0x400
            && (tag % 0x40 + 0x40 * high == tag <==> tag / 0x100 % 2 == 0)
  {
    hide BitOr, Pow2, Shl;
    Powers();
    OrAbove(tag % 0x40, tag / 0x40 % 4 + 8 * (tag / 0x200 % 2), 6, 0x40);
    TagBits(tag);
  }

  lemma TagBits(tag: nat)
    requires tag < 0x400
    ensures tag == tag % 0x40 + 0x40 * (tag / 0x40 % 4) + 0x100 * (tag / 0x100 % 2) + 0x200 * (tag / 0x200 % 2)
  {
    var t := tag / 0x40;
    assert tag / 0x100 == t / 4 && tag / 0x200 == t / 8;
    assert t == t % 4 + 4 * (t / 4 % 2) + 8 * (t / 8 % 2);
  }

  lemma Load2(f: FieldInfo)
    requires Asserted(f) && f.width == 2
    ensures var high := f.tag / 0x40 % 4 + 8 * (f.tag / 0x200 % 2);
            && Width(Pack(f)[0]) == 2
            && Loaded(Pack(f), 0) == f.(tag := BitOr(f.tag % 0x40, Shl(high, 6)) % 0x1_0000)
    ensures Pack(f)[0] / 4 % 0x40 == f.tag % 0x40 && Pack(f)[0] / 0x100 % 0x100 == f.kind
  {
    hide BitOr, Shl, Pack;
    Pack2Is(f);
    FirstWordParts(1, f.tag % 0x40, f.kind, f.arraySize + 0x1000 * f.sizeOffset);
    Parts2(f, Pack(f)[0], Pack(f)[1], f.tag / 0x40 % 4 + 8 * (f.tag / 0x200 % 2));
  }

  lemma Load4(f: FieldInfo)
    requires Asserted(f) && f.width == 4
    ensures Width(Pack(f)[0]) == 4 && Loaded(Pack(f), 0) == f.(sizeOffset := Int8(f.sizeOffset))
    ensures Pack(f)[0] / 4 % 0x40 == f.tag % 0x40 && Pack(f)[0] / 0x100 % 0x100 == f.kind
  {
    hide BitOr, Pack, Pow2, Shl;
    Pack4Is(f);
    Powers();
    FirstWordParts(2, f.tag % 0x40, f.kind, f.arraySize);
    Extract(2 + 4 * (f.tag % 0x40) + 0x100 * f.kind, f.arraySize, 0, 0x1_0000, 0x1_0000);
    Extract(0, Int8(f.sizeOffset), f.tag / 0x40, 1, 0x100);
    OrAbove(f.tag % 0x40, f.tag / 0x40, 6, 0x40);
  }

  // ----- descriptors -----

  /** A message descriptor: the packed fields, and the zero that ends the array. */
  ghost function PackAll(fields: seq<FieldInfo>): seq<nat>
    requires forall i :: 0 <= i < |fields| ==> fields[i].width in {1, 2, 4}
  {
    if fields == [] then [0] else Pack(fields[0]) + PackAll(fields[1..])
  }

  /** field_info_index, required_field_index and submessage_index of field i: prefix sums. */
  ghost function WordsBefore(fields: seq<FieldInfo>, i: nat): nat
    requires i <= |fields|
  {
    if i == 0 then 0 else WordsBefore(fields, i - 1) + fields[i - 1].width
  }

  ghost function RequiredBefore(fields: seq<FieldInfo>, i: nat): nat
    requires i <= |fields|
  {
    if i == 0 then 0 else RequiredBefore(fields, i - 1) + if IsRequired(fields[i - 1].kind) then 1 else 0
  }

  ghost function SubmessagesBefore(fields: seq<FieldInfo>, i: nat): nat
    requires i <= |fields|
  {
    if i == 0 then 0 else SubmessagesBefore(fields, i - 1) + if IsSubmessage(fields[i - 1].kind) then 1 else 0
  }

  ghost predicate Packable(fields: seq<FieldInfo>) {
    forall i :: 0 <= i < |fields| ==> Asserted(fields[i]) && Packs(fields[i])
  }

  /** The words of field i stand at its prefix sum. */
  lemma {:induction false} WordsAt(fields: seq<FieldInfo>, i: nat)
    requires Packable(fields) && i < |fields|
    ensures var at := WordsBefore(fields, i);
            && at + fields[i].width < |PackAll(fields)|
            && PackAll(fields)[at..at + fields[i].width] == Pack(fields[i])
    decreases i
  {
    hide Pack, Asserted, Packs;
    forall k | 0 <= k < |fields| ensures fields[k].width in {1, 2, 4} {
      WidthOf(fields[k]);
    }
    if i > 0 {
      var rest := fields[1..];
      WordsAt(rest, i - 1);
      WordsShift(fields, i);
      var at := WordsBefore(rest, i - 1);
      Behind(Pack(fields[0]), PackAll(rest), at, at + fields[i].width);
    } else {
      assert |PackAll(fields[1..])| > 0;
    }
  }

  lemma Behind(a: seq<nat>, b: seq<nat>, from: nat, to: nat)
    requires from <= to <= |b|
    ensures (a + b)[|a| + from..|a| + to] == b[from..to]
  {
  }

  lemma {:induction false} WordsShift(fields: seq<FieldInfo>, i: nat)
    requires 0 < i <= |fields|
    ensures WordsBefore(fields, i) == fields[0].width + WordsBefore(fields[1..], i - 1)
  {
    if i > 1 {
      WordsShift(fields, i - 1);
    }
  }

  /** Reading at the prefix sum gives the field. */
  lemma LoadedAt(fields: seq<FieldInfo>, i: nat)
    requires Packable(fields) && i < |fields|
    ensures var words := PackAll(fields);
            var at := WordsBefore(fields, i);
            && at + fields[i].width < |words| && Width(words[at]) == fields[i].width
            && Loaded(words, at) == fields[i]
            && words[at] / 4 % 0x40 == fields[i].tag % 0x40 && words[at] / 0x100 % 0x100 == fields[i].kind
  {
    hide Pack, BitOr, Pow2, PackAll, Loaded, WordsBefore;
    WidthOf(fields[i]);
    var words := PackAll(fields);
    var at := WordsBefore(fields, i);
    var f := fields[i];
    WordsAt(fields, i);
    LoadInvertsPack(f);
    SameLoad(words, at, Pack(f));
  }

  lemma WidthOf(f: FieldInfo)
    ensures Asserted(f) ==> f.width in {1, 2, 4}
  {
  }

  lemma SameLoad(words: seq<nat>, at: nat, own: seq<nat>)
    requires 0 < |own| == Width(own[0]) <= 4 && at + |own| <= |words| && words[at..at + |own|] == own
    ensures words[at] == own[0] && Loaded(words, at) == Loaded(own, 0)
  {
    var part := words[at..at + |own|];
    assert words[at] == part[0];
    if |own| > 1 {
      assert words[at + 1] == part[1];
    }
    if |own| == 4 {
      assert words[at + 2] == part[2] && words[at + 3] == part[3];
    }
  }

  // ----- the iterator -----

  ghost predicate Wanted(f: FieldInfo, tag: nat) {
    f.tag == tag && LType(f.kind) != LTYPE_EXTENSION
  }

  class FieldIter {
    const words: seq<nat>
    const fieldCount: nat
    ghost const fields: seq<FieldInfo>

    var index: nat
    var fieldInfoIndex: nat
    var requiredFieldIndex: nat
    var submessageIndex: nat
    /** tag, type, array_size, data_size and the offsets, as last loaded. */
    var current: FieldInfo

    /** The descriptor is that of `fields`. */
    ghost predicate Describes() {
      && Packable(fields) && (forall i :: 0 <= i < |fields| ==> fields[i].tag > 0)
      && words == PackAll(fields) && fieldCount == |fields|
    }

    /** The indices are the prefix sums for the field. */
    ghost predicate AtField()
      reads this
    {
      && Describes()
      && if fieldCount == 0 then index == fieldInfoIndex == requiredFieldIndex == submessageIndex == 0
         else index < fieldCount
              && fieldInfoIndex == WordsBefore(fields, index)
              && requiredFieldIndex == RequiredBefore(fields, index)
              && submessageIndex == SubmessagesBefore(fields, index)
    }

    /** And its values are loaded; of an empty message all values are zero. */
    ghost predicate Valid()
      reads this
    {
      AtField() && current == if fieldCount == 0 then FieldInfo(0, 0, 0, 0, 0, 0, 0) else fields[index]
    }

    /** pb_field_iter_begin. */
    constructor (ghost fields: seq<FieldInfo>, words: seq<nat>, fieldCount: nat)
      requires Packable(fields) && (forall i :: 0 <= i < |fields| ==> fields[i].tag > 0)
      requires words == PackAll(fields) && fieldCount == |fields|
      ensures Valid() && this.fields == fields && index == 0
    {
      this.fields, this.words, this.fieldCount := fields, words, fieldCount;
      index, fieldInfoIndex, requiredFieldIndex, submessageIndex := 0, 0, 0, 0;
      current := FieldInfo(0, 0, 0, 0, 0, 0, 0);
      new;
      var ok := LoadDescriptorValues();
    }

    /** load_descriptor_values. */
    method LoadDescriptorValues() returns (ok: bool)
      requires AtField()
      modifies this`current
      ensures ok <==> fieldCount > 0
      ensures ok ==> Valid()
      ensures !ok ==> current == old(current)
    {
      hide PackAll, BitOr, Pow2;
      if index >= fieldCount {
        return false;
      }
      LoadedAt(fields, index);
      var word0 := words[fieldInfoIndex];
      var format := word0 % 4;
      var tag := word0 / 4 % 0x40;
      var kind := word0 / 0x100 % 0x100;
      if format == 0 {
        current := FieldInfo(tag, kind, word0 / 0x1_0000 % 0x100, word0 / 0x1000_0000 % 0x10, word0 / 0x100_0000 % 0x10, 1, 1);
      } else if format == 1 {
        var word1 := words[fieldInfoIndex + 1];
        tag := BitOr(tag, Shl(word1 / 0x1000_0000, 6)) % 0x1_0000;
        current := FieldInfo(tag, kind, word1 % 0x1_0000, word1 / 0x1_0000 % 0x1000, word0 / 0x1000_0000 % 0x10,
          word0 / 0x1_0000 % 0x1000, 2);
      } else {
        var word1 := words[fieldInfoIndex + 1];
        var word2 := words[fieldInfoIndex + 2];
        var word3 := words[fieldInfoIndex + 3];
        tag := BitOr(tag, Shl(word1 / 0x100, 6)) % 0x1_0000;
        current := FieldInfo(tag, kind, word2, word3 % 0x1_0000, Int8(word1), word0 / 0x1_0000 % 0x1_0000, 4);
      }
      ok := true;
    }

    /** advance_iterator. */
    method AdvanceIterator()
      requires AtField()
      modifies this`index, this`fieldInfoIndex, this`requiredFieldIndex, this`submessageIndex
      ensures AtField()
      ensures index == if old(index) + 1 >= fieldCount then 0 else old(index) + 1
    {
      hide PackAll, Loaded, BitOr, Pow2;
      index := index + 1;
      if index >= fieldCount {
        index := 0;
        fieldInfoIndex := 0;
        submessageIndex := 0;
        requiredFieldIndex := 0;
      } else {
        LoadedAt(fields, index - 1);
        var prevDescriptor := words[fieldInfoIndex];
        var prevKind := prevDescriptor / 0x100 % 0x100;
        var descriptorLen := Width(prevDescriptor);
        fieldInfoIndex := fieldInfoIndex + descriptorLen;
        if IsRequired(prevKind) {
          requiredFieldIndex := requiredFieldIndex + 1;
        }
        if IsSubmessage(prevKind) {
          submessageIndex := submessageIndex + 1;
        }
      }
    }

    /** pb_field_iter_next: the next field, or the first one again. */
    method Next() returns (more: bool)
      requires Valid()
      modifies this
      ensures Valid() && index == (if old(index) + 1 >= fieldCount then 0 else old(index) + 1)
      ensures more <==> index != 0
    {
      AdvanceIterator();
      var loaded := LoadDescriptorValues();
      more := index != 0;
    }

    /**
     pb_field_iter_find: it stays where it is if the tag is there already, else finds the
     next field with the tag that is no extension, wherever it starts; if there is none it
     comes back to where it was, after as many steps as there are fields.
     */
    method Find(tag: nat) returns (found: bool)
      requires Valid()
      modifies this
      ensures Valid()
      ensures found <==> old(current.tag) == tag || exists i :: 0 <= i < |fields| && Wanted(fields[i], tag)
      ensures found ==> if fieldCount == 0 then tag == 0 else fields[index].tag == tag
      ensures found && old(current.tag) != tag ==>
                fieldCount > 0 && Wanted(fields[index], tag) && NextWanted(fields, old(index), index, tag)
      ensures old(current.tag) == tag || !found ==> index == old(index)
    {
      hide PackAll, Loaded, BitOr, Pow2, NextWanted, RequiredBefore, SubmessagesBefore, WordsBefore, Width;
      if current.tag == tag {
        return true;
      }
      var start := index;
      ghost var steps := 0;
      var more := true;
      while more
        invariant AtField() && (fieldCount == 0 ==> current == old(current))
        invariant steps <= fieldCount || (fieldCount == 0 && steps <= 1)
        invariant index == if fieldCount == 0 then 0 else At(start, steps, fieldCount)
        invariant more <==> steps == 0 || index != start
        invariant forall k :: 0 < k <= steps && fieldCount > 0 ==> !Wanted(fields[At(start, k, fieldCount)], tag)
        decreases fieldCount + 1 - steps
      {
        AdvanceIterator();
        steps := steps + 1;
        if fieldCount > 0 {
          LoadedAt(fields, index);
        } else {
          EmptyWords();
        }
        var fieldInfo := words[fieldInfoIndex];
        if fieldInfo / 4 % 0x40 == tag % 0x40 {
          var loaded := LoadDescriptorValues();
          if current.tag == tag && LType(current.kind) != LTYPE_EXTENSION {
            FirstMet(fields, start, steps, tag);
            return true;
          }
        }
        more := index != start;
      }
      FullTurn(fields, start, steps, tag);
      var loaded := LoadDescriptorValues();
      found := false;
    }
  }

  /** k steps on from `start` in a circle of n. */
  function At(start: nat, k: nat, n: nat): (i: nat)
    requires start < n && k <= n
    ensures i < n
  {
    if start + k < n then start + k else start + k - n
  }

  /** Of the wanted fields the one at `to` is the first that is met going round from `from`. */
  ghost predicate NextWanted(fields: seq<FieldInfo>, from: nat, to: nat, tag: nat)
    requires from < |fields|
  {
    exists steps :: 0 < steps <= |fields| && At(from, steps, |fields|) == to
      && forall k :: 0 < k < steps ==> !Wanted(fields[At(from, k, |fields|)], tag)
  }

  lemma FirstMet(fields: seq<FieldInfo>, start: nat, steps: nat, tag: nat)
    requires start < |fields| && 0 < steps <= |fields|
    requires forall k :: 0 < k < steps ==> !Wanted(fields[At(start, k, |fields|)], tag)
    ensures NextWanted(fields, start, At(start, steps, |fields|), tag)
  {
  }

  lemma EmptyWords()
    ensures PackAll([]) == [0]
  {
  }

  /** A full turn visits every field. */
  lemma FullTurn(fields: seq<FieldInfo>, start: nat, steps: nat, tag: nat)
    requires |fields| > 0 ==> start < |fields| && 0 < steps <= |fields| && At(start, steps, |fields|) == start
    requires forall k :: 0 < k <= steps && |fields| > 0 ==> k <= |fields| && !Wanted(fields[At(start, k, |fields|)], tag)
    ensures forall i :: 0 <= i < |fields| ==> !Wanted(fields[i], tag)
  {
    forall i | 0 <= i < |fields| ensures !Wanted(fields[i], tag) {
      var k := if i > start then i - start else i + |fields| - start;
      assert At(start, k, |fields|) == i;
    }
  }

  // ----- the decoder's field lookup -----

  /** The words describe the fields of `d`, none of which is an extension. */
  ghost predicate Matches(fields: seq<FieldInfo>, d: M.Descriptor) {
    && |fields| == |d.fields|
    && forall i :: 0 <= i < |fields| ==>
         && fields[i].tag == d.fields[i].tag && LType(fields[i].kind) != LTYPE_EXTENSION
         && (IsRequired(fields[i].kind) <==> d.fields[i].rule.Required?)
  }

  lemma {:induction false} SameRequired(fields: seq<FieldInfo>, d: M.Descriptor, i: nat)
    requires Matches(fields, d) && i <= |fields|
    ensures RequiredBefore(fields, i) == M.RequiredBefore(d.fields, i)
  {
    if i > 0 {
      SameRequired(fields, d, i - 1);
    }
  }

  /** A field of the tag is wanted exactly when the descriptor has one, and it is that one. */
  lemma WantedIsIndexOf(fields: seq<FieldInfo>, d: M.Descriptor, tag: nat)
    requires Matches(fields, d) && M.DescriptorOk(d)
    ensures (exists i :: 0 <= i < |fields| && Wanted(fields[i], tag)) <==> M.IndexOf(d.fields, tag) < |d.fields|
    ensures forall i :: 0 <= i < |fields| && fields[i].tag == tag ==> i == M.IndexOf(d.fields, tag)
  {
    var k := M.IndexOf(d.fields, tag);
    assert k < |fields| ==> Wanted(fields[k], tag);
  }

  /**
   The lookup of pb_decode_inner, from wherever the last one left the iterator: the field's
   index, and the number of required fields before it.
   */
  method LookUp(iter: FieldIter, tag: nat, ghost d: M.Descriptor) returns (found: bool)
    requires iter.Valid() && Matches(iter.fields, d) && M.DescriptorOk(d) && tag > 0
    modifies iter
    ensures iter.Valid()
    ensures found <==> M.IndexOf(d.fields, tag) < |d.fields|
    ensures found ==> iter.index == M.IndexOf(d.fields, tag)
                      && iter.requiredFieldIndex == M.RequiredBefore(d.fields, iter.index)
  {
    hide PackAll, Loaded, M.DescriptorOk, M.IndexOf, M.RequiredBefore, RequiredBefore;
    WantedIsIndexOf(iter.fields, d, tag);
    found := iter.Find(tag);
    SameRequired(iter.fields, d, iter.index);
  }
}
