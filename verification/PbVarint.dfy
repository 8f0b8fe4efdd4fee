/** Base 128 varints (pb_encode.c, pb_decode.c; "Base 128 Varints" and "Signed Integers" of the encoding specification). */
module PbVarint {
  import opened Arith
  import opened Basics
  import opened PbBits

  /** The shortest base 128 form of v, least significant group first. */
  function Varint(v: nat): (s: seq<Byte>)
    ensures |s| > 0
  {
    if v < 128 then [v] else [128 + v % 128] + Varint(v / 128)
  }

  /** The number of bytes up to and with the first one whose top bit is clear; 0 when there is none. */
  function Extent(s: seq<Byte>): (n: nat)
    ensures n <= |s|
  {
    if s == [] then 0
    else if s[0] < 128 then 1
    else if Extent(s[1..]) == 0 then 0
    else Extent(s[1..]) + 1
  }

  /** What the low seven bits of the bytes add up to. */
  function Total(s: seq<Byte>): nat {
    if s == [] then 0 else s[0] as nat % 128 + 128 * Total(s[1..])
  }

  function Pow128(k: nat): (p: nat)
    ensures p > 0
  {
    if k == 0 then 1 else 128 * Pow128(k - 1)
  }

  /** pb_decode_varint. */
  ghost function ReadVarint(s: seq<Byte>): Parsed<nat> {
    var n := Extent(s);
    if n == 0 || n > 10 then Fail else Ok(Total(s[..n]) % TWO_64, s[n..])
  }

  /** A byte behind the fifth of a 32-bit varint: nothing, or the sign of the first 32 bits. */
  predicate Padding(r: nat, b: Byte, k: nat) {
    b as nat % 128 == 0 || (r >= 0x8000_0000 && b == if k < 9 then 0xFF else 0x01)
  }

  /** pb_decode_varint32. */
  ghost function ReadVarint32(s: seq<Byte>): Parsed<nat> {
    var n := Extent(s);
    if n == 0 then Fail else
      var r := Total(s[..n]) % TWO_32;
      if n == 5 && s[4] >= 16 then Fail
      else if exists k :: 5 <= k < n && !Padding(r, s[k], k) then Fail
      else Ok(r, s[n..])
  }

  // ----- extents -----

  lemma {:induction false} ExtentMeans(s: seq<Byte>)
    ensures var n := Extent(s);
            if n == 0 then forall k :: 0 <= k < |s| ==> s[k] >= 128
            else s[n - 1] < 128 && forall k :: 0 <= k < n - 1 ==> s[k] >= 128
  {
    if s != [] && s[0] >= 128 {
      ExtentMeans(s[1..]);
      var n := Extent(s[1..]);
      forall k | 0 <= k < |s| && (n == 0 || k < n)
        ensures s[k] >= 128
      {
        if k > 0 {
          assert s[k] == s[1..][k - 1];
        }
      }
    }
  }

  lemma ExtentIs(s: seq<Byte>, n: nat)
    requires 0 < n <= |s| && s[n - 1] < 128 && forall k :: 0 <= k < n - 1 ==> s[k] >= 128
    ensures Extent(s) == n
  {
    ExtentMeans(s);
  }

  /** The bytes behind a varint play no part. */
  lemma ExtentStays(s: seq<Byte>, t: seq<Byte>)
    requires Extent(s) > 0
    ensures Extent(s + t) == Extent(s) && (s + t)[..Extent(s)] == s[..Extent(s)]
    ensures (s + t)[Extent(s)..] == s[Extent(s)..] + t
  {
    ExtentMeans(s);
    ExtentIs(s + t, Extent(s));
  }

  lemma ReadVarintStays(s: seq<Byte>, t: seq<Byte>)
    requires ReadVarint(s).Ok?
    ensures ReadVarint(s + t) == Ok(ReadVarint(s).value, ReadVarint(s).rest + t)
  {
    ExtentStays(s, t);
  }

  lemma ReadVarint32Stays(s: seq<Byte>, t: seq<Byte>)
    requires ReadVarint32(s).Ok?
    ensures ReadVarint32(s + t) == Ok(ReadVarint32(s).value, ReadVarint32(s).rest + t)
  {
    ExtentStays(s, t);
    var n := Extent(s);
    assert forall k :: 0 <= k < n ==> (s + t)[k] == s[k];
  }

  // ----- the round trip -----

  /** Encoding is inverted in front of any bytes. */
  lemma {:induction false} VarintExtent(v: nat, t: seq<Byte>)
    ensures Extent(Varint(v) + t) == |Varint(v)|
    ensures Total(Varint(v)) == v
    ensures (Varint(v) + t)[..|Varint(v)|] == Varint(v) && (Varint(v) + t)[|Varint(v)|..] == t
  {
    if v >= 128 {
      VarintExtent(v / 128, t);
      assert (Varint(v) + t)[1..] == Varint(v / 128) + t;
      assert Varint(v)[1..] == Varint(v / 128);
    }
  }

  /** The form has k bytes exactly from 128^(k-1) on and below 128^k. */
  lemma {:induction false} VarintLength(v: nat, k: nat)
    requires k > 0
    ensures |Varint(v)| <= k <==> v < Pow128(k)
    decreases k
  {
    assert Pow128(1) == 128 by { assert Pow128(0) == 1; }
    if v < 128 {
      Pow128Grows(k);
    } else if k > 1 {
      VarintLength(v / 128, k - 1);
      assert Pow128(k) == 128 * Pow128(k - 1);
    }
  }

  lemma {:induction false} Pow128Grows(k: nat)
    requires k > 0
    ensures Pow128(k) >= 128
  {
    if k > 1 {
      Pow128Grows(k - 1);
    }
  }

  lemma Pow128Values()
    ensures Pow128(1) == 0x80 && Pow128(2) == 0x4000 && Pow128(3) == 0x20_0000
    ensures Pow128(4) == 0x1000_0000 && Pow128(5) == 0x8_0000_0000 && Pow128(9) == 0x8000_0000_0000_0000
    ensures Pow128(10) == 0x40_0000_0000_0000_0000
  {
    assert Pow128(0) == 1;
    assert Pow128(1) == 128 && Pow128(2) == 128 * 128 && Pow128(3) == 128 * Pow128(2);
    assert Pow128(4) == 128 * Pow128(3) && Pow128(5) == 128 * Pow128(4) && Pow128(6) == 128 * Pow128(5);
    assert Pow128(7) == 128 * Pow128(6) && Pow128(8) == 128 * Pow128(7) && Pow128(9) == 128 * Pow128(8);
    assert Pow128(10) == 128 * Pow128(9);
  }

  /** A 64-bit number takes at most ten bytes, and pb_decode_varint reads it back before any suffix. */
  lemma VarintRoundTrip(v: nat, t: seq<Byte>)
    requires v < TWO_64
    ensures |Varint(v)| <= 10
    ensures ReadVarint(Varint(v) + t) == Ok(v, t)
  {
    Pow128Values();
    VarintLength(v, 10);
    VarintExtent(v, t);
  }

  /** No shorter run of bytes means the same number. */
  lemma {:induction false} VarintIsShortest(s: seq<Byte>)
    requires s != []
    ensures |Varint(Total(s))| <= |s|
  {
    if |s| == 1 {
      assert Total(s[1..]) == 0;
    } else {
      VarintIsShortest(s[1..]);
      var v := Total(s);
      if v >= 128 {
        assert v / 128 == Total(s[1..]);
      }
    }
  }

  /** Byte k of the form of v. */
  lemma {:induction false} VarintByte(v: nat, k: nat)
    requires k < |Varint(v)|
    ensures Varint(v)[k] as nat == (v / Pow128(k)) % 128 + (if k == |Varint(v)| - 1 then 0 else 128)
    ensures v / Pow128(k) >= 1 || v == 0
  {
    if k > 0 {
      VarintByte(v / 128, k - 1);
      DivDiv(v, Pow128(k - 1));
      assert Varint(v)[k] == Varint(v / 128)[k - 1];
    }
  }

  lemma DivDiv(v: nat, p: nat)
    requires p > 0
    ensures v / 128 / p == v / (128 * p)
  {
    var q := v / 128 / p;
    var r := (v / 128) % p;
    assert v / 128 == q * p + r;
    assert v == q * (128 * p) + (128 * r + v % 128);
    ModUnique(q, 128 * p, 128 * r + v % 128);
  }

  /** pb_decode_varint32 reads every 32-bit number back. */
  lemma Varint32RoundTrip(v: nat, t: seq<Byte>)
    requires v < TWO_32
    ensures ReadVarint32(Varint(v) + t) == Ok(v, t)
  {
    Pow128Values();
    VarintExtent(v, t);
    VarintLength(v, 5);
    if |Varint(v)| == 5 {
      VarintByte(v, 4);
      assert Varint(v)[4] < 16;
    }
  }

  /** Group k of v: bits 7k and up. */
  function Group(v: nat, k: nat): nat {
    (v / Pow128(k)) % 128
  }

  /** The larger numbers that it takes for negative 32-bit ones: bit 31 is set and groups 5 to 8 are all ones or all zeros. */
  ghost predicate LooksNegative(v: nat) {
    v % TWO_32 >= 0x8000_0000 && forall k :: 5 <= k < 9 ==> Group(v, k) == 0 || Group(v, k) == 127
  }

  /** It refuses what does not fit in 63 bits unless it looks like a negative number, of which it keeps 32 bits. */
  lemma Varint32Overflows(v: nat, t: seq<Byte>)
    requires TWO_32 <= v < TWO_64
    ensures v < 0x8000_0000_0000_0000 ==> ReadVarint32(Varint(v) + t) == Fail
    ensures v >= 0x8000_0000_0000_0000 ==>
              ReadVarint32(Varint(v) + t) == if LooksNegative(v) then Ok(v % TWO_32, t) else Fail
  {
    hide Total, Group, Varint, Pow128, Extent;
    Pow128Values();
    var s := Varint(v) + t;
    var n := |Varint(v)|;
    VarintExtent(v, t);
    VarintLength(v, 4);
    VarintLength(v, 9);
    VarintLength(v, 10);
    TopGroup(v, n);
    forall k | 0 <= k < n ensures s[k] as nat == Group(v, k) + if k == n - 1 then 0 else 128 {
      GroupByte(v, k);
    }
    if n == 5 {
      TopBits(v);
    } else if n < 10 {
      assert !Padding(v % TWO_32, s[n - 1], n - 1);
    } else {
      TenthGroup(v);
      assert s[9] == 1;
      assert forall k :: 5 <= k < 9 ==> s[k] as nat == Group(v, k) + 128;
    }
  }

  lemma GroupByte(v: nat, k: nat)
    requires k < |Varint(v)|
    ensures Varint(v)[k] as nat == Group(v, k) + (if k == |Varint(v)| - 1 then 0 else 128)
  {
    VarintByte(v, k);
  }

  /** Five groups hold 35 bits: three too many. */
  lemma TopBits(v: nat)
    requires v >= TWO_32 && |Varint(v)| == 5
    ensures Group(v, 4) >= 16
  {
    Pow128Values();
    VarintLength(v, 5);
  }

  lemma TenthGroup(v: nat)
    requires 0x8000_0000_0000_0000 <= v < TWO_64
    ensures Group(v, 9) == 1
  {
    Pow128Values();
  }

  /** The last group of the shortest form is not zero. */
  lemma TopGroup(v: nat, n: nat)
    requires v > 0 && n == |Varint(v)|
    ensures 1 <= Group(v, n - 1) < 128
  {
    VarintByte(v, n - 1);
    VarintLength(v, n);
    assert Pow128(n) == 128 * Pow128(n - 1);
    DivBelow(v, Pow128(n - 1), 128);
  }

  lemma DivBelow(v: nat, p: nat, m: nat)
    requires p > 0 && v < m * p
    ensures v / p < m
  {
    assert (v / p) * p <= v;
    if v / p >= m {
      MulMono(m, v / p, p);
    }
  }

  // ----- zigzag -----

  /** The numbers of an int64_t. */
  ghost predicate Signed(n: int) {
    -0x8000_0000_0000_0000 <= n < 0x8000_0000_0000_0000
  }

  /** The two's complement pattern of a signed number. */
  function Pattern(n: int): nat
    requires n + TWO_64 >= 0
  {
    if n < 0 then n + TWO_64 else n
  }

  /** pb_encode_svarint's mapping, in 64-bit arithmetic. */
  function ZigZag(n: int): nat
    requires Signed(n)
  {
    if n < 0 then TWO_64 - 1 - (Pattern(n) * 2) % TWO_64 else (Pattern(n) * 2) % TWO_64
  }

  /** pb_decode_svarint's mapping. */
  function UnZigZag(v: nat): int
    requires v < TWO_64
  {
    if v % 2 == 1 then (TWO_64 - 1 - v / 2) - TWO_64 else v / 2
  }

  /** Small magnitudes get small codes, and the mapping is a bijection. */
  lemma ZigZagBijection(n: int, v: nat)
    requires Signed(n) && v < TWO_64
    ensures ZigZag(n) == if n < 0 then -2 * n - 1 else 2 * n
    ensures ZigZag(n) < TWO_64 && UnZigZag(ZigZag(n)) == n
    ensures Signed(UnZigZag(v)) && ZigZag(UnZigZag(v)) == v
  {
  }

  // ----- the encoder's loop -----

  /** 2^(25-7i): what `high` still counts after i bytes were taken from `low`. */
  function Room(i: nat): nat {
    if i == 0 then 0x200_0000 else if i == 1 then 0x4_0000 else if i == 2 then 0x800 else 0x10
  }

  /** What is not in the buffer yet, in the loop over `low`. */
  ghost predicate LowLeft(i: nat, byte: nat, low: nat, high: nat, rem: nat) {
    && (i < 4 ==> byte < 128 && low < Room(i) && rem == byte + 128 * (low + high * Room(i)))
    && (i >= 4 ==> byte < 16 && low == 0 && rem == byte + 16 * high)
  }

  lemma LowStep(i: nat, byte: nat, low: nat, high: nat, rem: nat)
    requires i < 4 && LowLeft(i, byte, low, high, rem) && (low != 0 || high != 0)
    ensures rem >= 128 && rem % 128 == byte < 128
    ensures LowLeft(i + 1, low % 128, low / 128, high, rem / 128)
  {
    var q := low + high * Room(i);
    assert high != 0 ==> high * Room(i) >= 1;
    assert rem / 128 == q && rem % 128 == byte;
    if i < 3 {
      assert Room(i) == 128 * Room(i + 1);
      assert high * Room(i) == 128 * (high * Room(i + 1));
    }
  }

  /** What is not in the buffer yet, in the loop over `high`. */
  ghost predicate HighLeft(i: nat, byte: nat, high: nat, rem: nat) {
    && 4 <= i <= 9 && byte < 128 && rem == byte + 128 * high
    && high < (if i == 4 then 0x2000_0000 else if i == 5 then 0x40_0000 else if i == 6 then 0x8000
               else if i == 7 then 0x100 else if i == 8 then 2 else 1)
  }

  lemma HighStep(i: nat, byte: nat, high: nat, rem: nat)
    requires HighLeft(i, byte, high, rem) && high != 0
    ensures rem >= 128 && rem % 128 == byte < 128 && i < 9
    ensures HighLeft(i + 1, high % 128, high / 128, rem / 128)
  {
  }

  /** The fifth byte gets its upper three bits from `high`. */
  lemma LastOfLow(byte: nat, low: nat, high: nat, rem: nat)
    requires LowLeft(4, byte, low, high, rem) && high < TWO_32
    ensures HighLeft(4, BitOr(byte, (high % 8) * 16), high / 8, rem)
  {
    assert Pow2(4) == 16;
    OrDisjoint(byte, high % 8, 4);
  }

  lemma Start(low: nat, high: nat)
    requires low < TWO_32
    ensures LowLeft(0, low % 128, low / 128, high, low + high * TWO_32)
  {
  }

  lemma LastByte(i: nat, byte: nat, low: nat, rem: nat)
    requires LowLeft(i, byte, low, 0, rem) && (i >= 4 || low == 0)
    ensures rem == byte < 128
  {
  }

  lemma PushByte(v: nat, done: seq<Byte>, rem: nat, byte: Byte, next: seq<Byte>)
    requires Varint(v) == done + Varint(rem) && rem >= 128 && byte as nat == rem % 128 + 128
    requires next == done + [byte]
    ensures Varint(v) == next + Varint(rem / 128)
  {
    assert Varint(rem) == [byte] + Varint(rem / 128);
  }

  /** pb_encode_varint_32, up to its call of pb_write. */
  method EncodeVarint32(low0: nat, high0: nat) returns (bytes: seq<Byte>)
    requires low0 < TWO_32 && high0 < TWO_32
    ensures bytes == Varint(low0 + high0 * TWO_32)
  {
    hide Varint, LowLeft, HighLeft, BitOr, Room;
    ghost var v := low0 + high0 * TWO_32;
    ghost var rem: nat := v;
    var low: nat, high: nat := low0, high0;
    var buffer := new Byte[10];
    var i := 0;
    var byte: nat := low % 128;
    low := low / 128;
    Start(low0, high0);
    while i < 4 && (low != 0 || high != 0)
      invariant i <= 4 && high == high0 && LowLeft(i, byte, low, high, rem)
      invariant Varint(v) == buffer[..i] + Varint(rem)
      decreases 4 - i
    {
      LowStep(i, byte, low, high, rem);
      Continued(byte);
      ghost var done := buffer[..i];
      buffer[i] := BitOr(byte, 0x80);
      PushByte(v, done, rem, buffer[i], buffer[..i + 1]);
      i := i + 1;
      byte := low % 128;
      low := low / 128;
      rem := rem / 128;
    }
    if high != 0 {
      LastOfLow(byte, low, high, rem);
      byte := BitOr(byte, (high % 8) * 16);
      high := high / 8;
      while high != 0
        invariant HighLeft(i, byte, high, rem) && 4 <= i <= 9
        invariant Varint(v) == buffer[..i] + Varint(rem)
        decreases high
      {
        HighStep(i, byte, high, rem);
        Continued(byte);
        ghost var done := buffer[..i];
        buffer[i] := BitOr(byte, 0x80);
        PushByte(v, done, rem, buffer[i], buffer[..i + 1]);
        i := i + 1;
        byte := high % 128;
        high := high / 128;
        rem := rem / 128;
      }
      NothingHigh(i, byte, rem);
    } else {
      LastByte(i, byte, low, rem);
    }
    OneByte(byte);
    ghost var done := buffer[..i];
    buffer[i] := byte;
    i := i + 1;
    bytes := buffer[..i];
    assert bytes == done + [byte];
  }

  lemma NothingHigh(i: nat, byte: nat, rem: nat)
    requires HighLeft(i, byte, 0, rem)
    ensures rem == byte < 128
  {
  }

  lemma OneByte(b: nat)
    requires b < 128
    ensures Varint(b) == [b]
  {
  }
}
