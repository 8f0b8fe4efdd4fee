/** Input streams (pb_istream_t) and what reads them: bytes, varints, tags, substreams. */
module PbInput {
  import opened Arith
  import opened Basics
  import opened PbBits
  import opened PbVarint
  import M = PbMessage

  lemma {:induction false} Pow2Seven(k: nat)
    ensures Pow2(7 * k) == Pow128(k)
  {
    if k > 0 {
      Pow2Seven(k - 1);
      Pow2Adds(7, 7 * (k - 1));
      assert Pow2(7) == 128;
    }
  }

  lemma {:induction false} TotalAppend(a: seq<Byte>, b: seq<Byte>)
    ensures Total(a + b) == Total(a) + Pow128(|a|) * Total(b)
  {
    if a == [] {
      assert a + b == b;
    } else {
      TotalAppend(a[1..], b);
      assert (a + b)[1..] == a[1..] + b;
      assert 128 * (Pow128(|a| - 1) * Total(b)) == Pow128(|a|) * Total(b);
    }
  }

  lemma {:induction false} TotalBelow(s: seq<Byte>)
    ensures Total(s) < Pow128(|s|)
  {
    if s != [] {
      TotalBelow(s[1..]);
    }
  }

  /** One more group of a varint, in a word of `width` bits. */
  lemma NextGroup(s: seq<Byte>, k: nat, width: nat, result: nat)
    requires k < |s| && 7 * k < width && result == Low(Total(s[..k]), width)
    ensures BitOr(result, Low(Shl(s[k] as nat % 128, 7 * k), width)) == Low(Total(s[..k + 1]), width)
  {
    hide BitOr, Pow2, Pow128, Low, Shl;
    TotalBelow(s[..k]);
    Pow2Seven(k);
    Pow2Grows(7 * k, width);
    LowSmall(Total(s[..k]), width);
    OneMoreGroup(s, k);
    OrShifted(result, s[k] as nat % 128, 7 * k, width);
  }

  lemma OneMoreGroup(s: seq<Byte>, k: nat)
    requires k < |s|
    ensures Total(s[..k + 1]) == Total(s[..k]) + Shl(s[k] as nat % 128, 7 * k)
  {
    hide Pow2, Pow128, Total;
    Pow2Seven(k);
    assert s[..k + 1] == s[..k] + [s[k]];
    TotalAppend(s[..k], [s[k]]);
    OneGroup(s[k]);
  }

  lemma OneGroup(b: Byte)
    ensures Total([b]) == b as nat % 128
  {
    assert Total([b]) == b as nat % 128 + 128 * Total([]);
  }

  lemma Pow2Grows(a: nat, b: nat)
    requires a <= b
    ensures Pow2(a) <= Pow2(b)
  {
    Pow2Adds(b - a, a);
    MulMono(1, Pow2(b - a), Pow2(a));
  }

  /** Groups from the sixth on lie beyond 32 bits. */
  lemma BeyondWord(s: seq<Byte>, k: nat)
    requires 5 <= k <= |s|
    ensures Total(s[..k]) % TWO_32 == Total(s[..5]) % TWO_32
  {
    Pow128Values();
    assert s[..k] == s[..5] + s[5..k];
    TotalAppend(s[..5], s[5..k]);
    ModSum(Total(s[..5]), 8 * Total(s[5..k]), TWO_32);
  }

  lemma Sixteen()
    ensures Pow2(4) == 16
  {
  }

  lemma WordSizes()
    ensures Pow2(32) == TWO_32 && Pow2(64) == TWO_64
  {
    hide Pow2;
    Sixteen();
    Pow2Adds(4, 4);
    Pow2Adds(8, 8);
    Pow2Adds(16, 16);
    Pow2Adds(32, 32);
  }

  class IStream {
    const buffer: array<Byte>
    var state: nat
    var bytesLeft: nat

    ghost predicate Valid()
      reads this
    {
      state + bytesLeft <= buffer.Length
    }

    /** The bytes that can still be read. */
    ghost function Rest(): seq<Byte>
      requires Valid()
      reads this, buffer
    {
      buffer[state..state + bytesLeft]
    }

    /** pb_istream_from_buffer. */
    constructor (buffer: array<Byte>, size: nat)
      requires size <= buffer.Length
      ensures Valid() && this.buffer == buffer && Rest() == buffer[..size] && state + bytesLeft == size
    {
      this.buffer, state, bytesLeft := buffer, 0, size;
    }

    /** A copy of the structure, over the same bytes. */
    constructor Copy(other: IStream)
      requires other.Valid()
      ensures Valid() && buffer == other.buffer && state == other.state && bytesLeft == other.bytesLeft
    {
      buffer, state, bytesLeft := other.buffer, other.state, other.bytesLeft;
    }

    /** pb_read. */
    method Read(count: nat) returns (ok: bool, data: seq<Byte>)
      requires Valid()
      modifies this
      ensures Valid() && state + bytesLeft == old(state + bytesLeft)
      ensures ok <==> count <= |old(Rest())|
      ensures ok ==> data == old(Rest())[..count] && Rest() == old(Rest())[count..]
      ensures !ok ==> Rest() == old(Rest())
    {
      data := [];
      if count == 0 {
        return true, data;
      }
      if bytesLeft < count {
        return false, data;
      }
      data := buffer[state..state + count];
      state := state + count;
      bytesLeft := bytesLeft - count;
      ok := true;
    }

    /** pb_readbyte. */
    method ReadByte() returns (ok: bool, byte: Byte)
      requires Valid()
      modifies this
      ensures Valid() && state + bytesLeft == old(state + bytesLeft)
      ensures ok <==> old(Rest()) != []
      ensures ok ==> byte == old(Rest())[0] && Rest() == old(Rest())[1..]
      ensures !ok ==> Rest() == old(Rest())
    {
      if bytesLeft == 0 {
        return false, 0;
      }
      byte := buffer[state];
      state := state + 1;
      bytesLeft := bytesLeft - 1;
      ok := true;
    }

    /** pb_decode_varint32_eof. */
    method DecodeVarint32Eof() returns (ok: bool, dest: nat, eof: bool)
      requires Valid()
      modifies this
      ensures Valid() && state + bytesLeft == old(state + bytesLeft)
      ensures ok <==> ReadVarint32(old(Rest())).Ok?
      ensures ok ==> ReadVarint32(old(Rest())) == Ok(dest, Rest())
      ensures eof <==> old(Rest()) == []
    {
      hide ReadVarint32, Groups, BitOr, Pow2, Low, Shl;
      ghost var s := Rest();
      dest, eof := 0, false;
      var byte: Byte;
      ok, byte := ReadByte();
      if !ok {
        eof := true;
        NoVarint(s);
        return;
      }
      ghost var k := 1;
      var result: nat;
      if byte < 128 {
        result := byte as nat;
        OneByteVarint(s);
      } else {
        var bitpos := 7;
        result := byte as nat % 128;
        GroupsStart(s);
        var more := true;
        while more
          invariant Valid() && state + bytesLeft == old(state + bytesLeft)
          invariant 1 <= k <= |s| && bitpos == 7 * k && Rest() == s[k..] && byte == s[k - 1] && !eof
          invariant more == (byte >= 128)
          invariant Groups(s, k, result)
          decreases bytesLeft + if more then 1 else 0
        {
          ok, byte := ReadByte();
          if !ok {
            GroupsCut(s, result);
            return false, dest, eof;
          }
          if bitpos >= 32 {
            var signExtension: Byte := if bitpos < 63 then 0xFF else 0x01;
            PaddingGroup(s, k, result);
            if byte as nat % 128 != 0 && (result / 0x8000_0000 == 0 || byte != signExtension) {
              return false, dest, eof;
            }
          } else {
            ValueGroup(s, k, result);
            result := BitOr(result, Low(Shl(byte as nat % 128, bitpos), 32));
          }
          k := k + 1;
          bitpos := bitpos + 7;
          more := byte >= 128;
        }
        GroupsEnd(s, k, result);
        if bitpos == 35 && (byte as nat / 16) % 8 != 0 {
          return false, dest, eof;
        }
      }
      dest := result;
      ok := true;
    }

    /** pb_decode_varint. */
    method DecodeVarint() returns (ok: bool, dest: nat)
      requires Valid()
      modifies this
      ensures Valid() && state + bytesLeft == old(state + bytesLeft)
      ensures ok <==> ReadVarint(old(Rest())).Ok?
      ensures ok ==> ReadVarint(old(Rest())) == Ok(dest, Rest())
    {
      hide Total, Extent, BitOr, Pow2, Low, Shl, ReadVarint;
      ghost var s := Rest();
      ghost var k := 0;
      dest := 0;
      var bitpos := 0;
      var result: nat := 0;
      var more := true;
      NoGroups(s);
      while more
        invariant Valid() && state + bytesLeft == old(state + bytesLeft)
        invariant 0 <= k <= |s| && k <= 10 && bitpos == 7 * k && Rest() == s[k..]
        invariant forall j :: 0 <= j < k - 1 ==> s[j] >= 128
        invariant more == (k == 0 || s[k - 1] >= 128)
        invariant result == Low(Total(s[..k]), 64)
        decreases bytesLeft + if more then 1 else 0
      {
        if bitpos >= 64 {
          Unterminated10(s, k);
          return false, dest;
        }
        var byte: Byte;
        ok, byte := ReadByte();
        if !ok {
          Unterminated(s, k);
          return false, dest;
        }
        NextGroup(s, k, 64, result);
        result := BitOr(result, Low(Shl(byte as nat % 128, bitpos), 64));
        k := k + 1;
        bitpos := bitpos + 7;
        more := byte >= 128;
      }
      ExtentIs(s, k);
      Accepted64(s, k, result);
      dest := result;
      ok := true;
    }

    /** pb_skip_varint. */
    method SkipVarint() returns (ok: bool)
      requires Valid()
      modifies this
      ensures Valid() && state + bytesLeft == old(state + bytesLeft)
      ensures ok <==> Extent(old(Rest())) > 0
      ensures ok ==> Rest() == old(Rest())[Extent(old(Rest()))..]
    {
      hide Extent;
      ghost var s := Rest();
      ghost var k := 0;
      var more := true;
      while more
        invariant Valid() && state + bytesLeft == old(state + bytesLeft)
        invariant 0 <= k <= |s| && Rest() == s[k..]
        invariant forall j :: 0 <= j < k - 1 ==> s[j] >= 128
        invariant more == (k == 0 || s[k - 1] >= 128)
        decreases bytesLeft + if more then 1 else 0
      {
        var data;
        ok, data := Read(1);
        if !ok {
          Unterminated(s, k);
          return false;
        }
        k := k + 1;
        more := data[0] >= 128;
      }
      ExtentIs(s, k);
      ok := true;
    }

    /** pb_decode_varint32. */
    method DecodeVarint32() returns (ok: bool, dest: nat)
      requires Valid()
      modifies this
      ensures Valid() && state + bytesLeft == old(state + bytesLeft)
      ensures ok <==> ReadVarint32(old(Rest())).Ok?
      ensures ok ==> ReadVarint32(old(Rest())) == Ok(dest, Rest())
    {
      var eof;
      ok, dest, eof := DecodeVarint32Eof();
    }

    /** pb_skip_string. */
    method SkipString() returns (ok: bool)
      requires Valid()
      modifies this
      ensures Valid() && state + bytesLeft == old(state + bytesLeft)
      ensures ok <==> M.ReadDelimited(old(Rest())).Ok?
      ensures ok ==> Rest() == M.ReadDelimited(old(Rest())).rest
    {
      hide ReadVarint32;
      var length;
      ok, length := DecodeVarint32();
      if !ok {
        return;
      }
      var data;
      ok, data := Read(length);
    }

    /** pb_decode_tag. */
    method DecodeTag() returns (ok: bool, tag: nat, wire: nat, eof: bool)
      requires Valid()
      modifies this
      ensures Valid() && state + bytesLeft == old(state + bytesLeft)
      ensures ok <==> ReadVarint32(old(Rest())).Ok?
      ensures ok ==> ReadVarint32(old(Rest())) == Ok(8 * tag + wire, Rest()) && wire < 8
      ensures eof <==> old(Rest()) == []
    {
      hide ReadVarint32;
      tag, wire := 0, 0;
      var temp;
      ok, temp, eof := DecodeVarint32Eof();
      if ok {
        tag, wire := temp / 8, temp % 8;
      }
    }

    /** pb_skip_field. */
    method SkipField(wire: nat) returns (ok: bool)
      requires Valid()
      modifies this
      ensures Valid() && state + bytesLeft == old(state + bytesLeft)
      ensures ok <==> M.Skip(wire, old(Rest())).Some?
      ensures ok ==> M.Skip(wire, old(Rest())) == Some(Rest())
    {
      hide Extent, M.ReadDelimited;
      if wire == M.WT_VARINT {
        ok := SkipVarint();
      } else if wire == M.WT_64BIT {
        var data;
        ok, data := Read(8);
      } else if wire == M.WT_STRING {
        ok := SkipString();
      } else if wire == M.WT_32BIT {
        var data;
        ok, data := Read(4);
      } else {
        ok := false;
      }
    }

    /** pb_make_string_substream: the bytes are taken off this stream's count, but its position stays. */
    method MakeStringSubstream() returns (ok: bool, sub: IStream)
      requires Valid()
      modifies this
      ensures Valid() && sub.Valid() && fresh(sub) && sub.buffer == buffer
      ensures ok <==> M.ReadDelimited(old(Rest())).Ok?
      ensures !ok ==> state + bytesLeft == old(state + bytesLeft)
      ensures ok ==> sub.state == state && sub.Rest() == M.ReadDelimited(old(Rest())).value
      ensures ok ==> var end := sub.state + sub.bytesLeft;
                     && end + bytesLeft == old(state + bytesLeft)
                     && buffer[end..end + bytesLeft] == M.ReadDelimited(old(Rest())).rest
    {
      hide ReadVarint32;
      var size;
      ok, size := DecodeVarint32();
      ghost var rest := Rest();
      sub := new IStream.Copy(this);
      if !ok {
        return;
      }
      if sub.bytesLeft < size {
        return false, sub;
      }
      assert M.ReadDelimited(old(Rest())) == Ok(rest[..size], rest[size..]);
      sub.bytesLeft := size;
      bytesLeft := bytesLeft - size;
      Cut(buffer[..], state, size, size + bytesLeft);
    }

    /** pb_close_string_substream: what the substream has left is skipped. */
    method CloseStringSubstream(sub: IStream) returns (ok: bool)
      requires Valid() && sub.Valid() && sub != this && sub.buffer == buffer
      requires sub.state + sub.bytesLeft + bytesLeft <= buffer.Length
      modifies this, sub
      ensures ok && Valid() && bytesLeft == old(bytesLeft) && state == old(sub.state + sub.bytesLeft)
    {
      if sub.bytesLeft > 0 {
        var data;
        ok, data := sub.Read(sub.bytesLeft);
        if !ok {
          return;
        }
      }
      state := sub.state;
      ok := true;
    }
  }

  /** The two parts of a slice. */
  lemma Cut(s: seq<Byte>, at: nat, size: nat, n: nat)
    requires size <= n && at + n <= |s|
    ensures s[at..at + n][..size] == s[at..at + size] && s[at..at + n][size..] == s[at + size..at + n]
  {
  }

  lemma NoVarint(s: seq<Byte>)
    requires s == []
    ensures ReadVarint32(s) == Fail
  {
  }

  lemma NoGroups(s: seq<Byte>)
    ensures s[..0] == [] && Low(Total(s[..0]), 64) == 0
  {
  }

  lemma OneByteVarint(s: seq<Byte>)
    requires s != [] && s[0] < 128
    ensures ReadVarint32(s) == Ok(s[0] as nat, s[1..])
  {
    FirstGroup(s);
    assert Extent(s) == 1;
  }

  lemma FirstGroup(s: seq<Byte>)
    requires s != []
    ensures Low(Total(s[..1]), 32) == s[0] as nat % 128 == Total(s[..1])
  {
    WordSizes();
    assert s[..1][1..] == [];
  }

  /** The 32-bit decoder has taken k groups: five for the value, and padding behind them. */
  ghost predicate Groups(s: seq<Byte>, k: nat, result: nat) {
    && 1 <= k <= |s|
    && (forall j :: 0 <= j < k - 1 ==> s[j] >= 128)
    && result == Low(Total(s[..if k < 5 then k else 5]), 32)
    && forall j :: 5 <= j < k ==> Padding(result, s[j], j)
  }

  lemma GroupsStart(s: seq<Byte>)
    requires s != []
    ensures Groups(s, 1, s[0] as nat % 128)
  {
    FirstGroup(s);
  }

  lemma GroupsCut(s: seq<Byte>, result: nat)
    requires Groups(s, |s|, result) && s[|s| - 1] >= 128
    ensures ReadVarint32(s) == Fail
  {
    hide ReadVarint32, Padding, Low, Total;
    Unterminated(s, |s|);
  }

  lemma ValueGroup(s: seq<Byte>, k: nat, result: nat)
    requires Groups(s, k, result) && s[k - 1] >= 128 && k < |s| && k < 5
    ensures Groups(s, k + 1, BitOr(result, Low(Shl(s[k] as nat % 128, 7 * k), 32)))
  {
    hide Total, BitOr, Padding, Pow2, Low, Shl;
    NextGroup(s, k, 32, result);
  }

  lemma PaddingGroup(s: seq<Byte>, k: nat, result: nat)
    requires Groups(s, k, result) && s[k - 1] >= 128 && k < |s| && 5 <= k
    ensures if s[k] as nat % 128 != 0 && (result / 0x8000_0000 == 0 || s[k] != if 7 * k < 63 then 0xFF else 0x01)
            then ReadVarint32(s) == Fail else Groups(s, k + 1, result)
  {
    hide Total, Padding, Low, ReadVarint32;
    WordBound(Total(s[..5]));
    PaddingByte(result, s[k], k);
    if !Padding(result, s[k], k) {
      BadPadding(s, k, result);
    }
  }

  lemma GroupsEnd(s: seq<Byte>, k: nat, result: nat)
    requires Groups(s, k, result) && s[k - 1] < 128 && 1 < k
    ensures ReadVarint32(s) == if k == 5 && (s[4] as nat / 16) % 8 != 0 then Fail else Ok(result, s[k..])
  {
    hide Total, Padding, Low, ReadVarint32, Extent;
    ExtentIs(s, k);
    if k == 5 && (s[4] as nat / 16) % 8 != 0 {
      FifthTooLarge(s);
    } else {
      Accepted(s, k, result);
    }
  }

  lemma Unterminated(s: seq<Byte>, k: nat)
    requires k == |s| && forall j :: 0 <= j < k - 1 ==> s[j] >= 128
    requires k == 0 || s[k - 1] >= 128
    ensures Extent(s) == 0 && ReadVarint32(s) == Fail && ReadVarint(s) == Fail
  {
    ExtentMeans(s);
  }

  lemma Unterminated10(s: seq<Byte>, k: nat)
    requires k == 10 <= |s| && s[9] >= 128 && forall j :: 0 <= j < 9 ==> s[j] >= 128
    ensures ReadVarint(s) == Fail
  {
    ExtentMeans(s);
  }

  /** The decoder's test of a byte beyond 32 bits. */
  lemma PaddingByte(r: nat, b: Byte, k: nat)
    requires r < TWO_32
    ensures Padding(r, b, k) <==>
              !(b as nat % 128 != 0 && (r / 0x8000_0000 == 0 || b != if 7 * k < 63 then 0xFF else 0x01))
  {
  }

  lemma BadPadding(s: seq<Byte>, k: nat, result: nat)
    requires 5 <= k < |s| && forall j :: 0 <= j < k ==> s[j] >= 128
    requires result == Low(Total(s[..5]), 32) && !Padding(result, s[k], k)
    ensures ReadVarint32(s) == Fail
  {
    hide Padding, Pow2;
    WordSizes();
    ExtentMeans(s);
    var n := Extent(s);
    if n > 0 {
      assert k < n;
      BeyondWord(s, n);
    }
  }

  lemma FifthTooLarge(s: seq<Byte>)
    requires Extent(s) == 5 && (s[4] as nat / 16) % 8 != 0
    ensures ReadVarint32(s) == Fail
  {
  }

  lemma Accepted(s: seq<Byte>, n: nat, result: nat)
    requires 1 < n <= |s| && Extent(s) == n && result == Low(Total(s[..if n < 5 then n else 5]), 32)
    requires forall j :: 5 <= j < n ==> Padding(result, s[j], j)
    requires n == 5 ==> (s[4] as nat / 16) % 8 == 0
    ensures ReadVarint32(s) == Ok(result, s[n..])
  {
    hide Padding, Pow2;
    WordSizes();
    ExtentMeans(s);
    if n >= 5 {
      BeyondWord(s, n);
    }
  }

  lemma WordBound(total: nat)
    ensures Low(total, 32) < TWO_32
  {
    WordSizes();
  }

  lemma Accepted64(s: seq<Byte>, n: nat, result: nat)
    requires 0 < n <= |s| && n <= 10 && Extent(s) == n && result == Low(Total(s[..n]), 64)
    ensures ReadVarint(s) == Ok(result, s[n..])
  {
    WordSizes();
  }
}
