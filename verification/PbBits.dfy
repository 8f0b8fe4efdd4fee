/** Bytes, parse results, and the bit operations of the nanopb codec on natural numbers. */
module PbBits {
  import opened Arith
  import opened Basics

  const TWO_32: nat := 0x1_0000_0000
  const TWO_64: nat := 0x1_0000_0000_0000_0000

  /** What a decoder makes of a stream: a value and the bytes behind it. */
  datatype Parsed<T> = Ok(value: T, rest: seq<Byte>) | Fail

  /** 1 << k. */
  function Pow2(k: nat): (p: nat)
    ensures p > 0
  {
    if k == 0 then 1 else 2 * Pow2(k - 1)
  }

  /** a | b. */
  function BitOr(a: nat, b: nat): nat {
    if a == 0 then b else (if a % 2 == 1 || b % 2 == 1 then 1 else 0) + 2 * BitOr(a / 2, b / 2)
  }

  /** a << k. */
  function Shl(a: nat, k: nat): nat {
    a * Pow2(k)
  }

  /** What a word of `width` bits keeps of a. */
  function Low(a: nat, width: nat): nat {
    a % Pow2(width)
  }

  /** Bit k of a. */
  predicate Bit(a: nat, k: nat) {
    if k == 0 then a % 2 == 1 else Bit(a / 2, k - 1)
  }

  lemma {:induction false} OrZero(a: nat)
    ensures BitOr(a, 0) == a
  {
    if a != 0 {
      OrZero(a / 2);
    }
  }

  /** Numbers without a common bit are or-ed by adding them. */
  lemma {:induction false} OrDisjoint(a: nat, b: nat, k: nat)
    requires a < Pow2(k)
    ensures BitOr(a, b * Pow2(k)) == a + b * Pow2(k)
  {
    if a != 0 {
      var h := b * Pow2(k - 1);
      assert b * Pow2(k) == 2 * h by {
        assert Pow2(k) == 2 * Pow2(k - 1);
      }
      OrDisjoint(a / 2, b, k - 1);
    }
  }

  lemma Doubled(p: nat, q: nat)
    ensures (2 * p) * q == 2 * (p * q)
  {
  }

  lemma {:induction false} Pow2Adds(a: nat, b: nat)
    ensures Pow2(a + b) == Pow2(a) * Pow2(b)
  {
    if a > 0 {
      Pow2Adds(a - 1, b);
      Doubled(Pow2(a - 1), Pow2(b));
    }
  }

  /** byte | 0x80. */
  lemma Continued(b: nat)
    requires b < 128
    ensures BitOr(b, 0x80) == b + 128
  {
    assert Pow2(7) == 128;
    OrDisjoint(b, 1, 7);
  }

  /** a % p of a sum whose second part is a multiple. */
  lemma ModSum(a: nat, m: nat, p: nat)
    requires p > 0
    ensures (a + m * p) % p == a % p
  {
    var q := a / p;
    assert a + m * p == (q + m) * p + a % p;
    ModUnique(q + m, p, a % p);
  }

  lemma ModUnique(q: nat, p: nat, r: nat)
    requires r < p
    ensures (q * p + r) % p == r && (q * p + r) / p == q
  {
    QuotientIs(q, p, q * p + r);
  }

  /** A group that is shifted into place, as far as the word reaches, and or-ed to what is below it. */
  lemma OrShifted(r: nat, g: nat, shift: nat, width: nat)
    requires r < Pow2(shift) && shift < width
    ensures BitOr(r, Low(Shl(g, shift), width)) == Low(r + Shl(g, shift), width)
  {
    hide Pow2, BitOr;
    var p := PowerOf2(shift);
    var q := PowerOf2(width - shift);
    Pow2Adds(width - shift, shift);
    ShiftMod(g, p, q, r);
    OrDisjoint(r, g % q, shift);
  }

  lemma LowSmall(a: nat, width: nat)
    requires a < Pow2(width)
    ensures Low(a, width) == a
  {
    hide Pow2;
    ModUnique(0, Pow2(width), a);
  }

  lemma PowerOf2(k: nat) returns (p: nat)
    ensures p == Pow2(k) > 0
  {
    p := Pow2(k);
  }

  lemma ShiftMod(g: nat, p: nat, q: nat, r: nat)
    requires q > 0 && r < p
    ensures q * p > 0
    ensures (g * p) % (q * p) == g % q * p
    ensures (r + g * p) % (q * p) == r + g % q * p
  {
    var kept := g % q;
    var high := g / q;
    MulMono(1, q, p);
    MulMono(kept + 1, q, p);
    assert (kept + 1) * p == kept * p + p;
    assert g == high * q + kept;
    Regroup(high, q, p, kept);
    ModUnique(high, q * p, kept * p);
    ModUnique(high, q * p, r + kept * p);
  }

  lemma Regroup(a: nat, q: nat, p: nat, r: nat)
    ensures (a * q + r) * p == a * (q * p) + r * p
  {
  }

  lemma {:induction false} OrBits(a: nat, b: nat, k: nat)
    ensures Bit(BitOr(a, b), k) <==> Bit(a, k) || Bit(b, k)
    decreases k
  {
    if a == 0 {
      NoBits(k);
    } else if k > 0 {
      OrBits(a / 2, b / 2, k - 1);
    }
  }

  lemma {:induction false} NoBits(k: nat)
    ensures !Bit(0, k)
  {
    if k > 0 {
      NoBits(k - 1);
    }
  }

  lemma {:induction false} OneBit(j: nat, k: nat)
    ensures Bit(Pow2(j), k) <==> j == k
  {
    if j == 0 {
      if k > 0 {
        NoBits(k - 1);
      }
    } else if k > 0 {
      OneBit(j - 1, k - 1);
    }
  }

  /** The word of the lowest n bits has exactly those. */
  lemma {:induction false} LowBits(n: nat, k: nat)
    ensures Bit(Pow2(n) - 1, k) <==> k < n
  {
    if n == 0 {
      NoBits(k);
    } else {
      assert (Pow2(n) - 1) / 2 == Pow2(n - 1) - 1;
      if k > 0 {
        LowBits(n - 1, k - 1);
      }
    }
  }

  /** Words are equal when their bits are. */
  lemma {:induction false} SameBits(a: nat, b: nat, n: nat)
    requires a < Pow2(n) && b < Pow2(n) && forall k :: 0 <= k < n ==> (Bit(a, k) <==> Bit(b, k))
    ensures a == b
  {
    if n > 0 {
      assert Bit(a, 0) <==> Bit(b, 0);
      forall k | 0 <= k < n - 1 ensures Bit(a / 2, k) <==> Bit(b / 2, k) {
        assert Bit(a, k + 1) <==> Bit(b, k + 1);
      }
      SameBits(a / 2, b / 2, n - 1);
    }
  }

  lemma {:induction false} OrBelow(a: nat, b: nat, n: nat)
    requires a < Pow2(n) && b < Pow2(n)
    ensures BitOr(a, b) < Pow2(n)
  {
    if n > 0 && a != 0 {
      OrBelow(a / 2, b / 2, n - 1);
    }
  }
}
