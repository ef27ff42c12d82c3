/**
 The compact form of a 256-bit target: one byte of size, one sign bit and a mantissa of 23 bits.
 `Compact` and `Magnitude` say what encoding and decoding compute; the methods work on words.
 */
module CompactForm {
  import opened Arithmetic
  import opened Bits
  import opened Words
  import opened UInt
  import opened UIntShift
  import opened UIntMul
  import opened UIntDiv

  const SIGN: nat := 0x80_0000
  const BYTE3: nat := 0x100_0000

  // ----- what the two directions mean

  function SizeOf(c: nat): nat { c / BYTE3 }
  function Mantissa(c: nat): nat { c % SIGN }
  predicate Signed(c: nat) { (c / SIGN) % 2 == 1 }

  function DropBytes(v: nat, k: nat): nat {
    PowPositive(256, k);
    DivAtLeast(v, Pow(256, k), 0);
    v / Pow(256, k)
  }

  function AddBytes(v: nat, k: nat): nat { v * Pow(256, k) }

  /** The number that a compact word stands for, sign and width aside. */
  function Magnitude(c: nat): nat {
    if SizeOf(c) <= 3 then DropBytes(Mantissa(c), 3 - SizeOf(c)) else AddBytes(Mantissa(c), SizeOf(c) - 3)
  }

  /** The place of the highest byte. */
  function TopByte(x: nat): nat {
    if x < 256 then 0 else 1 + TopByte(x / 256)
  }

  /** The size leaves room for a clear sign bit on top of the number. */
  function Exponent(v: nat): nat { TopByte(512 * v) }

  function Leading(v: nat, e: nat): nat {
    if e <= 3 then AddBytes(v, 3 - e) else DropBytes(v, e - 3)
  }

  function Compact(v: nat): nat {
    if v == 0 then 0 else Exponent(v) * BYTE3 + Leading(v, Exponent(v))
  }

  // ----- sizes

  lemma PowNext256(e: nat)
    ensures Pow(256, e + 1) == 256 * Pow(256, e)
  {
  }

  lemma SmallPowers()
    ensures Pow(256, 0) == 1 && Pow(256, 1) == 256 && Pow(256, 2) == 0x1_0000 && Pow(256, 3) == BYTE3
  {
    PowNext256(0);
    PowNext256(1);
    PowNext256(2);
  }

  lemma {:induction false} TopByteBounds(x: nat)
    requires x > 0
    ensures Pow(256, TopByte(x)) <= x < Pow(256, TopByte(x) + 1)
  {
    SmallPowers();
    if x >= 256 {
      TopByteBounds(x / 256);
      PowNext256(TopByte(x / 256));
      PowNext256(TopByte(x / 256) + 1);
    }
  }

  lemma {:induction false} TopByteUnique(x: nat, e: nat)
    requires Pow(256, e) <= x < Pow(256, e + 1)
    ensures TopByte(x) == e
  {
    SmallPowers();
    PowNext256(e);
    if e > 0 {
      PowNext256(e - 1);
      PowPositive(256, e - 1);
      TopByteUnique(x / 256, e - 1);
    }
  }

  lemma {:induction false} TopByteMonotone(x: nat, y: nat)
    requires x <= y
    ensures TopByte(x) <= TopByte(y)
  {
    if x >= 256 {
      TopByteMonotone(x / 256, y / 256);
    }
  }

  lemma ExponentBounds(v: nat)
    requires v > 0
    ensures Exponent(v) >= 1 && Pow(256, Exponent(v)) <= 512 * v < 256 * Pow(256, Exponent(v))
  {
    TopByteBounds(512 * v);
    PowNext256(Exponent(v));
    TopByteMonotone(512, 512 * v);
    assert TopByte(512) == 1 + TopByte(2);
  }

  /** The mantissa keeps the sign bit clear and is at least 2^15, except where the number is small and kept whole. */
  lemma LeadingBounds(v: nat)
    requires v > 0
    ensures Leading(v, Exponent(v)) < SIGN
    ensures Exponent(v) > 3 ==>
        Pow(256, Exponent(v)) == BYTE3 * Pow(256, Exponent(v) - 3) && v >= 0x8000 * Pow(256, Exponent(v) - 3)
  {
    hide Pow, TopByte;
    var e := Exponent(v);
    ExponentBounds(v);
    SmallPowers();
    if e <= 3 {
      PowAdd(256, e, 3 - e);
      SmallMantissa(v, Pow(256, e), Pow(256, 3 - e));
    } else {
      PowAdd(256, 3, e - 3);
      PowPositive(256, e - 3);
      DivBelow(v, Pow(256, e - 3), SIGN);
    }
  }

  lemma SmallMantissa(v: nat, p: nat, q: nat)
    requires 512 * v < 256 * p && p * q == BYTE3
    ensures v * q < SIGN
  {
    MulMono(2 * v + 1, p, q);
    assert (2 * v + 1) * q == 2 * (v * q) + q;
    assert p * 0 == 0;
  }

  lemma CompactFields(v: nat)
    requires v > 0
    ensures SizeOf(Compact(v)) == Exponent(v) && Mantissa(Compact(v)) == Leading(v, Exponent(v)) && !Signed(Compact(v))
  {
    LeadingBounds(v);
    Fields(Exponent(v), Leading(v, Exponent(v)));
  }

  lemma Fields(e: nat, m: nat)
    requires m < SIGN
    ensures SizeOf(e * BYTE3 + m) == e && Mantissa(e * BYTE3 + m) == m && !Signed(e * BYTE3 + m)
  {
  }

  // ----- the laws

  /** Decoding gives the number with all but its leading bytes cut off. */
  lemma DecodedValue(v: nat)
    requires v > 0
    ensures var e := Exponent(v); if e <= 3 then Magnitude(Compact(v)) == v
      else Pow(256, e - 3) > 0 && Magnitude(Compact(v)) == (v / Pow(256, e - 3)) * Pow(256, e - 3)
  {
    hide Pow, TopByte, Compact, SizeOf, Mantissa, Signed;
    var e := Exponent(v);
    CompactFields(v);
    if e <= 3 {
      PowPositive(256, 3 - e);
      Remainder(Pow(256, 3 - e), v);
      assert Pow(256, 3 - e) * v == v * Pow(256, 3 - e);
    } else {
      PowPositive(256, e - 3);
    }
  }

  /** No sign, no more than the number, and less than a 2^-15 part of it lost. */
  lemma DecodeApproximates(v: nat)
    requires v > 0
    ensures Magnitude(Compact(v)) <= v && (v - Magnitude(Compact(v))) * 0x8000 < v && !Signed(Compact(v))
  {
    hide Pow, TopByte, Compact, Magnitude;
    DecodedValue(v);
    CompactFields(v);
    LeadingBounds(v);
    if Exponent(v) > 3 {
      var p := Pow(256, Exponent(v) - 3);
      assert v == (v / p) * p + v % p;
    }
  }

  /** Encoding what was decoded gives the same word again. */
  lemma EncodeAgain(v: nat)
    ensures Compact(Magnitude(Compact(v))) == Compact(v)
  {
    hide Pow, TopByte, Magnitude;
    if v > 0 {
      DecodedValue(v);
      ExponentBounds(v);
      if Exponent(v) > 3 {
        LeadingBounds(v);
        SameExponent(v, Exponent(v), Pow(256, Exponent(v) - 3));
      }
    } else {
      NullMagnitude();
    }
  }

  lemma NullExponent()
    ensures Exponent(0) == 0
  {
  }

  lemma NullMagnitude()
    ensures Magnitude(0) == 0
  {
    SmallPowers();
  }

  lemma SameExponent(v: nat, e: nat, p: nat)
    requires e > 3 && e == Exponent(v) && p == Pow(256, e - 3) > 0 && Pow(256, e) == BYTE3 * p && v >= 0x8000 * p
        && 512 * v < 256 * Pow(256, e)
    ensures var w := (v / p) * p; w > 0 && Exponent(w) == e && w / p == v / p
  {
    hide Pow;
    var q := v / p;
    assert v == q * p + v % p;
    DivAtLeast(v, p, 0x8000);
    MulMono(0x8000, q, p);
    PowNext256(e);
    TopByteUnique(512 * (q * p), e);
    assert p * q == q * p;
    Remainder(p, q);
  }

  /** As an unsigned number the compact form never falls when the number grows. */
  lemma CompactMonotone(v: nat, w: nat)
    requires v <= w
    ensures Compact(v) <= Compact(w)
  {
    hide Pow, TopByte, Leading;
    if v > 0 {
      LeadingBounds(v);
      TopByteMonotone(512 * v, 512 * w);
      if Exponent(v) == Exponent(w) {
        LeadingMonotone(v, w, Exponent(v));
      }
    }
  }

  lemma LeadingMonotone(v: nat, w: nat, e: nat)
    requires v <= w
    ensures Leading(v, e) <= Leading(w, e)
  {
    hide Pow;
    if e <= 3 {
      MulMono(v, w, Pow(256, 3 - e));
    } else {
      PowPositive(256, e - 3);
      DivMono(v, w, Pow(256, e - 3));
    }
  }

  lemma CompactFits(v: nat)
    requires v < Limit(8)
    ensures Compact(v) < BASE && Exponent(v) <= 33
  {
    hide TopByte, Pow;
    Limit8();
    if v > 0 {
      LeadingBounds(v);
      ExponentBounds(v);
      PowNext256(32);
      PowNext256(33);
      if Exponent(v) >= 34 {
        PowGrows(256, 34, Exponent(v));
      }
    } else {
      NullExponent();
    }
  }

  lemma Limit8()
    ensures Limit(8) == Pow(256, 32) == Pow(2, 256)
  {
    WordsArePow(8);
    BytesArePow(32);
  }

  lemma {:induction false} BytesArePow(k: nat)
    ensures Pow(256, k) == Pow(2, 8 * k)
  {
    if k > 0 {
      BytesArePow(k - 1);
      PowAdd(2, 8, 8 * (k - 1));
      assert Pow(2, 8) == 256;
    }
  }

  /** Words that the source's own tests decode, by their size. */
  lemma KnownWords()
    ensures Magnitude(0x0012_3456) == 0 && Magnitude(0x0100_3456) == 0 && Magnitude(0x0112_3456) == 0x12
    ensures Magnitude(0x0212_3456) == 0x1234 && Magnitude(0x0312_3456) == 0x12_3456
    ensures Magnitude(0x0412_3456) == 0x1234_5600 && Magnitude(0x0500_9234) == 0x9234_0000
    ensures Magnitude(0x0492_3456) == 0x1234_5600 && Signed(0x0492_3456) && !Signed(0x0412_3456)
  {
    hide Pow;
    SmallPowers();
  }

  /** Numbers that they encode. */
  lemma KnownNumbers()
    ensures Compact(0) == 0 && Compact(0x12) == 0x0112_0000 && Compact(0x80) == 0x0200_8000
    ensures Compact(0x1234) == 0x0212_3400 && Compact(0x12_3456) == 0x0312_3456
    ensures Compact(0x1234_5600) == 0x0412_3456 && Compact(0x9234_0000) == 0x0500_9234
  {
    hide Pow;
    SmallPowers();
  }
}
