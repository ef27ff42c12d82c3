/** Encoding and decoding the compact form on the words of a 256-bit number. */
module CompactWords {
  import opened Arithmetic
  import opened Bits
  import opened Words
  import opened UInt
  import opened UIntShift
  import opened UIntMul
  import opened UIntDiv
  import opened CompactForm

  // ----- encoding

  lemma ByteLength(v: nat, bits: nat)
    requires IsLength(v, bits)
    ensures var size := (bits + 7) / 8; v < Pow(256, size) && (v > 0 ==> size > 0 && Pow(256, size - 1) <= v)
  {
    hide Pow;
    var size := (bits + 7) / 8;
    BytesArePow(size);
    PowGrows(2, bits, 8 * size);
    LengthZero(v, bits);
    if v > 0 {
      BytesArePow(size - 1);
      PowGrows(2, 8 * (size - 1), bits - 1);
    }
  }

  lemma LeadingFits(v: nat, size: nat)
    requires v < Pow(256, size)
    ensures Leading(v, size) < BYTE3
  {
    hide Pow;
    SmallPowers();
    if size <= 3 {
      PowAdd(256, size, 3 - size);
      PowPositive(256, 3 - size);
      Below(v, Pow(256, size), Pow(256, 3 - size));
    } else {
      PowAdd(256, 3, size - 3);
      PowPositive(256, size - 3);
      DivBelow(v, Pow(256, size - 3), BYTE3);
    }
  }

  lemma LeadingNext(v: nat, size: nat)
    ensures Leading(v, size + 1) == Leading(v, size) / 256
  {
    hide Pow;
    SmallPowers();
    if size <= 2 {
      PowNext256(2 - size);
      assert v * (256 * Pow(256, 2 - size)) == 256 * (v * Pow(256, 2 - size));
    } else {
      PowNext256(size - 3);
      PowPositive(256, size - 3);
      DivDiv(v, Pow(256, size - 3), 256);
    }
  }

  /** Whether the top bit of the leading three bytes is set decides the size. */
  lemma SizeChosen(v: nat, size: nat)
    requires v > 0 && size > 0 && Pow(256, size - 1) <= v < Pow(256, size)
    ensures Exponent(v) == if Leading(v, size) >= SIGN then size + 1 else size
  {
    hide Pow, TopByte;
    PowNext256(size - 1);
    PowNext256(size);
    PowNext256(size + 1);
    SmallPowers();
    if size <= 3 {
      PowAdd(256, size, 3 - size);
      PowPositive(256, 3 - size);
      HalfWay(v, Pow(256, size), Pow(256, 3 - size));
    } else {
      PowAdd(256, 3, size - 3);
      PowPositive(256, size - 3);
      if Leading(v, size) >= SIGN {
        AtLeast(v, Pow(256, size - 3), SIGN);
      } else {
        AtMost(v, Pow(256, size - 3), SIGN);
      }
    }
    TopByteUnique(512 * v, if Leading(v, size) >= SIGN then size + 1 else size);
  }

  lemma HalfWay(v: nat, p: nat, q: nat)
    requires p * q == BYTE3 && q > 0
    ensures v * q >= SIGN <==> 2 * v >= p
  {
    if 2 * v >= p {
      MulMono(p, 2 * v, q);
      assert (2 * v) * q == 2 * (v * q);
    } else {
      Below(2 * v, p, q);
      assert (2 * v) * q == 2 * (v * q);
    }
  }

  lemma AtLeast(v: nat, p: nat, b: nat)
    requires p > 0 && v / p >= b
    ensures v >= b * p
  {
    MulMono(b, v / p, p);
    assert v == p * (v / p) + v % p;
  }

  lemma AtMost(v: nat, p: nat, b: nat)
    requires p > 0 && v / p < b
    ensures v < b * p
  {
    MulMono(v / p + 1, b, p);
    assert (v / p + 1) * p == p * (v / p) + p;
    assert v == p * (v / p) + v % p;
  }

  /** The source keeps only 64, then 32 bits of the number here; none of the others is set. */
  lemma LowWords(s: seq<Word>)
    requires |s| >= 2 && Val(s) < BASE
    ensures s[0] == Val(s) && s[1] == 0
  {
    hide Pow, Val;
    TopWord(s);
    TopWord(s[1..]);
  }

  function GetLow64(s: seq<Word>): nat
    requires |s| >= 2
  {
    Or(s[0], s[1] * BASE)
  }

  lemma Low64(s: seq<Word>)
    requires |s| >= 2 && Val(s) < BASE
    ensures GetLow64(s) == Val(s)
  {
    LowWords(s);
    OrZero(s[0]);
  }

  lemma Joins(m: nat, e: nat)
    requires m < SIGN && e < 256
    ensures Or(m, e * BYTE3) == e * BYTE3 + m && Or(e * BYTE3 + m, SIGN) == e * BYTE3 + m + SIGN
  {
    hide Or;
    Powers2();
    ModUnique(0, e, BYTE3, e * BYTE3);
    OrDisjoint(e * BYTE3, m, 24);
    OrDisjoint(e * BYTE3, m + SIGN, 24);
    OrDisjoint(SIGN, m, 23);
    OrAssociates(e * BYTE3, m, SIGN);
  }

  lemma Powers2()
    ensures Pow(2, 23) == SIGN && Pow(2, 24) == BYTE3
  {
    assert Pow(2, 8) == 256;
    PowAdd(2, 8, 8);
    PowAdd(2, 16, 8);
    assert Pow(2, 24) == 2 * Pow(2, 23);
  }

  lemma {:induction false} OrAssociates(a: nat, b: nat, c: nat)
    ensures Or(Or(a, b), c) == Or(a, Or(b, c))
    decreases a + b + c
  {
    if a + b + c > 0 {
      OrAssociates(a / 2, b / 2, c / 2);
    }
  }

  /** The three leading bytes, before room is made for the sign. */
  method LeadingBytes(pn: array<Word>, size: nat) returns (m: nat)
    requires pn.Length == 8 && Val(pn[..]) < Pow(256, size)
    ensures m == Leading(Val(pn[..]), size)
  {
    hide Pow, Val, Or;
    LeadingFits(Val(pn[..]), size);
    SmallPowers();
    if size <= 3 {
      PowGrows(256, size, 3);
      Low64(pn[..]);
      m := (GetLow64(pn[..]) * Pow(256, 3 - size)) % BASE;
    } else {
      var bn := Copy(pn);
      BytesArePow(size - 3);
      ShiftRight(bn, 8 * (size - 3));
      Low64(bn[..]);
      m := GetLow64(bn[..]) % BASE;
    }
  }

  method GetCompact(pn: array<Word>, negative: bool) returns (c: nat)
    requires pn.Length == 8
    ensures c == Compact(Val(pn[..])) + if negative && Val(pn[..]) != 0 then 0x80_0000 else 0
  {
    hide Pow, Val, Or, Leading, Exponent, IsLength, Limit;
    ghost var v := Val(pn[..]);
    var bits := BitLength(pn);
    var size := (bits + 7) / 8;
    ByteLength(v, bits);
    c := LeadingBytes(pn, size);
    LeadingFits(v, size);
    ghost var first := size;
    if (c / SIGN) % 2 == 1 {
      c := c / 256;
      LeadingNext(v, size);
      size := size + 1;
    }
    assert c < SIGN && size < 256;
    if v > 0 {
      SizeChosen(v, first);
      LeadingPositive(v);
      assert c == Leading(v, Exponent(v)) && size == Exponent(v);
    } else {
      ZeroLeading(bits);
    }
    Joins(c, size);
    Fields(size, c);
    c := Or(c, size * BYTE3);
    if negative && Mantissa(c) != 0 {
      c := Or(c, SIGN);
    }
  }

  lemma LeadingPositive(v: nat)
    requires v > 0
    ensures Leading(v, Exponent(v)) > 0
  {
    hide Pow, TopByte;
    LeadingBounds(v);
    var e := Exponent(v);
    if e <= 3 {
      PowPositive(256, 3 - e);
      MulMono(1, v, Pow(256, 3 - e));
    } else {
      PowPositive(256, e - 3);
      DivAtLeast(v, Pow(256, e - 3), 0x8000);
    }
  }

  lemma ZeroLeading(bits: nat)
    requires IsLength(0, bits)
    ensures bits == 0 && Leading(0, 0) == 0
  {
    LengthZero(0, bits);
  }

  // ----- decoding

  method Assign(pn: array<Word>, w: Word)
    requires pn.Length > 0
    modifies pn
    ensures Val(pn[..]) == w
  {
    hide Pow, Val;
    pn[0] := w;
    for i := 1 to pn.Length
      invariant pn[0] == w && forall k | 1 <= k < i :: pn[k] == 0
    {
      pn[i] := 0;
    }
    TopWord(pn[..]);
    ValZero(pn[..][1..]);
  }

  /** The overflow test looks at size and mantissa only, and is exact. */
  lemma OverflowExact(word: nat, size: nat)
    requires word < SIGN && size > 3
    ensures word * Pow(256, size - 3) >= Limit(8) <==>
        word != 0 && (size > 34 || (word > 0xff && size > 33) || (word > 0xffff && size > 32))
  {
    hide Pow, Limit;
    Limit8();
    SmallPowers();
    var p := Pow(256, size - 3);
    PowPositive(256, size - 3);
    if size <= 32 {
      PowGrows(256, size - 3, 29);
      PowAdd(256, 3, 29);
      MulMono(word, SIGN, p);
      PowPositive(256, 29);
    } else if size <= 34 {
      PowAdd(256, size - 3, 35 - size);
      Reaches(word, p, Pow(256, 35 - size));
    } else {
      PowGrows(256, 32, size - 3);
      if word > 0 {
        MulMono(1, word, p);
      }
    }
  }

  lemma Reaches(w: nat, p: nat, q: nat)
    requires p > 0
    ensures w * p >= p * q <==> w >= q
  {
    if w >= q {
      MulMono(q, w, p);
    } else {
      Below(w, q, p);
    }
  }

  lemma SmallMagnitude(c: nat)
    requires SizeOf(c) <= 3
    ensures Magnitude(c) < SIGN && Magnitude(c) < Limit(8) && Magnitude(c) % Limit(8) == Magnitude(c)
  {
    hide Pow;
    PowPositive(256, 3 - SizeOf(c));
    ShrinksDiv(Mantissa(c), Pow(256, 3 - SizeOf(c)));
    LargeLimit();
    assert 0 * Limit(8) == 0;
    ModUnique(Magnitude(c), 0, Limit(8), Magnitude(c));
  }

  lemma LargeLimit()
    ensures Limit(8) >= BASE
  {
    PowGrows(BASE, 1, 8);
    PowOne();
  }

  method SetCompact(pn: array<Word>, c: nat) returns (negative: bool, overflow: bool)
    requires pn.Length == 8 && c < BASE
    modifies pn
    ensures Val(pn[..]) == Magnitude(c) % Limit(8)
    ensures negative <==> Magnitude(c) != 0 && (c / 0x80_0000) % 2 == 1
    ensures overflow <==> Magnitude(c) >= Limit(8)
  {
    hide Pow, Val, Limit;
    var size, word := SizeOf(c), Mantissa(c);
    if size <= 3 {
      SmallMagnitude(c);
      word := DropBytes(word, 3 - size);
      Assign(pn, word);
    } else {
      OverflowExact(word, size);
      BytesArePow(size - 3);
      Vanishes(word, size - 3);
      Assign(pn, word);
      ShiftLeft(pn, 8 * (size - 3));
    }
    negative := word != 0 && Signed(c);
    overflow := word != 0 && (size > 34 || (word > 0xff && size > 33) || (word > 0xffff && size > 32));
  }

  lemma Vanishes(w: nat, k: nat)
    ensures AddBytes(w, k) == 0 <==> w == 0
  {
    PowPositive(256, k);
    if w > 0 {
      MulMono(1, w, Pow(256, k));
    }
  }

  // ----- both together

  /** For every 256-bit number: encode it, decode that, and encode again. */
  method CompactRoundTrip(pn: array<Word>) returns (c: nat, negative: bool, overflow: bool, again: nat)
    requires pn.Length == 8
    modifies pn
    ensures !negative && !overflow && again == c && c == old(Compact(Val(pn[..])))
    ensures Val(pn[..]) <= old(Val(pn[..]))
    ensures old(Val(pn[..])) > 0 ==> (old(Val(pn[..])) - Val(pn[..])) * 0x8000 < old(Val(pn[..]))
  {
    hide Pow, Val, Limit, Compact, Magnitude;
    ghost var v := Val(pn[..]);
    InRange(pn[..]);
    CompactFits(v);
    c := GetCompact(pn, false);
    RoundTripFacts(v);
    negative, overflow := SetCompact(pn, c);
    again := GetCompact(pn, false);
  }

  lemma RoundTripFacts(v: nat)
    requires v < Limit(8)
    ensures var d := Magnitude(Compact(v));
        d <= v && d % Limit(8) == d && !Signed(Compact(v)) && Compact(d) == Compact(v)
    ensures v > 0 ==> (v - Magnitude(Compact(v))) * 0x8000 < v
  {
    hide Pow, Limit, Magnitude, Compact;
    EncodeAgain(v);
    if v > 0 {
      DecodeApproximates(v);
    } else {
      ZeroCompact();
    }
    var d := Magnitude(Compact(v));
    assert 0 * Limit(8) == 0;
    ModUnique(d, 0, Limit(8), d);
  }

  lemma ZeroCompact()
    ensures Compact(0) == 0 && Magnitude(0) == 0 && !Signed(0)
  {
    NullMagnitude();
  }
}
