/** Multiplication by a word and by another number, comparison, bit length, and division by shifting and subtracting. */
module UIntMul {
  import opened Arithmetic
  import opened Bits
  import opened Words
  import opened UInt
  import opened UIntShift

  lemma WordProduct(a: Word, b: Word, c: nat, d: nat)
    requires c < BASE && d < BASE
    ensures c + d + Times(a, b) < WIDE && (c + d + Times(a, b)) / BASE < BASE
  {
    hide Times;
    WordSquare(a, b);
    DivBelow(c + d + Times(a, b), BASE, BASE);
  }

  lemma WordSquare(a: Word, b: Word)
    ensures Times(a, b) <= (BASE - 1) * (BASE - 1)
  {
    MulMono(a, BASE - 1, b);
  }

  lemma MulStep(lo: nat, carry: nat, vx: nat, w: nat, x: nat, b: nat, p: nat)
    requires lo + carry * p == vx * b
    ensures (lo + ((carry + b * x) % BASE) * p) + ((carry + b * x) / BASE) * (BASE * p) == (vx + x * p) * b
  {
    CutAndCarry(carry + b * x, p);
    assert (carry + b * x) * p == carry * p + (b * x) * p;
    assert (vx + x * p) * b == vx * b + (x * p) * b;
    assert (b * x) * p == (x * p) * b by { MulAssoc(b, x, p); }
  }

  method MultiplyWord(pn: array<Word>, b: Word)
    modifies pn
    ensures Val(pn[..]) == (old(Val(pn[..])) * b) % Limit(pn.Length)
  {
    hide Pow, Val;
    ghost var x := pn[..];
    var carry: nat := 0;
    NoWords();
    for i := 0 to pn.Length
      invariant forall k | i <= k < pn.Length :: pn[k] == x[k]
      invariant carry < BASE && Val(pn[..][..i]) + carry * Pow(BASE, i) == Val(x[..i]) * b
    {
      ghost var before := pn[..];
      WordProduct(b, pn[i], carry, 0);
      var n := carry + Times(b, pn[i]);
      assert n < WIDE;
      MulStep(Val(pn[..][..i]), carry, Val(x[..i]), n, x[i], b, Pow(BASE, i));
      pn[i] := n % BASE;
      carry := n / BASE;
      Written(before, pn[..], i);
      ValNext(x, i);
      PowNext(i);
    }
    assert pn[..][..pn.Length] == pn[..] && x[..pn.Length] == x;
    FinalCarry(pn[..], carry, Val(x) * b);
  }

  // ----- multiplication

  lemma RowStep(lo: nat, carry: nat, vp: nat, x: nat, w: nat, y: nat, vb: nat, pj: nat, pi: nat, p: nat)
    requires lo + Times(carry, p) == vp + Times(Times(x, pj), vb) && p == Times(pj, pi)
    ensures var n := carry + w + Times(x, y);
      (lo + Times(n % BASE, p)) + Times(n / BASE, BASE * p) == (vp + Times(w, p))
          + Times(Times(x, pj), vb + Times(y, pi))
  {
    CutAndCarry(carry + w + x * y, p);
    assert (carry + w + x * y) * p == carry * p + w * p + (x * y) * p;
    assert (x * pj) * (vb + y * pi) == (x * pj) * vb + (x * pj) * (y * pi);
    assert (x * y) * (pj * pi) == (x * pj) * (y * pi) by {
      MulAssoc(x, y, pj * pi);
      MulSwap(y, pj, pi);
      MulAssoc(x, pj, y * pi);
    }
  }

  /** Word `i + j` of a row has been written. */
  lemma RowNext(before: seq<Word>, after: seq<Word>, was: seq<Word>, y: seq<Word>, x: Word, i: nat, j: nat, carry: nat)
    requires |before| == |after| == |was| == |y| && i + j < |was|
    requires forall k | 0 <= k < i + j :: after[k] == before[k]
    requires Val(before[..i + j]) + Times(carry, Pow(BASE, i + j)) == Val(was[..i + j])
        + Times(Times(x, Pow(BASE, j)), Val(y[..i]))
    requires after[i + j] == (carry + was[i + j] + Times(x, y[i])) % BASE
    ensures var n := carry + was[i + j] + Times(x, y[i]);
      Val(after[..i + j + 1]) + Times(n / BASE, Pow(BASE, i + j + 1)) == Val(was[..i + j + 1])
          + Times(Times(x, Pow(BASE, j)), Val(y[..i + 1]))
  {
    hide Pow, Val, Times;
    assert after[..i + j] == before[..i + j];
    ValStep(after, i + j);
    ValStep(was, i + j);
    ValStep(y, i);
    PowSum(j, i);
    RowStep(Val(before[..i + j]), carry, Val(was[..i + j]), x, was[i + j], y[i], Val(y[..i]), Pow(BASE, j),
        Pow(BASE, i), Pow(BASE, i + j));
  }

  /** One row of the schoolbook product: add `x` times `b`, shifted by `j` words and cut off at the top. */
  method AddRow(pn: array<Word>, x: Word, b: array<Word>, j: nat) returns (carry: nat)
    requires pn.Length == b.Length && pn != b && j <= pn.Length
    modifies pn
    ensures Val(pn[..]) + Times(carry, Limit(pn.Length)) == old(Val(pn[..]))
        + Times(Times(x, Pow(BASE, j)), Val(b[..pn.Length - j]))
  {
    hide Pow, Val, Times;
    ghost var was, y := pn[..], b[..];
    carry := 0;
    var i := 0;
    RowStarts(was, y, x, j);
    while i + j < pn.Length
      invariant i + j <= pn.Length && carry < BASE && b[..] == y
      invariant forall k | i + j <= k < pn.Length :: pn[k] == was[k]
      invariant Val(pn[..][..i + j]) + Times(carry, Pow(BASE, i + j)) == Val(was[..i + j])
          + Times(Times(x, Pow(BASE, j)), Val(y[..i]))
    {
      ghost var before, c := pn[..], carry;
      WordProduct(x, b[i], carry, pn[i + j]);
      var n := carry + pn[i + j] + Times(x, b[i]);
      assert n < WIDE;
      pn[i + j] := n % BASE;
      carry := n / BASE;
      RowNext(before, pn[..], was, y, x, i, j, c);
      i := i + 1;
    }
    assert pn[..][..pn.Length] == pn[..] && was[..pn.Length] == was && y[..i] == b[..pn.Length - j];
  }

  lemma RowStarts(was: seq<Word>, y: seq<Word>, x: Word, j: nat)
    requires j <= |was|
    ensures Val(was[..j]) + Times(0, Pow(BASE, j)) == Val(was[..j]) + Times(Times(x, Pow(BASE, j)), Val(y[..0]))
  {
  }

  lemma RowsStep(v: nat, w: nat, q: nat, carry: nat, m: nat, va: nat, x: nat, pj: nat, blo: nat, bhi: nat, pn: nat)
    requires v + Times(q, m) == Times(va, blo + Times(pn, bhi)) && w + Times(carry, m) == v + Times(Times(x, pj), blo)
        && m == Times(pj, pn)
    ensures w + Times(q + carry + Times(x, bhi), m) == Times(va + Times(x, pj), blo + Times(pn, bhi))
  {
    assert (q + carry + x * bhi) * m == q * m + carry * m + (x * bhi) * m;
    assert (va + x * pj) * (blo + pn * bhi) == va * (blo + pn * bhi) + (x * pj) * (blo + pn * bhi);
    assert (x * pj) * (blo + pn * bhi) == (x * pj) * blo + (x * pj) * (pn * bhi);
    assert (x * bhi) * (pj * pn) == (x * pj) * (pn * bhi) by {
      MulAssoc(x, bhi, pj * pn);
      MulSwap(bhi, pj, pn);
      assert bhi * pn == pn * bhi;
      MulAssoc(x, pj, pn * bhi);
    }
  }

  /**
   The product, unless the second operand is the very object that is multiplied: that one has been cleared by then, and
   the result is zero.
   */
  method Multiply(pn: array<Word>, b: array<Word>)
    requires pn.Length == b.Length
    modifies pn
    ensures pn != b ==> Val(pn[..]) == (old(Val(pn[..])) * old(Val(b[..]))) % Limit(pn.Length)
    ensures pn == b ==> Val(pn[..]) == 0
  {
    hide Pow, Val, Limit, Times;
    var a := TakeOut(pn);
    ghost var x := a[..];
    ValZero(pn[..]);
    if pn == b {
      MultiplySelf(pn, a);
    } else {
      ghost var y, n := b[..], pn.Length;
      assert y == old(b[..]);
      ghost var q: nat := 0;
      RowsStart(a[..], y);
      for j := 0 to pn.Length
        invariant b[..] == y && a[..] == x
        invariant Val(pn[..]) + Times(q, Limit(n)) == Times(Val(a[..][..j]), Val(y))
      {
        ghost var v := Val(pn[..]);
        var carry := AddRow(pn, a[j], b, j);
        Row(a[..], y, j, v, Val(pn[..]), q, carry);
        q := q + carry + Times(a[j], Val(y[n - j..]));
      }
      assert a[..][..n] == a[..];
      Wraps(pn[..], q, Val(a[..]), Val(y));
    }
  }

  lemma RowsStart(a: seq<Word>, y: seq<Word>)
    ensures 0 + Times(0, Limit(|a|)) == Times(Val(a[..0]), Val(y))
  {
  }

  lemma Wraps(s: seq<Word>, q: nat, x: nat, y: nat)
    requires Val(s) + Times(q, Limit(|s|)) == Times(x, y)
    ensures Val(s) == (x * y) % Limit(|s|)
  {
    FinalCarry(s, q, x * y);
  }

  lemma Row(a: seq<Word>, y: seq<Word>, j: nat, v: nat, w: nat, q: nat, carry: nat)
    requires |a| == |y| && j < |a|
    requires v + Times(q, Limit(|y|)) == Times(Val(a[..j]), Val(y))
    requires w + Times(carry, Limit(|y|)) == v + Times(Times(a[j], Pow(BASE, j)), Val(y[..|y| - j]))
    ensures w + Times(q + carry + Times(a[j], Val(y[|y| - j..])), Limit(|y|)) == Times(Val(a[..j + 1]), Val(y))
  {
    hide Pow, Val, Times;
    var n := |y|;
    ValHalves(y, n - j);
    ValStep(a, j);
    PowSum(j, n - j);
    RowsStep(v, w, q, carry, Pow(BASE, n), Val(a[..j]), a[j], Pow(BASE, j), Val(y[..n - j]), Val(y[n - j..]),
        Pow(BASE, n - j));
  }

  /** The same loops with the cleared object as second operand. */
  method MultiplySelf(pn: array<Word>, a: array<Word>)
    requires pn != a && pn.Length == a.Length && forall k | 0 <= k < pn.Length :: pn[k] == 0
    modifies pn
    ensures Val(pn[..]) == 0
  {
    for j := 0 to pn.Length
      invariant forall k | 0 <= k < pn.Length :: pn[k] == 0
    {
      var carry: nat := 0;
      var i := 0;
      while i + j < pn.Length
        invariant i + j <= pn.Length && carry == 0
        invariant forall k | 0 <= k < pn.Length :: pn[k] == 0
      {
        var n := carry + pn[i + j] + a[j] * pn[i];
        pn[i + j] := n % BASE;
        carry := n / BASE;
        i := i + 1;
      }
    }
    ValZero(pn[..]);
  }

  lemma ModScale(a: nat, b: nat, c: nat)
    requires b > 0 && c > 0
    ensures c * b > 0 && (c * a) % (c * b) == c * (a % b)
  {
    var q, r := a / b, a % b;
    MulMono(1, b, c);
    Below(r, b, c);
    assert c * a == c * r + q * (c * b) by { assert a == r + b * q; MulDistribute(c, r, b * q); MulAssoc(c, b, q); }
    ModUnique(c * r, q, c * b, c * a);
  }

  lemma {:induction false} SquareVanishes(v: nat, m: nat)
    ensures Pow(2, 2 * m) > 0 && Pow(2, m) > 0
    ensures (v * v) % Pow(2, 2 * m) == 0 <==> v % Pow(2, m) == 0
  {
    PowPositive(2, 2 * m);
    PowPositive(2, m);
    if m > 0 {
      var w := v / 2;
      PowAdd(2, 2, 2 * (m - 1));
      assert Pow(2, 2) == 4 by { assert Pow(2, 1) == 2; }
      if v % 2 == 0 {
        SquareVanishes(w, m - 1);
        ModScale(w * w, Pow(2, 2 * (m - 1)), 4);
        ModScale(w, Pow(2, m - 1), 2);
        assert v * v == 4 * (w * w) by { assert v == 2 * w; assert (2 * w) * (2 * w) == 4 * (w * w); }
      } else {
        OddSquare(v);
        PowPositive(2, m - 1);
        PowPositive(2, 2 * m - 1);
        NotMultiple(v * v, Pow(2, 2 * m - 1));
        NotMultiple(v, Pow(2, m - 1));
      }
    }
  }

  lemma OddSquare(v: nat)
    requires v % 2 == 1
    ensures (v * v) % 2 == 1
  {
    var w := v / 2;
    assert v * v == 2 * (v * w) + v by { assert v == 2 * w + 1; assert v * (2 * w + 1) == 2 * (v * w) + v; }
  }

  lemma NotMultiple(a: nat, p: nat)
    requires a % 2 == 1 && p > 0
    ensures a % (2 * p) != 0
  {
    if a % (2 * p) == 0 {
      Halve(a, p);
    }
  }

  /**
   Multiplying a number by itself in place, which yields zero, is right exactly when the lower half of its bits is zero.
   */
  lemma SelfProductRight(s: seq<Word>)
    ensures Pow(2, 16 * |s|) > 0
    ensures 0 == (Val(s) * Val(s)) % Limit(|s|) <==> Val(s) % Pow(2, 16 * |s|) == 0
  {
    WordsArePow(|s|);
    SquareVanishes(Val(s), 16 * |s|);
  }

  /** At every width the number one multiplied by itself in place becomes zero, and one is its square. */
  lemma SelfProductWrong(rest: seq<Word>)
    requires forall i | 0 <= i < |rest| :: rest[i] == 0
    ensures var one := [1] + rest; Val(one) == 1 && (Val(one) * Val(one)) % Limit(|one|) == 1
  {
    var one: seq<Word> := [1];
    ValConcat(one, rest);
    ValZero(rest);
    assert one[..0] == [] && Pow(BASE, 0) == 1;
    var m := Limit(|one + rest|);
    PowGrows(BASE, 1, |one + rest|);
    PowOne();
    assert 0 * m == 0 && Pow(BASE, 1) * 0 == 0;
    ModUnique(1, 0, m, 1);
  }

  // ----- comparison

  lemma ComparesAt(a: seq<Word>, b: seq<Word>, i: nat)
    requires |a| == |b| && i < |a| && a[i] < b[i] && forall k | i < k < |a| :: a[k] == b[k]
    ensures Val(a) < Val(b)
  {
    hide Pow, Val;
    ValSplit(a, i + 1);
    ValSplit(b, i + 1);
    assert a[i + 1..] == b[i + 1..];
    ValNext(a, i);
    ValNext(b, i);
    LowBound(a, i);
    var p, u: nat, w: nat := Pow(BASE, i), a[i], b[i];
    MulMono(u + 1, w, p);
    assert (u + 1) * p == u * p + p;
  }

  method CompareTo(pn: array<Word>, b: array<Word>) returns (r: int)
    requires pn.Length == b.Length
    ensures r < 0 <==> Val(pn[..]) < Val(b[..])
    ensures r > 0 <==> Val(pn[..]) > Val(b[..])
    ensures r == 0 <==> pn[..] == b[..]
  {
    hide Val;
    var i := pn.Length - 1;
    while i >= 0
      invariant -1 <= i < pn.Length
      invariant forall k | i < k < pn.Length :: pn[k] == b[k]
    {
      if pn[i] < b[i] {
        ComparesAt(pn[..], b[..], i);
        return -1;
      }
      if pn[i] > b[i] {
        ComparesAt(b[..], pn[..], i);
        return 1;
      }
      i := i - 1;
    }
    assert pn[..] == b[..];
    return 0;
  }

  // ----- bit length

  predicate HasBit(w: Word, bit: nat) {
    PowPositive(2, bit);
    (w / Pow(2, bit)) % 2 == 1
  }

  /** The position of the highest bit set, plus one; zero for zero. */
  ghost predicate IsLength(v: nat, n: nat) {
    v < Pow(2, n) && (n > 0 ==> Pow(2, n - 1) <= v)
  }

  method BitLength(pn: array<Word>) returns (r: nat)
    ensures IsLength(Val(pn[..]), r) && r <= 32 * pn.Length
  {
    hide Pow, Val;
    var pos := pn.Length - 1;
    while pos >= 0
      invariant -1 <= pos < pn.Length
      invariant forall k | pos < k < pn.Length :: pn[k] == 0
    {
      if pn[pos] != 0 {
        var bits := 31;
        WordPow();
        while bits > 0
          invariant 0 <= bits <= 31 && pn[pos] < Pow(2, bits + 1)
        {
          BitAt(pn[pos], bits);
          if HasBit(pn[pos], bits) {
            LengthAt(pn[..], pos, bits);
            return 32 * pos + bits + 1;
          }
          bits := bits - 1;
        }
        BitAt(pn[pos], 0);
        LengthAt(pn[..], pos, 0);
        return 32 * pos + 1;
      }
      pos := pos - 1;
    }
    ValZero(pn[..]);
    PowZero();
    return 0;
  }

  lemma WordPow()
    ensures Pow(2, 32) == BASE
  {
    BaseIsPow(0);
  }

  lemma BitAt(w: Word, bit: nat)
    requires w < Pow(2, bit + 1)
    ensures HasBit(w, bit) <==> Pow(2, bit) <= w
    ensures bit == 0 && w != 0 ==> Pow(2, 0) <= w
  {
    PowPositive(2, bit);
    var p := Pow(2, bit);
    if w < p {
      assert 0 * p == 0;
      ModUnique(w, 0, p, w);
    } else {
      assert w - p + 1 * p == w;
      ModUnique(w - p, 1, p, w);
    }
  }

  lemma LengthAt(s: seq<Word>, pos: nat, bit: nat)
    requires pos < |s| && (forall k | pos < k < |s| :: s[k] == 0) && Pow(2, bit) <= s[pos] < Pow(2, bit + 1)
    ensures IsLength(Val(s), 32 * pos + bit + 1)
  {
    hide Pow, Val;
    ValSplit(s, pos + 1);
    ValZero(s[pos + 1..]);
    assert Pow(BASE, pos + 1) * 0 == 0;
    ValNext(s, pos);
    LowBound(s, pos);
    WordsArePow(pos);
    PowAdd(2, bit, 32 * pos);
    PowAdd(2, bit + 1, 32 * pos);
    var p, w: nat := Pow(2, 32 * pos), s[pos];
    MulMono(Pow(2, bit), w, p);
    MulMono(w + 1, Pow(2, bit + 1), p);
    assert (w + 1) * p == w * p + p;
  }
}
