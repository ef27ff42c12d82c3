/**
 Shifts by any distance, as the source assembles them: each word is split and its halves are joined into the result.
 */
module UIntShift {
  import opened Arithmetic
  import opened Bits
  import opened Words

  function Shl(w: Word, s: nat): (r: Word) {
    (w * Pow(2, s)) % BASE
  }

  function Shr(w: Word, s: nat): (r: Word)
  {
    PowPositive(2, s);
    ShrinksDiv(w, Pow(2, s));
    w / Pow(2, s)
  }

  lemma ShrinksDiv(a: nat, b: nat)
    requires b > 0
    ensures a / b <= a
  {
    assert a == b * (a / b) + a % b;
    MulMono(1, b, a / b);
  }

  lemma BaseIsPow(s: nat)
    requires s <= 32
    ensures BASE == Pow(2, 32) == Pow(2, s) * Pow(2, 32 - s)
  {
    PowAdd(2, s, 32 - s);
    assert Pow(2, 32) == BASE by { assert Pow(2, 8) == 256; PowAdd(2, 8, 8); PowAdd(2, 16, 16); }
  }

  lemma {:induction false} WordsArePow(k: nat)
    ensures Pow(BASE, k) == Pow(2, 32 * k)
  {
    if k > 0 {
      WordsArePow(k - 1);
      PowAdd(2, 32, 32 * (k - 1));
      BaseIsPow(0);
    }
  }

  /** A shift distance is so many words and so many bits. */
  lemma ShiftSplits(shift: nat)
    ensures Pow(2, shift) == Pow(2, shift % 32) * Pow(BASE, shift / 32)
  {
    WordsArePow(shift / 32);
    PowAdd(2, shift % 32, 32 * (shift / 32));
  }

  /** The two halves of a word shifted left by less than a word. */
  lemma Halves(w: Word, s: nat)
    requires s < 32
    ensures w * Pow(2, s) == Shl(w, s) + (if s == 0 then 0 else Shr(w, 32 - s)) * BASE
    ensures Pow(2, s) > 0 && Shl(w, s) % Pow(2, s) == 0 && (s > 0 ==> Shr(w, 32 - s) < Pow(2, s))
  {
    hide Pow;
    var p, q := Pow(2, s), Pow(2, 32 - s);
    PowPositive(2, s);
    PowPositive(2, 32 - s);
    BaseIsPow(s);
    PowZero();
    if s > 0 {
      var h, l := w / q, w % q;
      assert w == q * h + l;
      assert w * p == (l * p) + h * (p * q) by { assert (q * h + l) * p == l * p + h * (p * q); }
      assert l * p < p * q by { Below(l, q, p); }
      ModUnique(l * p, h, BASE, w * p);
      Remainder(p, l);
      assert h < p by { if h >= p { MulMono(p, h, q); assert false; } }
    }
  }

  lemma PowZero()
    ensures Pow(2, 0) == 1
  {
  }

  lemma Below(a: nat, b: nat, p: nat)
    requires a < b && p > 0
    ensures a * p < b * p
  {
    MulMono(a + 1, b, p);
    assert (a + 1) * p == a * p + p;
  }

  // ----- left

  function Low(a: seq<Word>, j: int, s: nat): Word {
    if 0 <= j < |a| then Shl(a[j], s) else 0
  }

  function High(a: seq<Word>, j: int, s: nat): (r: Word)
    requires s < 32
  {
    if 0 <= j < |a| && s != 0 then Shr(a[j], 32 - s) else 0
  }

  /** Word `j` of the result once words up to `i` of the argument have been placed. */
  ghost predicate Placed(r: seq<Word>, a: seq<Word>, k: nat, s: nat, i: nat)
    requires s < 32
  {
    |r| == |a| && forall j | 0 <= j < |r| ::
        r[j] == (if j - k < i then Low(a, j - k, s) else 0) + (if j - k - 1 < i then High(a, j - k - 1, s) else 0)
  }

  /** The two words that word `i` of the argument touches. */
  ghost predicate PlacedNext(r: seq<Word>, t: seq<Word>, a: seq<Word>, k: nat, s: nat, i: nat)
    requires s < 32 && i < |a| == |r|
  {
    && |t| == |r| && (forall j | 0 <= j < |r| && j != i + k && j != i + k + 1 :: t[j] == r[j])
    && (i + k + 1 < |a| ==> t[i + k + 1] == if s != 0 then Or(r[i + k + 1], Shr(a[i], 32 - s)) else r[i + k + 1])
    && (i + k < |a| ==> t[i + k] == Or(r[i + k], Shl(a[i], s)))
  }

  lemma PlacedStep(r: seq<Word>, a: seq<Word>, k: nat, s: nat, i: nat)
    requires s < 32 && i < |a| && Placed(r, a, k, s, i)
    ensures i + k + 1 < |a| ==> r[i + k + 1] == 0
    ensures i + k + 1 < |a| && s != 0 ==> Or(r[i + k + 1], Shr(a[i], 32 - s)) == High(a, i, s)
    ensures i + k < |a| ==> Or(r[i + k], Shl(a[i], s)) == Low(a, i, s) + High(a, i - 1, s) < BASE
  {
    hide Pow, Or, Shl, Shr;
    if i + k + 1 < |a| && s != 0 {
      OrZero(Shr(a[i], 32 - s));
    }
    if i + k < |a| {
      Halves(a[i], s);
      if i > 0 {
        Halves(a[i - 1], s);
      }
      assert r[i + k] == High(a, i - 1, s);
      OrDisjoint(Shl(a[i], s), r[i + k], s);
      FitsWord(a[i], s, r[i + k]);
    }
  }

  lemma PlacedNone(r: seq<Word>, a: seq<Word>, k: nat, s: nat)
    requires s < 32 && |r| == |a| && forall j | 0 <= j < |r| :: r[j] == 0
    ensures Placed(r, a, k, s, 0)
  {
  }

  lemma PlacedKeeps(r: seq<Word>, t: seq<Word>, a: seq<Word>, k: nat, s: nat, i: nat)
    requires s < 32 && i < |a| && Placed(r, a, k, s, i) && PlacedNext(r, t, a, k, s, i)
    ensures Placed(t, a, k, s, i + 1)
  {
    hide Pow, Or, Shl, Shr;
    PlacedStep(r, a, k, s, i);
  }

  lemma FitsWord(w: Word, s: nat, h: nat)
    requires s < 32 && Pow(2, s) > 0 && h < Pow(2, s)
    ensures Shl(w, s) + h < BASE
  {
    hide Pow, Shl;
    Halves(w, s);
    BaseIsPow(s);
    Room(Shl(w, s) / Pow(2, s), h, Pow(2, s), Pow(2, 32 - s));
  }

  lemma Room(m: nat, h: nat, p: nat, q: nat)
    requires p * m < p * q && h < p
    ensures p * m + h < p * q
  {
    if m >= q {
      MulMono(q, m, p);
    } else {
      MulMono(m + 1, q, p);
      assert (m + 1) * p == m * p + p;
    }
  }

  method ShiftLeft(pn: array<Word>, shift: nat)
    modifies pn
    ensures Val(pn[..]) == (old(Val(pn[..])) * Pow(2, shift)) % Limit(pn.Length)
  {
    hide Pow, Val, Placed, Limit;
    var a := TakeOut(pn);
    JoinLeft(pn, a, shift / 32, shift % 32);
    ShiftedLeft(pn[..], a[..], shift);
  }

  /** Copy the number and clear the original. */
  method TakeOut(pn: array<Word>) returns (a: array<Word>)
    modifies pn
    ensures fresh(a) && a[..] == old(pn[..]) && forall j | 0 <= j < pn.Length :: pn[j] == 0
  {
    ghost var x := pn[..];
    a := new Word[pn.Length](i requires 0 <= i < pn.Length reads pn => pn[i]);
    assert a[..] == x;
    for i := 0 to pn.Length
      invariant forall j | 0 <= j < i :: pn[j] == 0
      invariant a[..] == x
    {
      pn[i] := 0;
    }
  }

  method JoinLeft(pn: array<Word>, a: array<Word>, k: nat, s: nat)
    requires s < 32 && pn != a && pn.Length == a.Length && forall j | 0 <= j < pn.Length :: pn[j] == 0
    modifies pn
    ensures Placed(pn[..], a[..], k, s, a.Length)
  {
    hide Pow, Val, Shl, Shr, Or, High, Low, Placed;
    ghost var x := a[..];
    PlacedNone(pn[..], x, k, s);
    for i := 0 to pn.Length
      invariant a[..] == x
      invariant Placed(pn[..], x, k, s, i)
    {
      ghost var before := pn[..];
      PlacedStep(before, x, k, s, i);
      if i + k + 1 < pn.Length && s != 0 {
        pn[i + k + 1] := Or(pn[i + k + 1], Shr(a[i], 32 - s));
      }
      if i + k < pn.Length {
        pn[i + k] := Or(pn[i + k], Shl(a[i], s));
      }
      PlacedKeeps(before, pn[..], x, k, s, i);
    }
  }

  lemma {:induction false} PlacedValue(r: seq<Word>, a: seq<Word>, k: nat, s: nat, j: nat)
    requires s < 32 && Placed(r, a, k, s, |a|) && k + j <= |a|
    ensures Val(r[..k + j]) + Times(High(a, j - 1, s), Pow(BASE, k + j)) ==
        Times(Val(a[..j]), Times(Pow(2, s), Pow(BASE, k)))
  {
    hide Pow, Shl, Shr, Val;
    if j == 0 {
      ValZero(r[..k]);
      ValZero(a[..0]);
    } else {
      PlacedValue(r, a, k, s, j - 1);
      PlacedValueNext(r, a, k, s, j);
    }
  }

  lemma PlacedValueNext(r: seq<Word>, a: seq<Word>, k: nat, s: nat, j: nat)
    requires s < 32 && Placed(r, a, k, s, |a|) && k + j <= |a| && j > 0
    requires Val(r[..k + j - 1]) + Times(High(a, j - 2, s), Pow(BASE, k + j - 1)) ==
        Times(Val(a[..j - 1]), Times(Pow(2, s), Pow(BASE, k)))
    ensures Val(r[..k + j]) + Times(High(a, j - 1, s), Pow(BASE, k + j)) ==
        Times(Val(a[..j]), Times(Pow(2, s), Pow(BASE, k)))
  {
    hide Pow, Shl, Shr, Val, Times;
    var c: nat, h: nat, l: nat, w := High(a, j - 2, s), High(a, j - 1, s), Low(a, j - 1, s), a[j - 1];
    assert r[k + j - 1] == l + c;
    ValStep(r, k + j - 1);
    ValStep(a, j - 1);
    WordHalves(w, s);
    PowSum(k, j - 1);
    LeftStep(Val(r[..k + j - 1]), Val(a[..j - 1]), c, l, h, w, Pow(2, s), Pow(BASE, k), Pow(BASE, j - 1),
        Pow(BASE, k + j - 1));
  }

  lemma ValStep(s: seq<Word>, i: nat)
    requires i < |s|
    ensures Val(s[..i + 1]) == Val(s[..i]) + Times(s[i], Pow(BASE, i))
  {
    ValNext(s, i);
  }

  lemma WordHalves(w: Word, s: nat)
    requires s < 32
    ensures Times(w, Pow(2, s)) == Shl(w, s) + (if s == 0 then 0 else Shr(w, 32 - s)) * BASE
  {
    hide Pow, Shl, Shr;
    Halves(w, s);
  }

  lemma PowSum(m: nat, n: nat)
    ensures Pow(BASE, m + n) == Times(Pow(BASE, m), Pow(BASE, n)) && Pow(BASE, m + n + 1) == Pow(BASE, m + n) * BASE
  {
    PowAdd(BASE, m, n);
  }

  lemma PowOne()
    ensures Pow(BASE, 1) == BASE
  {
    assert Pow(BASE, 1) == BASE * Pow(BASE, 0);
  }

  lemma LeftStep(vr: nat, va: nat, c: nat, l: nat, h: nat, w: nat, p: nat, bk: nat, bj: nat, b: nat)
    requires vr + Times(c, b) == Times(va, Times(p, bk)) && Times(w, p) == l + h * BASE && b == Times(bk, bj)
    ensures (vr + Times(l + c, b)) + Times(h, b * BASE) == Times(va + Times(w, bj), Times(p, bk))
  {
    assert (l + c) * b == l * b + c * b;
    assert h * (b * BASE) == (h * BASE) * b;
    assert l * b + (h * BASE) * b == (w * p) * b;
    assert (w * p) * (bk * bj) == (w * bj) * (p * bk) by { Regroup(w, p, bk, bj); }
    assert (va + w * bj) * (p * bk) == va * (p * bk) + (w * bj) * (p * bk);
  }

  lemma Regroup(a: nat, b: nat, c: nat, d: nat)
    ensures (a * b) * (c * d) == (a * d) * (b * c)
  {
    assert (a * b) * (c * d) == a * (b * (c * d)) by { MulAssoc(a, b, c * d); }
    assert b * (c * d) == (b * c) * d by { MulAssoc(b, c, d); }
    assert a * ((b * c) * d) == (a * d) * (b * c) by { MulSwap(a, b * c, d); }
  }

  lemma ShiftedLeft(r: seq<Word>, a: seq<Word>, shift: nat)
    requires Placed(r, a, shift / 32, shift % 32, |a|)
    ensures Val(r) == (Val(a) * Pow(2, shift)) % Limit(|a|)
  {
    hide Pow, Placed, Val, Times;
    ShiftNamed(Val(a), shift);
    if shift / 32 <= |a| {
      ShiftedWithin(r, a, shift / 32, shift % 32);
    } else {
      ShiftedOut(r, a, shift / 32, shift % 32);
    }
  }

  lemma ShiftedWithin(r: seq<Word>, a: seq<Word>, k: nat, s: nat)
    requires s < 32 && Placed(r, a, k, s, |a|) && k <= |a|
    ensures Val(r) == Times(Val(a), Times(Pow(2, s), Pow(BASE, k))) % Limit(|a|)
  {
    hide Pow, Val, High, Low, Times, Limit, Placed;
    var n := |a|;
    PlacedWidth(r, a, k, s);
    PlacedValue(r, a, k, s, n - k);
    assert r[..k + (n - k)] == r;
    ValHalves(a, n - k);
    LimitSplit(n - k, k);
    ValBound(r);
    Wrapped(Val(r), High(a, n - k - 1, s), Val(a[..n - k]), Val(a[n - k..]), Pow(2, s), Pow(BASE, k), Pow(BASE, n - k),
        Limit(n));
  }

  lemma PlacedWidth(r: seq<Word>, a: seq<Word>, k: nat, s: nat)
    requires s < 32 && Placed(r, a, k, s, |a|)
    ensures |r| == |a|
  {
  }

  lemma LimitSplit(m: nat, k: nat)
    ensures Limit(m + k) == Times(Pow(BASE, m), Pow(BASE, k)) == Pow(BASE, m + k)
  {
    PowAdd(BASE, m, k);
  }

  lemma ShiftNamed(v: nat, shift: nat)
    ensures Times(v, Times(Pow(2, shift % 32), Pow(BASE, shift / 32))) == v * Pow(2, shift)
  {
    hide Pow;
    ShiftSplits(shift);
  }

  lemma ValHalves(s: seq<Word>, k: nat)
    requires k <= |s|
    ensures Val(s) == Val(s[..k]) + Times(Pow(BASE, k), Val(s[k..]))
  {
    ValSplit(s, k);
  }

  lemma ShiftedOut(r: seq<Word>, a: seq<Word>, k: nat, s: nat)
    requires s < 32 && Placed(r, a, k, s, |a|) && k > |a|
    ensures Val(r) == Times(Val(a), Times(Pow(2, s), Pow(BASE, k))) % Limit(|a|)
  {
    hide Pow, Val, Shl, Shr;
    ValZero(r);
    PowAdd(BASE, k - |a|, |a|);
    AllOut(Val(a), Pow(2, s), Pow(BASE, k - |a|), Limit(|a|));
  }

  lemma Wrapped(vr: nat, c: nat, lo: nat, hi: nat, p: nat, bk: nat, bn: nat, m: nat)
    requires m > 0 && vr < m && m == Times(bn, bk) && vr + Times(c, m) == Times(lo, Times(p, bk))
    ensures vr == Times(lo + Times(bn, hi), Times(p, bk)) % m
  {
    Overflow(lo, hi, p, bk, bn);
    assert (c + hi * p) * m == c * m + (hi * p) * m;
    ModUnique(vr, c + hi * p, m, (lo + bn * hi) * (p * bk));
  }

  lemma Overflow(lo: nat, hi: nat, p: nat, bk: nat, bn: nat)
    ensures (lo + bn * hi) * (p * bk) == lo * (p * bk) + (hi * p) * (bn * bk)
  {
    assert (lo + bn * hi) * (p * bk) == lo * (p * bk) + (bn * hi) * (p * bk);
    Regroup(hi, bn, p, bk);
    Regroup(hi, p, bn, bk);
  }

  lemma AllOut(v: nat, p: nat, x: nat, m: nat)
    requires m > 0
    ensures (v * (p * (x * m))) % m == 0
  {
    MulAssoc(p, x, m);
    MulAssoc(v, p * x, m);
    ModUnique(0, v * (p * x), m, v * (p * (x * m)));
  }

  // ----- right

  function Top(a: seq<Word>, j: int, s: nat): Word {
    if 0 <= j < |a| then Shr(a[j], s) else 0
  }

  function Fill(a: seq<Word>, j: int, s: nat): Word
    requires s < 32
  {
    if 0 <= j < |a| && s != 0 then Shl(a[j], 32 - s) else 0
  }

  function Lost(a: seq<Word>, j: int, s: nat): (r: nat) {
    PowPositive(2, s);
    if 0 <= j < |a| then a[j] % Pow(2, s) else 0
  }

  ghost predicate PlacedRight(r: seq<Word>, a: seq<Word>, k: nat, s: nat, i: nat)
    requires s < 32
  {
    |r| == |a| && forall j | 0 <= j < |r| ::
        r[j] == (if j + k < i then Top(a, j + k, s) else 0) + (if j + k + 1 < i then Fill(a, j + k + 1, s) else 0)
  }

  ghost predicate PlacedRightNext(r: seq<Word>, t: seq<Word>, a: seq<Word>, k: nat, s: nat, i: nat)
    requires s < 32 && i < |a| == |r|
  {
    && |t| == |r| && (forall j | 0 <= j < |r| && j != i - k && j != i - k - 1 :: t[j] == r[j])
    && (i - k - 1 >= 0 ==> t[i - k - 1] == if s != 0 then Or(r[i - k - 1], Shl(a[i], 32 - s)) else r[i - k - 1])
    && (i - k >= 0 ==> t[i - k] == Or(r[i - k], Shr(a[i], s)))
  }

  lemma RightHalves(w: Word, s: nat)
    requires s < 32
    ensures Pow(2, s) > 0 && w == Shr(w, s) * Pow(2, s) + w % Pow(2, s)
    ensures s > 0 ==> Shl(w, 32 - s) * Pow(2, s) == (w % Pow(2, s)) * BASE
    ensures s > 0 ==> Pow(2, 32 - s) > 0 && Shl(w, 32 - s) % Pow(2, 32 - s) == 0 && Shr(w, s) < Pow(2, 32 - s)
  {
    hide Pow, Shl;
    PowPositive(2, s);
    Quotient(w, Pow(2, s));
    if s > 0 {
      Halves(w, 32 - s);
      BaseIsPow(s);
      Cleared(w, Shr(w, s), w % Pow(2, s), Shl(w, 32 - s), Pow(2, s), Pow(2, 32 - s));
    }
  }

  lemma Quotient(w: nat, p: nat)
    requires p > 0
    ensures w == (w / p) * p + w % p
  {
  }

  lemma Cleared(w: nat, t: nat, rem: nat, l: nat, p: nat, q: nat)
    requires w == t * p + rem && BASE == p * q && w * q == l + t * BASE
    ensures l * p == rem * BASE
  {
    assert (t * p + rem) * q == t * (p * q) + rem * q by {
        assert (t * p + rem) * q == (t * p) * q + rem * q; MulAssoc(t, p, q); }
    assert l == rem * q;
    assert (rem * q) * p == rem * (p * q) by { MulAssoc(rem, q, p); }
  }

  lemma PlacedRightStep(r: seq<Word>, a: seq<Word>, k: nat, s: nat, i: nat)
    requires s < 32 && i < |a| && PlacedRight(r, a, k, s, i)
    ensures i - k >= 0 ==> r[i - k] == 0 && Or(r[i - k], Shr(a[i], s)) == Top(a, i, s)
    ensures i - k - 1 >= 0 && s != 0 ==> Or(r[i - k - 1], Shl(a[i], 32 - s)) == Top(a, i - 1, s) + Fill(a, i, s) < BASE
    ensures i - k - 1 >= 0 ==> r[i - k - 1] == Top(a, i - 1, s)
  {
    hide Pow, Or, Shl, Shr;
    if i - k >= 0 {
      OrZero(Shr(a[i], s));
    }
    if i - k - 1 >= 0 {
      assert r[i - k - 1] == Top(a, i - 1, s);
      if s != 0 {
        RightHalves(a[i], s);
        RightHalves(a[i - 1], s);
        OrDisjoint(Shl(a[i], 32 - s), r[i - k - 1], 32 - s);
        FitsWord(a[i], 32 - s, r[i - k - 1]);
      }
    }
  }

  lemma PlacedRightKeeps(r: seq<Word>, t: seq<Word>, a: seq<Word>, k: nat, s: nat, i: nat)
    requires s < 32 && i < |a| && PlacedRight(r, a, k, s, i) && PlacedRightNext(r, t, a, k, s, i)
    ensures PlacedRight(t, a, k, s, i + 1)
  {
    hide Pow, Or, Shl, Shr;
    PlacedRightStep(r, a, k, s, i);
  }

  lemma PlacedRightNone(r: seq<Word>, a: seq<Word>, k: nat, s: nat)
    requires s < 32 && |r| == |a| && forall j | 0 <= j < |r| :: r[j] == 0
    ensures PlacedRight(r, a, k, s, 0)
  {
  }

  method ShiftRight(pn: array<Word>, shift: nat)
    modifies pn
    ensures Pow(2, shift) > 0 && Val(pn[..]) == old(Val(pn[..])) / Pow(2, shift)
  {
    hide Pow, Val, PlacedRight;
    var a := TakeOut(pn);
    JoinRight(pn, a, shift / 32, shift % 32);
    ShiftedRight(pn[..], a[..], shift);
  }

  method JoinRight(pn: array<Word>, a: array<Word>, k: nat, s: nat)
    requires s < 32 && pn != a && pn.Length == a.Length && forall j | 0 <= j < pn.Length :: pn[j] == 0
    modifies pn
    ensures PlacedRight(pn[..], a[..], k, s, a.Length)
  {
    hide Pow, Val, Shl, Shr, Or, Top, Fill, PlacedRight;
    ghost var x := a[..];
    PlacedRightNone(pn[..], x, k, s);
    for i := 0 to pn.Length
      invariant a[..] == x
      invariant PlacedRight(pn[..], x, k, s, i)
    {
      ghost var before := pn[..];
      PlacedRightStep(before, x, k, s, i);
      if i - k - 1 >= 0 && s != 0 {
        pn[i - k - 1] := Or(pn[i - k - 1], Shl(a[i], 32 - s));
      }
      if i - k >= 0 {
        pn[i - k] := Or(pn[i - k], Shr(a[i], s));
      }
      PlacedRightKeeps(before, pn[..], x, k, s, i);
    }
  }

  lemma {:induction false} PlacedRightValue(r: seq<Word>, a: seq<Word>, k: nat, s: nat, j: nat)
    requires s < 32 && PlacedRight(r, a, k, s, |a|) && k + j <= |a|
    ensures Val(r[..j]) * Pow(2, s) + Lost(a, k, s) == Val(a[k..][..j]) + Lost(a, k + j, s) * Pow(BASE, j)
  {
    hide Pow, Shl, Shr, Val;
    if j == 0 {
      ValZero(r[..0]);
      ValZero(a[k..][..0]);
      BaseZero();
    } else {
      PlacedRightValue(r, a, k, s, j - 1);
      var w: nat, t: nat, c: nat := a[k + j - 1], Top(a, k + j - 1, s), Fill(a, k + j, s);
      assert r[j - 1] == t + c;
      ValNext(r, j - 1);
      ValNext(a[k..], j - 1);
      RightHalves(a[k + j - 1], s);
      assert c * Pow(2, s) == Lost(a, k + j, s) * BASE by { Filled(a, k + j, s); }
      PowBaseNext(j - 1);
      RightStep(Val(r[..j - 1]), Val(a[k..][..j - 1]), w, t, c, Lost(a, k + j - 1, s), Lost(a, k + j, s), Lost(a, k, s),
          Pow(2, s), Pow(BASE, j - 1));
    }
  }

  lemma Filled(a: seq<Word>, j: nat, s: nat)
    requires s < 32
    ensures Fill(a, j, s) * Pow(2, s) == Lost(a, j, s) * BASE
  {
    hide Pow, Shl;
    PowZero();
    if j < |a| {
      RightHalves(a[j], s);
    }
  }

  lemma BaseZero()
    ensures Pow(BASE, 0) == 1
  {
  }

  lemma PowBaseNext(i: nat)
    ensures Pow(BASE, i + 1) == BASE * Pow(BASE, i)
  {
  }

  lemma RightStep(vr: nat, va: nat, w: nat, t: nat, c: nat, lost: nat, next: nat, first: nat, p: nat, b: nat)
    requires vr * p + first == va + lost * b && w == t * p + lost && c * p == next * BASE
    ensures (vr + (t + c) * b) * p + first == (va + w * b) + next * (BASE * b)
  {
    assert (vr + (t + c) * b) * p == vr * p + ((t + c) * b) * p;
    assert ((t + c) * b) * p == (t * p) * b + (c * p) * b by { Spread(t, c, b, p); }
    assert (t * p + lost) * b == (t * p) * b + lost * b;
    assert (next * BASE) * b == next * (BASE * b) by { MulAssoc(next, BASE, b); }
  }

  lemma Spread(t: nat, c: nat, b: nat, p: nat)
    ensures ((t + c) * b) * p == (t * p) * b + (c * p) * b
  {
    assert ((t + c) * b) * p == (t + c) * (p * b) by { MulAssoc(t + c, b, p); }
    assert (t + c) * (p * b) == t * (p * b) + c * (p * b);
    MulAssoc(t, p, b);
    MulAssoc(c, p, b);
  }

  lemma ShiftedRight(r: seq<Word>, a: seq<Word>, shift: nat)
    requires PlacedRight(r, a, shift / 32, shift % 32, |a|)
    ensures Pow(2, shift) > 0 && Val(r) == Val(a) / Pow(2, shift)
  {
    hide Pow, PlacedRight, Val;
    ShiftSplits(shift);
    PowPositive(2, shift % 32);
    PowPositive(BASE, shift / 32);
    PowPositive(2, shift);
    if shift / 32 <= |a| {
      RightWithin(r, a, shift / 32, shift % 32);
    } else {
      RightOut(r, a, shift / 32, shift % 32);
    }
  }

  lemma RightWithin(r: seq<Word>, a: seq<Word>, k: nat, s: nat)
    requires s < 32 && PlacedRight(r, a, k, s, |a|) && k <= |a| && Pow(2, s) > 0 && Pow(BASE, k) > 0
        && Pow(2, s) * Pow(BASE, k) > 0
    ensures Val(r) == Val(a) / (Pow(2, s) * Pow(BASE, k))
  {
    hide Pow, Val, Shl, Shr, Limit;
    var m := |a| - k;
    ValZeroTail(r, a, k, s);
    PlacedRightValue(r, a, k, s, m);
    assert a[k..][..m] == a[k..];
    ValSplit(a, k);
    LowBound(a, k);
    RightFinal(Val(r), Lost(a, k, s), Val(a[k..]), Val(a[..k]), Pow(2, s), Pow(BASE, k));
  }

  lemma LowBound(a: seq<Word>, k: nat)
    requires k <= |a|
    ensures Val(a[..k]) < Pow(BASE, k)
  {
    ValBound(a[..k]);
  }

  lemma ValZeroTail(r: seq<Word>, a: seq<Word>, k: nat, s: nat)
    requires s < 32 && PlacedRight(r, a, k, s, |a|) && k <= |a|
    ensures Val(r) == Val(r[..|a| - k])
  {
    hide Pow, Val, Shl, Shr;
    ValSplit(r, |a| - k);
    ValZero(r[|a| - k..]);
    assert Pow(BASE, |a| - k) * 0 == 0;
  }

  lemma RightFinal(vr: nat, lost: nat, hi: nat, lo: nat, p: nat, b: nat)
    requires vr * p + lost == hi && lost < p && lo < b && p * b > 0
    ensures (lo + b * hi) / (p * b) == vr
  {
    ModUnique(lost, vr, p, hi);
    ModUnique(lo, hi, b, lo + b * hi);
    DivDiv(lo + b * hi, b, p);
    assert b * p == p * b;
  }

  lemma RightOut(r: seq<Word>, a: seq<Word>, k: nat, s: nat)
    requires s < 32 && PlacedRight(r, a, k, s, |a|) && k > |a| && Pow(2, s) > 0 && Pow(2, s) * Pow(BASE, k) > 0
    ensures Val(r) == Val(a) / (Pow(2, s) * Pow(BASE, k))
  {
    hide Pow, Val, Shl, Shr;
    ValZero(r);
    ValBound(a);
    PowGrows(BASE, |a|, k);
    MulMono(1, Pow(2, s), Pow(BASE, k));
    var d := Pow(2, s) * Pow(BASE, k);
    assert 0 * d == 0;
    ModUnique(Val(a), 0, d, Val(a));
  }
}
