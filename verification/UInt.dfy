/**
 Unsigned integers of any fixed number of words, changed in place.  The two operands of an operation may
 be the same object.  Intermediate results are 64 bits wide in the source, so each is shown to fit.
 */
module UInt {
  import opened Arithmetic
  import opened Bits
  import opened Words

  lemma FinalCarry(s: seq<Word>, carry: nat, total: nat)
    requires Val(s) + carry * Limit(|s|) == total
    ensures Val(s) == total % Limit(|s|)
  {
    ValBound(s);
    PowPositive(BASE, |s|);
    ModUnique(Val(s), carry, Limit(|s|), total);
  }

  /** Writing word `i` leaves the number below it as it was. */
  lemma Written(before: seq<Word>, after: seq<Word>, i: nat)
    requires |before| == |after| && i < |after| && forall k | 0 <= k < i :: after[k] == before[k]
    ensures Val(after[..i + 1]) == Val(before[..i]) + after[i] * Pow(BASE, i)
  {
    assert after[..i] == before[..i];
    ValNext(after, i);
  }

  // ----- addition, negation, subtraction

  lemma AddStep(lo: nat, carry: nat, vx: nat, vy: nat, x: nat, y: nat, p: nat)
    requires lo + carry * p == vx + vy
    ensures (lo + ((carry + x + y) % BASE) * p) + ((carry + x + y) / BASE) * (BASE * p) == (vx + x * p) + (vy + y * p)
  {
    CutAndCarry(carry + x + y, p);
    assert (carry + x + y) * p == carry * p + x * p + y * p;
  }

  method Add(pn: array<Word>, b: array<Word>)
    requires pn.Length == b.Length
    modifies pn
    ensures Val(pn[..]) == (old(Val(pn[..])) + old(Val(b[..]))) % Limit(pn.Length)
  {
    hide Pow;
    ghost var x, y := pn[..], b[..];
    var carry: nat := 0;
    for i := 0 to pn.Length
      invariant forall k | i <= k < pn.Length :: pn[k] == x[k] && b[k] == y[k]
      invariant carry <= 1 && Val(pn[..][..i]) + carry * Pow(BASE, i) == Val(x[..i]) + Val(y[..i])
    {
      ghost var before := pn[..];
      var n := carry + pn[i] + b[i];
      assert n < WIDE;
      AddStep(Val(pn[..][..i]), carry, Val(x[..i]), Val(y[..i]), x[i], y[i], Pow(BASE, i));
      pn[i] := n % BASE;
      carry := n / BASE;
      Written(before, pn[..], i);
      ValNext(x, i);
      ValNext(y, i);
      PowNext(i);
    }
    assert pn[..][..pn.Length] == pn[..] && x[..pn.Length] == x && y[..pn.Length] == y;
    FinalCarry(pn[..], carry, Val(x) + Val(y));
  }

  lemma PowNext(i: nat)
    ensures Pow(BASE, i + 1) == BASE * Pow(BASE, i)
  {
  }

  method Increment(pn: array<Word>)
    requires pn.Length > 0
    modifies pn
    ensures Val(pn[..]) == (old(Val(pn[..])) + 1) % Limit(pn.Length)
  {
    hide Pow;
    ghost var x := pn[..];
    var i := 0;
    pn[0] := (pn[0] + 1) % BASE;
    while pn[i] == 0 && i < pn.Length - 1
      invariant 0 <= i < pn.Length
      invariant forall k | i < k < pn.Length :: pn[k] == x[k]
      invariant forall k | 0 <= k < i :: pn[k] == 0 && x[k] == BASE - 1
      invariant pn[i] == (x[i] + 1) % BASE
    {
      i := i + 1;
      pn[i] := (pn[i] + 1) % BASE;
    }
    Ripple(pn[..], x, i, BASE - 1);
    RippleEnds(pn[..], x, i);
  }

  lemma {:induction false} ValTop(s: seq<Word>, i: nat)
    requires i <= |s| && forall k | 0 <= k < i :: s[k] == BASE - 1
    ensures Val(s[..i]) + 1 == Pow(BASE, i)
  {
    if i > 0 {
      ValTop(s, i - 1);
      ValNext(s, i - 1);
      assert (BASE - 1) * Pow(BASE, i - 1) + Pow(BASE, i - 1) == BASE * Pow(BASE, i - 1);
    }
  }

  /** Below word `i` all words of one number are zero and all words of the other are `w`. */
  lemma Ripple(zeros: seq<Word>, s: seq<Word>, i: nat, w: Word)
    requires i < |s| == |zeros| && w == BASE - 1
    requires forall k | 0 <= k < i :: zeros[k] == 0 && s[k] == w
    requires forall k | i < k < |s| :: zeros[k] == s[k]
    ensures Val(zeros) == zeros[i] * Pow(BASE, i) + Pow(BASE, i + 1) * Val(s[i + 1..])
    ensures Val(s) == Pow(BASE, i) - 1 + s[i] * Pow(BASE, i) + Pow(BASE, i + 1) * Val(s[i + 1..])
  {
    hide Pow;
    ValSplit(zeros, i + 1);
    ValSplit(s, i + 1);
    assert zeros[i + 1..] == s[i + 1..];
    ValNext(zeros, i);
    ValNext(s, i);
    ValZero(zeros[..i]);
    ValTop(s, i);
  }

  lemma RippleEnds(r: seq<Word>, x: seq<Word>, i: nat)
    requires i < |x| == |r|
    requires Val(r) == r[i] * Pow(BASE, i) + Pow(BASE, i + 1) * Val(x[i + 1..])
    requires Val(x) == Pow(BASE, i) - 1 + x[i] * Pow(BASE, i) + Pow(BASE, i + 1) * Val(x[i + 1..])
    requires r[i] == (x[i] + 1) % BASE && (r[i] == 0 ==> i == |x| - 1)
    ensures Val(r) == (Val(x) + 1) % Limit(|x|)
  {
    hide Pow, Val;
    var p, w: nat, high := Pow(BASE, i), x[i], Pow(BASE, i + 1) * Val(x[i + 1..]);
    OneMore(w, p);
    PowNext(i);
    if w + 1 < BASE {
      FinalCarry(r, 0, Val(x) + 1);
    } else {
      OneMore(BASE - 1, p);
      assert x[i + 1..] == [];
      NoWords();
      FinalCarry(r, 1, Val(x) + 1);
    }
  }

  lemma OneMore(w: nat, p: nat)
    ensures (w + 1) * p == w * p + p
  {
  }

  lemma NoWords()
    ensures Val([]) == 0
  {
  }

  method Decrement(pn: array<Word>)
    requires pn.Length > 0
    modifies pn
    ensures Val(pn[..]) == (old(Val(pn[..])) + Limit(pn.Length) - 1) % Limit(pn.Length)
  {
    hide Pow, Val;
    ghost var x := pn[..];
    var i := 0;
    pn[0] := (pn[0] + BASE - 1) % BASE;
    while pn[i] == BASE - 1 && i < pn.Length - 1
      invariant 0 <= i < pn.Length
      invariant forall k | i < k < pn.Length :: pn[k] == x[k]
      invariant forall k | 0 <= k < i :: pn[k] == BASE - 1 && x[k] == 0
      invariant pn[i] == (x[i] + BASE - 1) % BASE
    {
      i := i + 1;
      pn[i] := (pn[i] + BASE - 1) % BASE;
    }
    Ripple(x, pn[..], i, BASE - 1);
    assert pn[..][i + 1..] == x[i + 1..];
    RippleBack(pn[..], x, i);
  }

  lemma RippleBack(r: seq<Word>, x: seq<Word>, i: nat)
    requires i < |x| == |r|
    requires Val(x) == x[i] * Pow(BASE, i) + Pow(BASE, i + 1) * Val(x[i + 1..])
    requires Val(r) == Pow(BASE, i) - 1 + r[i] * Pow(BASE, i) + Pow(BASE, i + 1) * Val(x[i + 1..])
    requires r[i] == (x[i] + BASE - 1) % BASE && (r[i] == BASE - 1 ==> i == |x| - 1)
    ensures Val(r) == (Val(x) + Limit(|x|) - 1) % Limit(|x|)
  {
    hide Pow, Val;
    var p, w: nat := Pow(BASE, i), x[i];
    PowNext(i);
    if w > 0 {
      OneMore(w - 1, p);
      FinalCarry(r, 1, Val(x) + Limit(|x|) - 1);
    } else {
      OneMore(BASE - 1, p);
      assert x[i + 1..] == [];
      NoWords();
      FinalCarry(r, 0, Val(x) + Limit(|x|) - 1);
    }
  }

  method Negate(b: array<Word>) returns (r: array<Word>)
    requires b.Length > 0
    ensures fresh(r) && r.Length == b.Length
    ensures Val(r[..]) == (Limit(b.Length) - Val(b[..])) % Limit(b.Length)
  {
    hide Pow;
    r := new Word[b.Length];
    for i := 0 to b.Length
      invariant forall k | 0 <= k < i :: r[k] == BASE - 1 - b[k]
    {
      r[i] := BASE - 1 - b[i];
    }
    Complement(r[..], b[..]);
    Increment(r);
    assert Limit(b.Length) - 1 - Val(b[..]) + 1 == Limit(b.Length) - Val(b[..]);
  }

  lemma {:induction false} Complement(r: seq<Word>, b: seq<Word>)
    requires |r| == |b| && forall k | 0 <= k < |b| :: r[k] == BASE - 1 - b[k]
    ensures Val(r) + Val(b) + 1 == Limit(|b|)
  {
    if b != [] {
      var n := |b| - 1;
      Complement(r[..n], b[..n]);
      assert r[n] * Pow(BASE, n) + b[n] * Pow(BASE, n) == (BASE - 1) * Pow(BASE, n);
      assert (BASE - 1) * Pow(BASE, n) + Pow(BASE, n) == BASE * Pow(BASE, n);
    }
  }

  method Subtract(pn: array<Word>, b: array<Word>)
    requires pn.Length == b.Length > 0
    modifies pn
    ensures Val(pn[..]) == (old(Val(pn[..])) - old(Val(b[..]))) % Limit(pn.Length)
  {
    hide Pow, Val, Limit;
    ghost var x, y := Val(pn[..]), Val(b[..]);
    var minus := Negate(b);
    Add(pn, minus);
    SubtractExact(x, y, Limit(pn.Length));
  }

  lemma SubtractExact(x: nat, y: nat, m: nat)
    requires m > 0
    ensures (x + (m - y) % m) % m == (x - y) % m
  {
    var z, q := (m - y) % m, (m - y) / m;
    var v, c := (x + z) % m, (x + z) / m;
    assert v + (c + q - 1) * m == x - y by {
      assert m - y == q * m + z && x + z == c * m + v;
      assert (c + q - 1) * m == c * m + q * m - m;
    }
    ModUnique(v, c + q - 1, m, x - y);
  }
}
