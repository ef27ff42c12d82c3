/**
 Division by aligning the divisor with the dividend, then shifting it back one bit at a time and subtracting where it
 fits.
 */
module UIntDiv {
  import opened Arithmetic
  import opened Bits
  import opened Words
  import opened UInt
  import opened UIntShift
  import opened UIntMul

  lemma ValUpdate(s: seq<Word>, k: nat, w: Word)
    requires k < |s|
    ensures Val(s[k := w]) + Times(s[k], Pow(BASE, k)) == Val(s) + Times(w, Pow(BASE, k))
  {
    hide Pow, Val, Times;
    var t := s[k := w];
    ValHalves(s, k + 1);
    ValHalves(t, k + 1);
    assert t[k + 1..] == s[k + 1..] && t[..k] == s[..k];
    ValStep(s, k);
    ValStep(t, k);
  }

  // ----- setting one bit of the quotient

  lemma LowWordDivisible(hi: nat, w: nat, rest: nat, p: nat, q: nat, m: nat)
    requires p > 0 && hi == p * m && hi == w + BASE * rest && BASE == p * q
    ensures w % p == 0
  {
    assert w == p * m - p * (q * rest) by { MulAssoc(p, q, rest); }
    assert w == p * (m - q * rest) by { assert p * (m - q * rest) == p * m - p * (q * rest); }
    ModUnique(0, m - q * rest, p, w);
  }

  lemma HighPart(v: nat, lo: nat, hi: nat, b: nat, p: nat)
    requires b > 0 && p > 0 && v == lo + b * hi && lo < b && v % (p * b) == 0 && p * b > 0
    ensures hi == p * (v / (p * b))
  {
    var m := v / (p * b);
    assert v == (p * b) * m;
    assert (p * b) * m == (p * m) * b by { MulAssoc(m, p, b); }
    ModUnique(0, p * m, b, v);
    ModUnique(lo, hi, b, v);
  }

  /** A word of the quotient whose bits up to `t` are still clear. */
  lemma ClearBits(s: seq<Word>, shift: nat)
    requires shift / 32 < |s| && Pow(2, shift + 1) > 0 && Val(s) % Pow(2, shift + 1) == 0
    ensures Pow(2, shift % 32 + 1) > 0 && s[shift / 32] % Pow(2, shift % 32 + 1) == 0
  {
    hide Pow, Val;
    var k, t := shift / 32, shift % 32;
    var p, b := Pow(2, t + 1), Pow(BASE, k);
    PowPositive(2, t + 1);
    PowPositive(BASE, k);
    WordsArePow(k);
    PowAdd(2, t + 1, 32 * k);
    ValSplit(s, k);
    LowBound(s, k);
    HighPart(Val(s), Val(s[..k]), Val(s[k..]), b, p);
    TopWord(s[k..]);
    BaseIsPow(t + 1);
    LowWordDivisible(Val(s[k..]), s[k], Val(s[k..][1..]), p, Pow(2, 32 - (t + 1)), Val(s) / (p * b));
  }

  lemma TopWord(s: seq<Word>)
    requires s != []
    ensures Val(s) == s[0] + BASE * Val(s[1..])
  {
    ValSplit(s, 1);
    assert s[..1] == [s[0]] && [s[0]][..0] == [];
    assert Pow(BASE, 0) == 1 && Pow(BASE, 1) == BASE * Pow(BASE, 0);
  }

  lemma SetBit(s: seq<Word>, shift: nat)
    requires shift / 32 < |s| && Pow(2, shift + 1) > 0 && Val(s) % Pow(2, shift + 1) == 0
    ensures var w := Or(s[shift / 32], Pow(2, shift % 32));
        w < BASE && Val(s[shift / 32 := w]) == Val(s) + Pow(2, shift)
  {
    hide Pow, Val, Or, Times;
    var k, t := shift / 32, shift % 32;
    ClearBits(s, shift);
    PowPositive(2, t);
    TwicePow(t);
    OrDisjoint(s[k], Pow(2, t), t + 1);
    BaseIsPow(t + 1);
    Room(s[k] / Pow(2, t + 1), Pow(2, t), Pow(2, t + 1), Pow(2, 32 - (t + 1)));
    ValUpdate(s, k, s[k] + Pow(2, t));
    BitValue(s[k], shift);
  }

  lemma TwicePow(t: nat)
    ensures Pow(2, t + 1) == 2 * Pow(2, t)
  {
  }

  lemma BitValue(w: nat, shift: nat)
    ensures Times(w + Pow(2, shift % 32), Pow(BASE, shift / 32)) == Times(w, Pow(BASE, shift / 32)) + Pow(2, shift)
  {
    hide Pow;
    ShiftSplits(shift);
    var b, c := Pow(BASE, shift / 32), Pow(2, shift % 32);
    assert (w + c) * b == w * b + c * b;
  }

  // ----- one step of the division

  /**
   The dividend is the quotient so far times the divisor plus what is left, which is below the divisor shifted one
   further.
   */
  ghost predicate Dividing(n: nat, d: nat, left: nat, q: nat, shift: nat) {
    && left + Times(q, d) == n && left < Times(d, Pow(2, shift))
    && Pow(2, shift) > 0 && q % Pow(2, shift) == 0
  }

  lemma Fits(n: nat, d: nat, left: nat, q: nat, shift: nat)
    requires Dividing(n, d, left, q, shift + 1) && left >= Times(d, Pow(2, shift))
    ensures Dividing(n, d, left - Times(d, Pow(2, shift)), q + Pow(2, shift), shift)
  {
    hide Pow;
    TwicePow(shift);
    PowPositive(2, shift);
    var p := Pow(2, shift);
    assert (q + p) * d == q * d + d * p;
    assert d * (2 * p) == 2 * (d * p);
    Halved(q, p);
  }

  lemma DoesNotFit(n: nat, d: nat, left: nat, q: nat, shift: nat)
    requires Dividing(n, d, left, q, shift + 1) && left < Times(d, Pow(2, shift))
    ensures Dividing(n, d, left, q, shift)
  {
    hide Pow;
    TwicePow(shift);
    PowPositive(2, shift);
    Halved(q, Pow(2, shift));
  }

  lemma Halved(q: nat, p: nat)
    requires p > 0 && q % (2 * p) == 0
    ensures q % p == 0 && (q + p) % p == 0
  {
    var m := q / (2 * p);
    assert q == (2 * m) * p by { assert q == (2 * p) * m; MulAssoc(m, 2, p); }
    ModUnique(0, 2 * m, p, q);
    assert (2 * m + 1) * p == q + p;
    ModUnique(0, 2 * m + 1, p, q + p);
  }

  lemma Starts(n: nat, d: nat, nBits: nat, dBits: nat)
    requires IsLength(n, nBits) && IsLength(d, dBits) && 0 < dBits <= nBits
    ensures Dividing(n, d, n, 0, nBits - dBits + 1) && Times(d, Pow(2, nBits - dBits)) < Pow(2, nBits)
  {
    hide Pow;
    var s := nBits - dBits;
    PowPositive(2, s);
    PowPositive(2, s + 1);
    PowAdd(2, dBits - 1, s + 1);
    PowAdd(2, dBits, s);
    MulMono(Pow(2, dBits - 1), d, Pow(2, s + 1));
    Below(d, Pow(2, dBits), Pow(2, s));
  }

  lemma Ends(n: nat, d: nat, left: nat, q: nat)
    requires Dividing(n, d, left, q, 0)
    ensures d > 0 && q == n / d
  {
    PowZero();
    ModUnique(left, q, d, n);
  }

  lemma ShiftsBack(d: nat, shift: nat)
    requires shift > 0
    ensures Pow(2, 1) > 0 && Times(d, Pow(2, shift)) / Pow(2, 1) == Times(d, Pow(2, shift - 1))
  {
    TwicePow(shift - 1);
    assert Pow(2, 1) == 2 * Pow(2, 0);
    assert d * (2 * Pow(2, shift - 1)) == 2 * (d * Pow(2, shift - 1));
  }

  lemma LengthZero(v: nat, n: nat)
    requires IsLength(v, n)
    ensures n == 0 <==> v == 0
  {
    PowZero();
    if n > 0 {
      PowPositive(2, n - 1);
    }
  }

  /** Fewer bits than the divisor: the quotient is zero. */
  lemma Shorter(n: nat, d: nat, nBits: nat, dBits: nat)
    requires IsLength(n, nBits) && IsLength(d, dBits) && dBits > nBits
    ensures d > 0 && n / d == 0
  {
    PowGrows(2, nBits, dBits - 1);
    assert 0 * d == 0;
    ModUnique(n, 0, d, n);
  }

  lemma Aligned(d: nat, shift: nat, nBits: nat, width: nat)
    requires Times(d, Pow(2, shift)) < Pow(2, nBits) && nBits <= 32 * width
    ensures (d * Pow(2, shift)) % Limit(width) == Times(d, Pow(2, shift))
  {
    WordsArePow(width);
    PowGrows(2, nBits, 32 * width);
    var v := d * Pow(2, shift);
    assert 0 * Limit(width) == 0;
    ModUnique(v, 0, Limit(width), v);
  }

  lemma Difference(x: nat, y: nat, s: seq<Word>)
    requires y <= x < Limit(|s|)
    ensures (x - y) % Limit(|s|) == x - y
  {
    assert 0 * Limit(|s|) == 0;
    ModUnique(x - y, 0, Limit(|s|), x - y);
  }

  method Copy(b: array<Word>) returns (c: array<Word>)
    ensures fresh(c) && c[..] == b[..]
  {
    c := new Word[b.Length](i requires 0 <= i < b.Length reads b => b[i]);
  }

  /** The floor of the quotient; dividing by zero fails, and has cleared the dividend by then. */
  method Divide(pn: array<Word>, b: array<Word>) returns (ok: bool)
    requires pn.Length == b.Length > 0
    modifies pn
    ensures ok <==> old(Val(b[..])) != 0
    ensures if ok then Val(pn[..]) == old(Val(pn[..])) / old(Val(b[..])) else Val(pn[..]) == 0
  {
    hide Pow, Val, Limit, IsLength, Dividing, Or, Times;
    var div := Copy(b);
    var num := TakeOut(pn);
    ghost var n, d := Val(num[..]), Val(div[..]);
    ValZero(pn[..]);
    var numBits := BitLength(num);
    var divBits := BitLength(div);
    LengthZero(d, divBits);
    if divBits == 0 {
      return false;
    }
    if divBits > numBits {
      Shorter(n, d, numBits, divBits);
      return true;
    }
    Starts(n, d, numBits, divBits);
    Aligned(d, numBits - divBits, numBits, pn.Length);
    Subtracting(pn, num, div, n, d, numBits - divBits);
    Ends(n, d, Val(num[..]), Val(pn[..]));
    return true;
  }

  method Subtracting(pn: array<Word>, num: array<Word>, div: array<Word>, ghost n: nat, ghost d: nat, top: nat)
    requires pn.Length == num.Length == div.Length > 0 && pn != num && pn != div && num != div && top / 32 < pn.Length
    requires Val(div[..]) == d && (d * Pow(2, top)) % Limit(pn.Length) == Times(d, Pow(2, top))
        && Dividing(n, d, Val(num[..]), Val(pn[..]), top + 1)
    modifies pn, num, div
    ensures Dividing(n, d, Val(num[..]), Val(pn[..]), 0)
  {
    hide Pow, Val, Limit, Dividing, Or, Times;
    var shift: int := top;
    ShiftLeft(div, shift);
    while shift >= 0
      invariant -1 <= shift <= top
      invariant shift >= 0 ==> Val(div[..]) == Times(d, Pow(2, shift))
      invariant Dividing(n, d, Val(num[..]), Val(pn[..]), shift + 1)
    {
      ghost var left, q := Val(num[..]), Val(pn[..]);
      var c := CompareTo(num, div);
      if c >= 0 {
        Fits(n, d, left, q, shift);
        InRange(num[..]);
        Difference(left, Times(d, Pow(2, shift)), num[..]);
        Subtract(num, div);
        Divisible(n, d, left, q, shift + 1);
        SetBit(pn[..], shift);
        ghost var before := pn[..];
        pn[shift / 32] := Or(pn[shift / 32], Pow(2, shift % 32));
        assert pn[..] == before[shift / 32 := pn[shift / 32]];
      } else {
        DoesNotFit(n, d, left, q, shift);
      }
      if shift > 0 {
        ShiftsBack(d, shift);
      }
      ShiftRight(div, 1);
      shift := shift - 1;
    }
  }

  lemma InRange(s: seq<Word>)
    ensures Val(s) < Limit(|s|)
  {
    ValBound(s);
  }

  lemma Divisible(n: nat, d: nat, left: nat, q: nat, shift: nat)
    requires Dividing(n, d, left, q, shift)
    ensures Pow(2, shift) > 0 && q % Pow(2, shift) == 0
  {
  }
}
