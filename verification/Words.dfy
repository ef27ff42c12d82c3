/**
 Numbers written in words of 32 bits, lowest word first, and the arithmetic facts that carry from single
 words to whole numbers.
 */
module Words {
  import opened Arithmetic

  const BASE: nat := 0x1_0000_0000

  type Word = w: nat | w < 0x1_0000_0000

  /** The number that a sequence of words stands for. */
  function Val(s: seq<Word>): nat {
    if s == [] then 0 else Val(s[..|s| - 1]) + s[|s| - 1] * Pow(BASE, |s| - 1)
  }

  /** One more than the largest number of that many words. */
  function Limit(n: nat): (r: nat)
    ensures r > 0
  {
    PowPositive(BASE, n);
    Pow(BASE, n)
  }

  lemma ValNext(s: seq<Word>, i: nat)
    requires i < |s|
    ensures Val(s[..i + 1]) == Val(s[..i]) + s[i] * Pow(BASE, i)
  {
    assert s[..i + 1][..i] == s[..i];
  }

  lemma {:induction false} ValBound(s: seq<Word>)
    ensures Val(s) < Limit(|s|)
  {
    if s != [] {
      var n := |s| - 1;
      ValBound(s[..n]);
      var p, w := Pow(BASE, n), s[n];
      assert w * p <= (BASE - 1) * p by { MulMono(w, BASE - 1, p); }
      assert Pow(BASE, n + 1) == BASE * p;
      assert (BASE - 1) * p + p == BASE * p;
    }
  }

  lemma {:induction false} ValConcat(s: seq<Word>, t: seq<Word>)
    ensures Val(s + t) == Val(s) + Pow(BASE, |s|) * Val(t)
  {
    if t == [] {
      assert s + t == s;
    } else {
      var n := |t| - 1;
      ValConcat(s, t[..n]);
      assert (s + t)[..|s| + n] == s + t[..n];
      PowAdd(BASE, |s|, n);
      Factor(Pow(BASE, |s|), Pow(BASE, n), Val(t[..n]), t[n]);
    }
  }

  lemma Factor(p: nat, q: nat, v: nat, w: nat)
    ensures p * v + w * (p * q) == p * (v + w * q)
  {
    MulSwap(w, p, q);
    MulDistribute(p, v, w * q);
  }

  lemma ValSplit(s: seq<Word>, k: nat)
    requires k <= |s|
    ensures Val(s) == Val(s[..k]) + Pow(BASE, k) * Val(s[k..])
  {
    assert s == s[..k] + s[k..];
    ValConcat(s[..k], s[k..]);
  }

  lemma {:induction false} ValZero(s: seq<Word>)
    requires forall i | 0 <= i < |s| :: s[i] == 0
    ensures Val(s) == 0
  {
    if s != [] {
      ValZero(s[..|s| - 1]);
    }
  }

  lemma CutAndCarry(n: nat, p: nat)
    ensures (n % BASE) * p + (n / BASE) * (BASE * p) == n * p
  {
    var r, q := n % BASE, n / BASE;
    assert q * (BASE * p) == (q * BASE) * p by { MulAssoc(q, BASE, p); }
    assert r * p + (q * BASE) * p == (r + q * BASE) * p;
  }
}
