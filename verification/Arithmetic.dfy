/** Powers of a natural number, and facts about products and remainders that the codecs and the integers need. */
module Arithmetic {

  const WIDE: nat := 0x1_0000_0000_0000_0000  // one more than the largest 64-bit number

  function Max(x: int, y: int): int { if x < y then y else x }

  function Min(x: int, y: int): int { if x < y then x else y }

  function Pow(b: nat, e: nat): nat {
    if e == 0 then 1 else b * Pow(b, e - 1)
  }

  lemma {:induction false} PowAdd(b: nat, m: nat, n: nat)
    ensures Pow(b, m + n) == Pow(b, m) * Pow(b, n)
  {
    if m > 0 {
      PowAdd(b, m - 1, n);
      assert Pow(b, m + n) == b * (Pow(b, m - 1) * Pow(b, n));
      assert b * (Pow(b, m - 1) * Pow(b, n)) == (b * Pow(b, m - 1)) * Pow(b, n);
    }
  }

  lemma {:induction false} PowPositive(b: nat, e: nat)
    requires b > 0
    ensures Pow(b, e) > 0
  {
    if e > 0 {
      PowPositive(b, e - 1);
      assert b * Pow(b, e - 1) > 0;
    }
  }

  lemma {:induction false} PowGrows(b: nat, m: nat, n: nat)
    requires b > 0 && m <= n
    ensures Pow(b, m) <= Pow(b, n)
  {
    PowAdd(b, m, n - m);
    PowPositive(b, n - m);
    PowPositive(b, m);
    assert Pow(b, m) * Pow(b, n - m) >= Pow(b, m) * 1;
  }

  /** A product under a name, for proofs in which products are not to be taken apart. */
  function Times(a: nat, b: nat): nat { a * b }

  lemma MulMono(a: nat, b: nat, c: nat)
    requires a <= b
    ensures a * c <= b * c
  {
  }

  lemma MulSwap(a: nat, b: nat, c: nat)
    ensures a * (b * c) == b * (a * c)
  {
  }

  lemma MulAssoc(a: int, b: int, c: int)
    ensures a * (b * c) == (a * b) * c
  {
  }

  lemma MulDistribute(a: int, b: int, c: int)
    ensures a * b + a * c == a * (b + c)
  {
  }

  /** A remainder is the one number below the modulus that differs by a multiple of it. */
  lemma ModUnique(v: nat, q: int, m: nat, total: int)
    requires m > 0 && v < m && v + q * m == total
    ensures total % m == v && total / m == q
  {
    var r, d := total % m, total / m;
    assert total == d * m + r;
    assert (q - d) * m == q * m - d * m;
    Multiple(q - d, m);
  }

  lemma Multiple(e: int, m: nat)
    ensures e >= 1 ==> e * m >= m
    ensures e <= -1 ==> e * m <= 0 - m
  {
    if e >= 1 {
      MulMono(1, e, m);
    } else if e <= -1 {
      MulMono(1, -e, m);
      assert (-e) * m == -(e * m);
    }
  }

  lemma DivDiv(v: nat, a: nat, b: nat)
    requires a > 0 && b > 0
    ensures a * b > 0 && v / (a * b) == (v / a) / b
  {
    MulMono(1, b, a);
    var q := v / a;
    Nested(v, a, b, q, v % a, q / b, q % b);
  }

  lemma Nested(v: nat, a: nat, b: nat, q: nat, r: nat, q2: nat, r2: nat)
    requires a * b > 0 && v == a * q + r && q == b * q2 + r2 && r < a && r2 < b
    ensures v / (a * b) == q2
  {
    assert a * (b * q2 + r2) == a * (b * q2) + a * r2 by { MulDistribute(a, b * q2, r2); }
    assert a * (b * q2) == q2 * (a * b) by { MulSwap(q2, a, b); }
    MulMono(r2 + 1, b, a);
    assert (r2 + 1) * a == a * r2 + a;
    ModUnique(a * r2 + r, q2, a * b, v);
  }

  lemma Remainder(p: nat, q: nat)
    requires p > 0
    ensures (p * q) % p == 0 && (p * q) / p == q
  {
    assert 0 + q * p == p * q;
    ModUnique(0, q, p, p * q);
  }

  lemma DivBelow(v: nat, m: nat, b: nat)
    requires m > 0 && v < b * m
    ensures v / m < b
  {
    assert v == m * (v / m) + v % m;
    if v / m >= b {
      MulMono(b, v / m, m);
    }
  }

  lemma DivAtLeast(v: nat, m: nat, b: nat)
    requires m > 0 && v >= b * m
    ensures v / m >= b
  {
    assert v < (v / m + 1) * m by { assert v == m * (v / m) + v % m; }
    if v / m < b {
      MulMono(v / m + 1, b, m);
    }
  }

  lemma DivMono(v: nat, w: nat, p: nat)
    requires v <= w && p > 0
    ensures v / p <= w / p
  {
    assert w < (w / p + 1) * p by { assert w == p * (w / p) + w % p; }
    DivBelow(v, p, w / p + 1);
  }
}
