/**
 Amounts as they are stored, as if numbers had no width: trailing decimal zeros become an exponent, and a last digit
 that cannot be zero is stored in nine values.
 */
module Compressor {
  import opened Arithmetic

  /** How often an amount can be divided by ten, up to nine times. */
  function TrailingZeros(n: nat, cap: nat): (e: nat)
    ensures e <= cap
    decreases cap
  {
    if n > 0 && cap > 0 && n % 10 == 0 then 1 + TrailingZeros(n / 10, cap - 1) else 0
  }

  /**
   An amount with `e` zeros cut off, `m`, as one number: its last digit is stored only where it is known not to be zero.
   */
  function Packed(m: nat, e: nat): nat
    requires m > 0 && (e < 9 ==> m % 10 != 0)
  {
    if e < 9 then 1 + (m / 10 * 9 + m % 10 - 1) * 10 + e else 1 + (m - 1) * 10 + 9
  }

  function Unpacked(x: nat): (nat, nat)
    requires x > 0
  {
    var e, y := (x - 1) % 10, (x - 1) / 10;
    (if e < 9 then y / 9 * 10 + (y % 9 + 1) else y + 1, e)
  }

  lemma PackedInverse(m: nat, e: nat)
    requires m > 0 && e <= 9 && (e < 9 ==> m % 10 != 0)
    ensures Unpacked(Packed(m, e)) == (m, e)
  {
    if e < 9 {
      var q, d := m / 10, m % 10;
      var y := q * 9 + d - 1;
      ModUnique(e, y, 10, y * 10 + e);
      ModUnique(d - 1, q, 9, y);
    }
  }

  lemma UnpackedInverse(x: nat)
    requires x > 0
    ensures var (m, e) := Unpacked(x); m > 0 && e <= 9 && (e < 9 ==> m % 10 != 0) && Packed(m, e) == x
  {
    var e, y := (x - 1) % 10, (x - 1) / 10;
    if e < 9 {
      var m := y / 9 * 10 + (y % 9 + 1);
      assert m / 10 == y / 9 && m % 10 == y % 9 + 1;
    }
  }

  /** The stored form belongs to the amount: both zero, or the same digits and exponent. */
  ghost predicate Stores(n: nat, x: nat) {
    if n == 0 || x == 0 then n == x
    else var (m, e) := Unpacked(x); n == m * Pow(10, e)
  }

  lemma {:induction false} ZerosExact(m: nat, e: nat, cap: nat)
    requires m > 0 && e <= cap && (e < cap ==> m % 10 != 0)
    ensures m * Pow(10, e) > 0 && TrailingZeros(m * Pow(10, e), cap) == e
  {
    hide Pow;
    if e > 0 {
      ZerosExact(m, e - 1, cap - 1);
      TenFold(m, e - 1);
      OneMoreZero(m * Pow(10, e - 1), cap);
    } else {
      PowTen(0);
    }
  }

  lemma TenFold(m: nat, e: nat)
    ensures m * Pow(10, e + 1) == 10 * (m * Pow(10, e))
  {
    assert m * (10 * Pow(10, e)) == 10 * (m * Pow(10, e));
  }

  lemma OneMoreZero(n: nat, cap: nat)
    requires n > 0 && cap > 0
    ensures TrailingZeros(10 * n, cap) == 1 + TrailingZeros(n, cap - 1)
  {
  }

  /** Every amount has exactly one stored form. */
  lemma OneForm(n: nat, x: nat, y: nat)
    requires Stores(n, x) && Stores(n, y)
    ensures x == y
  {
    if n > 0 && x > 0 && y > 0 {
      UnpackedInverse(x);
      UnpackedInverse(y);
      var (m, e) := Unpacked(x);
      var (k, f) := Unpacked(y);
      ZerosExact(m, e, 9);
      ZerosExact(k, f, 9);
      PowPositive(10, e);
      Cancel(m, k, Pow(10, e));
    }
  }

  lemma Cancel(a: nat, b: nat, p: nat)
    requires p > 0 && a * p == b * p
    ensures a == b
  {
    Multiple(a - b, p);
    assert (a - b) * p == a * p - b * p;
  }

  /** Every number is the stored form of exactly one amount. */
  lemma OneAmount(n: nat, k: nat, x: nat)
    requires Stores(n, x) && Stores(k, x)
    ensures n == k
  {
  }

  lemma {:induction false} Split(n: nat, cap: nat) returns (m: nat, e: nat)
    requires n > 0
    ensures m > 0 && e <= cap && n == m * Pow(10, e) && (e < cap ==> m % 10 != 0)
    decreases cap
  {
    if cap > 0 && n % 10 == 0 {
      var k, f := Split(n / 10, cap - 1);
      m, e := k, f + 1;
      assert k * (10 * Pow(10, f)) == 10 * (k * Pow(10, f));
    } else {
      m, e := n, 0;
      PowTen(0);
    }
  }

  lemma HasForm(n: nat)
    ensures exists x :: Stores(n, x)
  {
    if n == 0 {
      assert Stores(0, 0);
    } else {
      var m, e := Split(n, 9);
      PackedInverse(m, e);
      assert Stores(n, Packed(m, e));
    }
  }

  /** The stored form of an amount. */
  ghost function Compressed(n: nat): (x: nat)
    ensures Stores(n, x)
  {
    HasForm(n);
    var x :| Stores(n, x);
    x
  }

  /** The amount that a number is the stored form of. */
  ghost function Decompressed(x: nat): (n: nat)
    ensures Stores(n, x)
  {
    if x == 0 then 0 else
      UnpackedInverse(x);
      var (m, e) := Unpacked(x);
      PowPositive(10, e);
      MulMono(1, Pow(10, e), m);
      m * Pow(10, e)
  }

  lemma DecompressedInverse(n: nat)
    ensures Decompressed(Compressed(n)) == n
  {
    OneAmount(n, Decompressed(Compressed(n)), Compressed(n));
  }

  lemma PowTen(e: nat)
    ensures Pow(10, e + 1) == 10 * Pow(10, e) && Pow(10, 0) == 1
  {
  }

  lemma Shift(n: nat, e: nat)
    requires n % 10 == 0
    ensures n * Pow(10, e) == (n / 10) * Pow(10, e + 1)
  {
    assert (n / 10) * (10 * Pow(10, e)) == (10 * (n / 10)) * Pow(10, e);
  }

  /** The formula for digits `m` and exponent `e`. */
  lemma FormOf(m: nat, e: nat, n: nat)
    requires m > 0 && e <= 9 && (e < 9 ==> m % 10 != 0) && n == m * Pow(10, e)
    ensures Compressed(n) == if e < 9 then 1 + 10 * (9 * (m / 10) + m % 10 - 1) + e else 10 * m
  {
    PackedInverse(m, e);
    PowPositive(10, e);
    MulMono(1, Pow(10, e), m);
    assert Stores(n, Packed(m, e));
    OneForm(n, Compressed(n), Packed(m, e));
  }

  /** Nothing, one unit, a hundredth of a coin, a coin, fifty coins and 21 million coins. */
  lemma KnownAmounts()
    ensures Compressed(0) == 0 && Compressed(1) == 1 && Compressed(1_000_000) == 7 && Compressed(100_000_000) == 9
    ensures Compressed(5_000_000_000) == 0x32 && Compressed(2_100_000_000_000_000) == 0x140_6f40
  {
    hide Compressed, Stores;
    NoAmount();
    PowersOfTen();
    FormOf(1, 0, 1);
    FormOf(1, 6, 1_000_000);
    FormOf(1, 8, 100_000_000);
    FormOf(5, 9, 5_000_000_000);
    FormOf(2_100_000, 9, 2_100_000_000_000_000);
  }

  lemma NoAmount()
    ensures Compressed(0) == 0
  {
  }

  lemma PowersOfTen()
    ensures Pow(10, 0) == 1 && Pow(10, 6) == 1_000_000 && Pow(10, 8) == 100_000_000 && Pow(10, 9) == 1_000_000_000
  {
    assert Pow(10, 3) == 1000;
  }
}
