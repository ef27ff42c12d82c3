/**
 Stored amounts in 64 bits.  Arithmetic wraps, so neither direction is right everywhere; but whenever a
 round trip ends where it began, nothing has wrapped on the way.
 */
module CompressorWidth {
  import opened Arithmetic
  import opened Compressor

  type U64 = n: nat | n < 0x1_0000_0000_0000_0000

  /** Amounts whose stored form does not wrap: those that end in a zero, and the smaller ones of the rest. */
  predicate StoredFits(amount: nat) {
    amount % 10 == 0 || 9 * amount + amount % 10 - 9 < WIDE
  }

  /** The stored form as a linear expression. */
  lemma PackedLinear(m: nat, e: nat)
    requires m > 0 && (e < 9 ==> m % 10 != 0)
    ensures Packed(m, e) == if e < 9 then 9 * m + m % 10 - 9 + e else 10 * m - 9 + 9
  {
    var q, d := m / 10, m % 10;
    assert m == 10 * q + d;
  }

  lemma FormOf(n: nat) returns (m: nat, e: nat)
    requires n > 0
    ensures m > 0 && e <= 9 && (e < 9 ==> m % 10 != 0) && n == m * Pow(10, e) && Compressed(n) == Packed(m, e)
    ensures (e == 0 ==> n == m) && (e == 0 <==> n % 10 != 0) && (e > 0 ==> 10 * m <= n)
  {
    hide Pow, Compressed;
    m, e := Split(n, 9);
    PackedIs(n, m, e);
    ZerosShow(m, e);
  }

  lemma ZerosShow(m: nat, e: nat)
    requires m > 0 && (e == 0 ==> m % 10 != 0)
    ensures var n := m * Pow(10, e); (e == 0 ==> n == m) && (e == 0 <==> n % 10 != 0) && (e > 0 ==> 10 * m <= n)
  {
    hide Pow;
    PowTen(0);
    if e > 0 {
      PowPositive(10, e - 1);
      TenFold(m, e - 1);
      MulMono(1, Pow(10, e - 1), m);
    }
  }

  /** The condition on the amount is exact. */
  lemma StoredFitsExact(n: U64)
    ensures StoredFits(n) <==> Compressed(n) < WIDE
  {
    if n > 0 {
      var m, e := FormOf(n);
      PackedLinear(m, e);
      PowTen(0);
    } else {
      OneForm(0, 0, Compressed(0));
    }
  }

  /** Every amount below 2^60, and so every amount of money there can be, fits. */
  lemma MoneyFits(n: nat)
    requires n < 0x1000_0000_0000_0000
    ensures StoredFits(n)
  {
  }

  lemma Congruent(a: nat, b: nat)
    ensures (a % WIDE * b) % WIDE == (a * b) % WIDE && (a % WIDE + b) % WIDE == (a + b) % WIDE
  {
    var q, r := a / WIDE, a % WIDE;
    assert a * b == r * b + (q * b) * WIDE by { assert (q * WIDE + r) * b == (q * WIDE) * b + r * b;
        assert (q * WIDE) * b == (q * b) * WIDE by { MulAssoc(q, b, WIDE);
        MulAssoc(q, WIDE, b); assert b * WIDE == WIDE * b; } }
    ModUnique((r * b) % WIDE, (r * b) / WIDE + q * b, WIDE, a * b);
    ModUnique((r + b) % WIDE, (r + b) / WIDE + q, WIDE, a + b);
  }

  method CompressAmount(amount: U64) returns (x: U64)
    ensures x == Compressed(amount) % WIDE
    ensures Stores(amount, x) <==> StoredFits(amount)
  {
    hide Pow, Stores, StoredFits, Compressed;
    CompressedExact(amount);
    if amount == 0 {
      return 0;
    }
    var n: nat, e := amount, 0;
    PowTen(0);
    while n % 10 == 0 && e < 9
      invariant e <= 9 && n > 0 && amount == n * Pow(10, e) && n <= amount
    {
      Shift(n, e);
      n := n / 10;
      e := e + 1;
    }
    PackedIs(amount, n, e);
    if e < 9 {
      var d := n % 10;
      assert 1 <= d <= 9;
      n := n / 10;
      Rounded(n * 9 + d - 1, e);
      x := (1 + (n * 9 + d - 1) % WIDE * 10 % WIDE + e) % WIDE;
    } else {
      Rounded(n - 1, 9);
      Small(n - 1);
      x := (1 + (n - 1) * 10 % WIDE + 9) % WIDE;
    }
  }

  lemma Rounded(a: nat, e: nat)
    ensures (1 + a % WIDE * 10 % WIDE + e) % WIDE == (1 + a * 10 + e) % WIDE
  {
    Congruent(a, 10);
    Congruent(a * 10, 1 + e);
  }

  lemma PackedIs(n: nat, m: nat, e: nat)
    requires n > 0 && m > 0 && e <= 9 && n == m * Pow(10, e) && (e < 9 ==> m % 10 != 0)
    ensures Compressed(n) == Packed(m, e)
  {
    PackedInverse(m, e);
    OneForm(n, Compressed(n), Packed(m, e));
  }

  lemma CompressedExact(n: U64)
    ensures Stores(n, Compressed(n) % WIDE) <==> StoredFits(n)
    ensures n == 0 ==> Compressed(n) == 0
  {
    StoredFitsExact(n);
    if Stores(n, Compressed(n) % WIDE) {
      OneForm(n, Compressed(n), Compressed(n) % WIDE);
    }
    if n == 0 {
      OneForm(0, 0, Compressed(0));
    }
  }

  method DecompressAmount(stored: U64) returns (n: U64)
    ensures n == Decompressed(stored) % WIDE
    ensures Stores(n, stored) <==> Decompressed(stored) < WIDE
  {
    hide Pow, Stores, Decompressed;
    DecompressedExact(stored);
    if stored == 0 {
      return 0;
    }
    var x: nat := stored - 1;
    var e := x % 10;
    x := x / 10;
    var r: nat := 0;
    if e < 9 {
      var d := x % 9 + 1;
      x := x / 9;
      r := x * 10 + d;
    } else {
      r := x + 1;
    }
    assert r < WIDE;
    ghost var m, f := r, e;
    assert Unpacked(stored) == (m, f);
    PowTen(0);
    Small(r);
    while e > 0
      invariant 0 <= e <= f && r == (m * Pow(10, f - e)) % WIDE
    {
      Tenth(m, f - e);
      r := r * 10 % WIDE;
      e := e - 1;
    }
    DecompressedIs(stored);
    n := r;
  }

  lemma Small(n: nat)
    requires n < WIDE
    ensures n % WIDE == n
  {
  }

  lemma Tenth(m: nat, i: nat)
    ensures (m * Pow(10, i + 1)) % WIDE == (m * Pow(10, i)) % WIDE * 10 % WIDE
  {
    hide Pow;
    Congruent(m * Pow(10, i), 10);
    TenFold(m, i);
  }

  lemma DecompressedIs(x: nat)
    requires x > 0
    ensures var (m, e) := Unpacked(x); Decompressed(x) == m * Pow(10, e)
  {
  }

  lemma DecompressedExact(x: U64)
    ensures Stores(Decompressed(x) % WIDE, x) <==> Decompressed(x) < WIDE
    ensures x == 0 ==> Decompressed(x) == 0
  {
    if Stores(Decompressed(x) % WIDE, x) {
      OneAmount(Decompressed(x), Decompressed(x) % WIDE, x);
    }
  }

  // ----- no round trip comes out right by accident

  /** The stored form of `n`, which has no zeros at its end, exceeds that of `m` with `e` zeros by `k` times 2^64. */
  ghost predicate Wraps(m: nat, n: nat, k: nat, e: nat) {
    9 * n + n % 10 == 9 * m + m % 10 + e + k * WIDE
  }

  ghost predicate Range(m: nat, n: nat, e: nat) {
    m % 10 != 0 && n % 10 != 0 && 9 * m + m % 10 + e < WIDE + 9
  }

  /** A multiple of `m` modulo 2^64 gives `m` itself by the inverse of the multiplier. */
  lemma Solved(f: nat, i: nat, c: nat, m: nat, delta: int, t: int)
    requires f * i == 1 + c * WIDE && f * m == delta + t * WIDE
    ensures m + (c * m - t * i) * WIDE == delta * i
  {
    assert (f * i) * m == (f * m) * i by {
      MulAssoc(f, i, m);
      MulAssoc(f, m, i);
    }
    assert (1 + c * WIDE) * m == m + (c * m) * WIDE by { assert c * WIDE * m == (c * m) * WIDE; }
    assert (delta + t * WIDE) * i == delta * i + (t * i) * WIDE by { assert t * WIDE * i == (t * i) * WIDE; }
    assert (c * m - t * i) * WIDE == (c * m) * WIDE - (t * i) * WIDE;
  }

  lemma OneZeroApart(m: nat, delta: int, s: int)
    requires -7 <= delta <= 9 && m + s * WIDE == delta * 3188326136196712625 && 9 * m < WIDE + 9
    ensures delta in {0, 6}
  {
  }

  lemma OneZero(m: nat, n: nat, j: nat, k: nat)
    requires m * 10 == n + j * WIDE && n < WIDE && Range(m, n, 1)
    ensures !Wraps(m, n, k, 1)
  {
    if Wraps(m, n, k, 1) {
      var delta, t := m % 10 + 1 - n % 10, 9 * j + k;
      Solved(81, 3188326136196712625, 14, m, delta, t);
      OneZeroApart(m, delta, 14 * m - t * 3188326136196712625);
    }
  }

  lemma TwoZerosApart(m: nat, delta: int, s: int)
    requires -6 <= delta <= 10 && m + s * WIDE == delta * 13705661702352102323 && 9 * m < WIDE + 9
    ensures delta in {-4, 0}
  {
  }

  lemma TwoZeros(m: nat, n: nat, j: nat, k: nat)
    requires m * 100 == n + j * WIDE && n < WIDE && Range(m, n, 2)
    ensures !Wraps(m, n, k, 2)
  {
    if Wraps(m, n, k, 2) {
      var delta, t := m % 10 + 2 - n % 10, 9 * j + k;
      Solved(891, 13705661702352102323, 662, m, delta, t);
      TwoZerosApart(m, delta, 662 * m - t * 13705661702352102323);
    }
  }

  lemma ThreeZerosApart(m: nat, delta: int, s: int)
    requires -5 <= delta <= 11 && m + s * WIDE == delta * 7673320302043568351 && 9 * m < WIDE + 9
    ensures delta in {0, 5}
  {
  }

  lemma ThreeZeros(m: nat, n: nat, j: nat, k: nat)
    requires m * 1000 == n + j * WIDE && n < WIDE && Range(m, n, 3)
    ensures !Wraps(m, n, k, 3)
  {
    if Wraps(m, n, k, 3) {
      var delta, t := m % 10 + 3 - n % 10, 9 * j + k;
      Solved(8991, 7673320302043568351, 3740, m, delta, t);
      ThreeZerosApart(m, delta, 3740 * m - t * 7673320302043568351);
    }
  }

  lemma FourZerosApart(m: nat, delta: int, s: int)
    requires -4 <= delta <= 12 && m + s * WIDE == delta * 15842828238033401399 && 9 * m < WIDE + 9
    ensures delta in {0, 7}
  {
  }

  lemma FourZeros(m: nat, n: nat, j: nat, k: nat)
    requires m * 10000 == n + j * WIDE && n < WIDE && Range(m, n, 4)
    ensures !Wraps(m, n, k, 4)
  {
    if Wraps(m, n, k, 4) {
      var delta, t := m % 10 + 4 - n % 10, 9 * j + k;
      Solved(89991, 15842828238033401399, 77288, m, delta, t);
      FourZerosApart(m, delta, 77288 * m - t * 15842828238033401399);
    }
  }

  lemma FiveZerosApart(m: nat, delta: int, s: int)
    requires -3 <= delta <= 13 && m + s * WIDE == delta * 18023674015869596711 && 9 * m < WIDE + 9
    ensures delta in {-3, -2, -1, 0}
  {
  }

  lemma FiveZeros(m: nat, n: nat, j: nat, k: nat)
    requires m * 100000 == n + j * WIDE && n < WIDE && Range(m, n, 5)
    ensures !Wraps(m, n, k, 5)
  {
    if Wraps(m, n, k, 5) {
      var delta, t := m % 10 + 5 - n % 10, 9 * j + k;
      Solved(899991, 18023674015869596711, 879350, m, delta, t);
      FiveZerosApart(m, delta, 879350 * m - t * 18023674015869596711);
    }
  }

  lemma SixZerosApart(m: nat, delta: int, s: int)
    requires -2 <= delta <= 14 && m + s * WIDE == delta * 12483635422780629383 && 9 * m < WIDE + 9
    ensures delta in {0, 3, 6, 9}
  {
  }

  lemma SixZeros(m: nat, n: nat, j: nat, k: nat)
    requires m * 1000000 == n + j * WIDE && n < WIDE && Range(m, n, 6)
    ensures !Wraps(m, n, k, 6)
  {
    if Wraps(m, n, k, 6) {
      var delta, t := m % 10 + 6 - n % 10, 9 * j + k;
      Solved(8999991, 12483635422780629383, 6090647, m, delta, t);
      SixZerosApart(m, delta, 6090647 * m - t * 12483635422780629383);
    }
  }

  lemma SevenZerosApart(m: nat, delta: int, s: int)
    requires -1 <= delta <= 15 && m + s * WIDE == delta * 12579226292904243015 && 9 * m < WIDE + 9
    ensures delta in {0, 3, 6}
  {
  }

  lemma SevenZeros(m: nat, n: nat, j: nat, k: nat)
    requires m * 10000000 == n + j * WIDE && n < WIDE && Range(m, n, 7)
    ensures !Wraps(m, n, k, 7)
  {
    if Wraps(m, n, k, 7) {
      var delta, t := m % 10 + 7 - n % 10, 9 * j + k;
      Solved(89999991, 12579226292904243015, 61372904, m, delta, t);
      SevenZerosApart(m, delta, 61372904 * m - t * 12579226292904243015);
    }
  }

  lemma EightZerosApart(m: nat, delta: int, s: int)
    requires 0 <= delta <= 16 && m + s * WIDE == delta * 16430456183658535111 && 9 * m < WIDE + 9
    ensures delta in {0, 9}
  {
  }

  lemma EightZeros(m: nat, n: nat, j: nat, k: nat)
    requires m * 100000000 == n + j * WIDE && n < WIDE && Range(m, n, 8)
    ensures !Wraps(m, n, k, 8)
  {
    if Wraps(m, n, k, 8) {
      var delta, t := m % 10 + 8 - n % 10, 9 * j + k;
      Solved(899999991, 16430456183658535111, 801627125, m, delta, t);
      EightZerosApart(m, delta, 801627125 * m - t * 16430456183658535111);
    }
  }

  lemma NineZeros(m: nat, n: nat, j: nat, k: nat)
    requires m * 1000000000 == n + j * WIDE && n % 10 != 0
    ensures 9 * n + n % 10 != 10 * m + 9 + k * WIDE
  {
    Parity(n, 5 * m + 4 + k * (WIDE / 2), m * 500000000 - j * (WIDE / 2));
    assert 10 * m + 9 + k * WIDE == 2 * (5 * m + 4 + k * (WIDE / 2)) + 1;
  }

  lemma Parity(n: nat, b: int, half: int)
    requires n == 2 * half
    ensures 9 * n + n % 10 != 2 * b + 1
  {
    var q, d := n / 10, n % 10;
    assert d == 2 * (half - 5 * q);
    assert 9 * n + d == 2 * (9 * half + half - 5 * q);
  }

  lemma ZerosClash(m: nat, e: nat, n: nat, j: nat, k: nat)
    requires e <= 8 && n < WIDE && j > 0 && m * Pow(10, e) == n + j * WIDE && Range(m, n, e)
    ensures !Wraps(m, n, k, e)
  {
    hide Pow, Wraps;
    TenPowers();
    if e == 0 { NoZero(m, n, j, k); }
    else if e == 1 { OneZero(m, n, j, k); }
    else if e == 2 { TwoZeros(m, n, j, k); }
    else if e == 3 { ThreeZeros(m, n, j, k); }
    else if e == 4 { FourZeros(m, n, j, k); }
    else if e == 5 { FiveZeros(m, n, j, k); }
    else if e == 6 { SixZeros(m, n, j, k); }
    else if e == 7 { SevenZeros(m, n, j, k); }
    else { EightZeros(m, n, j, k); }
  }

  lemma NoZero(m: nat, n: nat, j: nat, k: nat)
    requires m == n + j * WIDE && j > 0
    ensures !Wraps(m, n, k, 0)
  {
  }

  lemma TenPowers()
    ensures Pow(10, 0) == 1 && Pow(10, 1) == 10 && Pow(10, 2) == 100 && Pow(10, 3) == 1000 && Pow(10, 4) == 10000
    ensures Pow(10, 5) == 100000 && Pow(10, 6) == 1000000 && Pow(10, 7) == 10000000 && Pow(10, 8) == 100000000
        && Pow(10, 9) == 1000000000
  {
  }

  /** An amount and a number that are each other's form modulo 2^64 are each other's form. */
  lemma NoCoincidence(n: U64, x: U64)
    requires Compressed(n) % WIDE == x && Decompressed(x) % WIDE == n
    ensures Compressed(n) == x && Decompressed(x) == n
  {
    hide Pow, Stores, Decompressed;
    CompressedExact(n);
    DecompressedExact(x);
    var k, j := Compressed(n) / WIDE, Decompressed(x) / WIDE;
    if Compressed(n) == x {
      OneAmount(n, Decompressed(x), x);
    } else if Decompressed(x) == n {
      OneForm(n, Compressed(n), x);
    } else {
      StoredFitsExact(n);
      Apart(n, x, j, k);
    }
  }

  /** If the stored number wraps on the way back, then the amount's form does not wrap to the same number. */
  lemma Apart(n: U64, x: U64, j: nat, k: nat)
    requires n > 0 && x > 0 && n % 10 != 0 && j > 0 && Decompressed(x) == n + j * WIDE
    ensures Compressed(n) != x + k * WIDE
  {
    hide Pow, Stores, Decompressed;
    var mp, ep := FormOf(n);
    PowTen(0);
    PackedLinear(n, 0);
    assert mp == n;
    UnpackedInverse(x);
    DecompressedIs(x);
    var (m, e) := Unpacked(x);
    PackedLinear(m, e);
    TenPowers();
    if e == 9 {
      NineZeros(m, n, j, k);
    } else {
      ZerosClash(m, e, n, j, k);
    }
  }

  /** Both ways, and exactly when each comes back to where it began. */
  method CompressBothWays(amount: U64, stored: U64) returns (back: U64, again: U64)
    ensures back == amount <==> StoredFits(amount)
    ensures again == stored <==> Decompressed(stored) < WIDE
  {
    hide Stores, Decompressed, Compressed, StoredFits;
    var x := CompressAmount(amount);
    back := DecompressAmount(x);
    BackExact(amount, x);
    var n := DecompressAmount(stored);
    again := CompressAmount(n);
    AgainExact(stored, n);
  }

  lemma BackExact(n: U64, x: U64)
    requires x == Compressed(n) % WIDE
    ensures Decompressed(x) % WIDE == n <==> StoredFits(n)
  {
    hide Stores, Decompressed;
    StoredFitsExact(n);
    if StoredFits(n) {
      DecompressedInverse(n);
    }
    if Decompressed(x) % WIDE == n {
      NoCoincidence(n, x);
    }
  }

  lemma AgainExact(x: U64, n: U64)
    requires n == Decompressed(x) % WIDE
    ensures Compressed(n) % WIDE == x <==> Decompressed(x) < WIDE
  {
    hide Decompressed;
    if Decompressed(x) < WIDE {
      OneForm(n, x, Compressed(n));
    }
    if Compressed(n) % WIDE == x {
      NoCoincidence(n, x);
    }
  }

  /** Both directions do wrap: at the largest amount there is, and at the stored number 10^19. */
  lemma WidthMatters()
    ensures !StoredFits(WIDE - 1) && 10000000000000000000 < WIDE <= Decompressed(10000000000000000000)
  {
    TenPowers();
    assert Unpacked(10000000000000000000) == (1000000000000000000, 9);
    DecompressedIs(10000000000000000000);
  }
}
