/**
 Base58 text for byte strings.  Bytes are digits of base 256, characters are digits of base 58, and a text
 stands for the bytes that have the same value and the same number of leading zeros.
 */
module Base58 {
  import opened Wrappers
  import opened Arithmetic
  import opened Digits

  // ----- characters

  /** The alphabet in its order: 1-9, A-H, J-N, P-Z, a-k, m-z. */
  function CharOf(d: nat): char
    requires d < 58
  {
    if d < 9 then '1' + d as char
    else if d < 17 then 'A' + (d - 9) as char
    else if d < 22 then 'J' + (d - 17) as char
    else if d < 33 then 'P' + (d - 22) as char
    else if d < 44 then 'a' + (d - 33) as char
    else 'm' + (d - 44) as char
  }

  /** The place of a character in the alphabet. */
  function DigitOf(c: char): Option<nat> {
    if '1' <= c <= '9' then Some((c - '1') as nat)
    else if 'A' <= c <= 'H' then Some((c - 'A') as nat + 9)
    else if 'J' <= c <= 'N' then Some((c - 'J') as nat + 17)
    else if 'P' <= c <= 'Z' then Some((c - 'P') as nat + 22)
    else if 'a' <= c <= 'k' then Some((c - 'a') as nat + 33)
    else if 'm' <= c <= 'z' then Some((c - 'm') as nat + 44)
    else None
  }

  lemma CharDigit(d: nat)
    requires d < 58
    ensures DigitOf(CharOf(d)) == Some(d)
  {
  }

  lemma DigitChar(c: char)
    requires DigitOf(c).Some?
    ensures DigitOf(c).value < 58 && CharOf(DigitOf(c).value) == c && !IsSpace(c) && c != '\0'
  {
  }

  /** isspace in the C locale. */
  predicate IsSpace(c: char) {
    c == ' ' || '\t' <= c <= '\r'
  }

  /** The alphabet is all alphanumeric characters except for 0, I, O and l, in the order of their codes. */
  lemma AlphabetExact(c: char, d: nat, e: nat)
    ensures DigitOf(c).Some? <==>
      && ('0' <= c <= '9' || 'A' <= c <= 'Z' || 'a' <= c <= 'z')
      && c != '0' && c != 'I' && c != 'O' && c != 'l'
    ensures d < e < 58 ==> CharOf(d) < CharOf(e)
    ensures d < 58 ==> DigitOf(CharOf(d)) == Some(d)
    ensures IsSpace(c) <==> c as int == 32 || 9 <= c as int <= 13
  {
  }

  ghost predicate IsBase58(s: string) {
    forall i | 0 <= i < |s| :: DigitOf(s[i]).Some?
  }

  ghost function Values(s: string): (ds: seq<nat>)
    requires IsBase58(s)
    ensures |ds| == |s| && AreDigits(ds, 58) && forall i | 0 <= i < |s| :: ds[i] == DigitOf(s[i]).value
  {
    seq(|s|, i requires 0 <= i < |s| => DigitChar(s[i]); DigitOf(s[i]).value)
  }

  /** The bytes and the text have the same value and as many leading zeros. */
  ghost predicate Stands(text: string, bytes: seq<nat>)
    requires IsBase58(text)
  {
    && AreDigits(bytes, 256)
    && Number(Values(text), 58) == Number(bytes, 256) && LeadingZeros(Values(text)) == LeadingZeros(bytes)
  }

  lemma OneText(s: string, t: string, bytes: seq<nat>)
    requires IsBase58(s) && IsBase58(t) && Stands(s, bytes) && Stands(t, bytes)
    ensures s == t
  {
    DigitsUnique(Values(s), Values(t), 58);
    forall i | 0 <= i < |s| ensures s[i] == t[i] {
      DigitChar(s[i]);
      DigitChar(t[i]);
    }
  }

  lemma OneByteString(s: string, a: seq<nat>, b: seq<nat>)
    requires IsBase58(s) && Stands(s, a) && Stands(s, b)
    ensures a == b
  {
    DigitsUnique(a, b, 256);
  }

  // ----- the buffers are large enough

  lemma Powers58()
    ensures Pow(58, 11) >= Pow(256, 8) && Pow(58, 15) <= Pow(256, 11)
  {
    assert Pow(58, 9) == 7427658739644928;
    PowAdd(58, 9, 2);
    PowAdd(58, 9, 6);
    assert Pow(58, 2) == 3364 && Pow(58, 6) == 38068692544;
    assert Pow(256, 8) == 0x1_0000_0000_0000_0000;
    PowAdd(256, 8, 3);
    assert Pow(256, 3) == 0x100_0000;
  }

  lemma Power71()
    ensures Pow(58, 71) <= Pow(256, 52)
  {
    hide Pow;
    Power36();
    PowAdd(58, 36, 36);
    PowAdd(58, 1, 71);
    PowAdd(256, 26, 26);
    PowBase(58);
  }

  lemma PowBase(b: nat)
    ensures Pow(b, 1) == b && Pow(b, 0) == 1
  {
    assert Pow(b, 1) == b * Pow(b, 0);
  }

  lemma Power36()
    ensures Pow(58, 36) == 3043741517681573408154032751732621616256793128331902261559033856
    ensures Pow(256, 26) == 0x100_0000_0000_0000_0000_0000_000000_0000_0000_0000_0000_0000_0000
  {
    assert Pow(58, 9) == 7427658739644928;
    PowAdd(58, 9, 9);
    PowAdd(58, 18, 18);
    assert Pow(256, 13) == 0x100_0000_0000_0000_0000_0000_0000;
    PowAdd(256, 13, 13);
  }

  lemma SmallEncode(r: nat)
    requires r < 8
    ensures Pow(256, r) <= Pow(58, r * 138 / 100 + 1)
  {
    hide Pow;
    EncodeTable();
  }

  lemma EncodeTable()
    ensures Pow(256, 0) <= Pow(58, 1) && Pow(256, 1) <= Pow(58, 2) && Pow(256, 2) <= Pow(58, 3)
        && Pow(256, 3) <= Pow(58, 5)
    ensures Pow(256, 4) <= Pow(58, 6) && Pow(256, 5) <= Pow(58, 7) && Pow(256, 6) <= Pow(58, 9)
        && Pow(256, 7) <= Pow(58, 10)
  {
  }

  lemma SmallDecode(b: nat)
    requires b < 15
    ensures Pow(58, b) <= Pow(256, (733 * b + 980) / 1000)
  {
    hide Pow;
    DecodeTable();
    LargerDecode();
  }

  lemma DecodeTable()
    ensures Pow(58, 0) <= Pow(256, 0) && Pow(58, 1) <= Pow(256, 1) && Pow(58, 2) <= Pow(256, 2)
        && Pow(58, 3) <= Pow(256, 3) && Pow(58, 4) <= Pow(256, 3)
    ensures Pow(58, 5) <= Pow(256, 4) && Pow(58, 6) <= Pow(256, 5) && Pow(58, 7) <= Pow(256, 6)
        && Pow(58, 8) <= Pow(256, 6) && Pow(58, 9) <= Pow(256, 7)
  {
  }

  lemma LargerDecode()
    ensures Pow(58, 10) <= Pow(256, 8) && Pow(58, 11) <= Pow(256, 9) && Pow(58, 12) <= Pow(256, 9)
        && Pow(58, 13) <= Pow(256, 10) && Pow(58, 14) <= Pow(256, 11)
  {
    hide Pow;
    PowAdd(58, 5, 5);
    PowAdd(58, 10, 1);
    PowAdd(58, 11, 1);
    PowAdd(58, 12, 1);
    PowAdd(58, 13, 1);
    PowAdd(256, 4, 4);
    PowAdd(256, 8, 1);
    PowAdd(256, 9, 1);
    PowAdd(256, 10, 1);
    PowBase(58);
    PowBase(256);
    Fives();
  }

  lemma Fives()
    ensures Pow(58, 5) == 656356768 && Pow(256, 4) == 0x1_0000_0000
  {
  }

  /** If a block of digits fits, so do any number of blocks and a rest that fits. */
  lemma {:induction false} Blocks(x: nat, y: nat, m: nat, n: nat, q: nat, r: nat, s: nat)
    requires x > 0 && y > 0 && Pow(x, m) <= Pow(y, n) && Pow(x, r) <= Pow(y, s)
    ensures Pow(x, m * q + r) <= Pow(y, n * q + s)
  {
    hide Pow;
    if q > 0 {
      Blocks(x, y, m, n, q - 1, r, s);
      assert m * q + r == m + (m * (q - 1) + r) && n * q + s == n + (n * (q - 1) + s) by {
          OneLess(m, q); OneLess(n, q); }
      PowAdd(x, m, m * (q - 1) + r);
      PowAdd(y, n, n * (q - 1) + s);
      MulMono(Pow(x, m), Pow(y, n), Pow(x, m * (q - 1) + r));
      MulMono(Pow(x, m * (q - 1) + r), Pow(y, n * (q - 1) + s), Pow(y, n));
    }
  }

  lemma OneLess(m: nat, q: nat)
    requires q > 0
    ensures m * q == m + m * (q - 1)
  {
  }

  /** 138 characters per 100 bytes, and one more, hold any byte string. */
  lemma EncodeRoom(n: nat)
    ensures Pow(256, n) <= Pow(58, n * 138 / 100 + 1)
  {
    hide Pow;
    var q, r := n / 8, n % 8;
    Powers58();
    SmallEncode(r);
    Blocks(256, 58, 8, 11, q, r, r * 138 / 100 + 1);
    PowGrows(58, 11 * q + (r * 138 / 100 + 1), n * 138 / 100 + 1);
  }

  /** 733 bytes per 1000 characters, and one more, hold any text. */
  lemma DecodeRoom(n: nat)
    ensures Pow(58, n) <= Pow(256, n * 733 / 1000 + 1)
  {
    hide Pow;
    var q, r := n / 71, n % 71;
    var a, b := r / 15, r % 15;
    Powers58();
    Power71();
    SmallDecode(b);
    var c := (733 * b + 980) / 1000;
    Blocks(58, 256, 15, 11, a, b, c);
    Blocks(58, 256, 71, 52, q, r, 11 * a + c);
    DecodeCount(q, a, b);
    PowGrows(256, 52 * q + (11 * a + c), n * 733 / 1000 + 1);
  }

  lemma DecodeCount(q: nat, a: nat, b: nat)
    requires a <= 4
    ensures 52 * q + (11 * a + (733 * b + 980) / 1000) <= (71 * q + 15 * a + b) * 733 / 1000 + 1
  {
  }

  // ----- multiply and add in place

  lemma MulAddStep(lo: nat, carry: nat, p: nat, x: nat, v: nat, factor: nat, digit: nat, base: nat)
    requires base > 0 && lo + Times(carry, p) == Times(v, factor) + digit
    ensures var n := carry + Times(factor, x);
      Times(n % base, p) + lo + Times(n / base, Times(base, p)) == Times(Times(x, p) + v, factor) + digit
  {
    var n := carry + factor * x;
    var r, q := n % base, n / base;
    assert n == q * base + r;
    assert r * p + q * (base * p) == n * p by { MulAssoc(q, base, p);
        assert (q * base + r) * p == (q * base) * p + r * p; }
    assert n * p == carry * p + (factor * x) * p;
    assert (x * p + v) * factor == (x * p) * factor + v * factor;
    assert (factor * x) * p == (x * p) * factor by { MulAssoc(factor, x, p); }
  }

  lemma CarryBound(carry: nat, x: nat, factor: nat, base: nat)
    requires carry < factor && x < base
    ensures base > 0 && (carry + Times(factor, x)) / base < factor
  {
    MulMono(x + 1, base, factor);
    assert (x + 1) * factor == factor * x + factor;
    DivBelow(carry + factor * x, base, factor);
  }

  /** Digit `i` and the digits below it have been multiplied, and the carry goes on. */
  ghost predicate Balanced(now: seq<nat>, was: seq<nat>, base: nat, factor: nat, digit: nat, carry: nat) {
    |now| == |was| && Number(now, base) + Times(carry, Pow(base, |now|)) == Times(Number(was, base), factor) + digit
  }

  lemma BalancedNext(now: seq<nat>, was: seq<nat>, base: nat, factor: nat, digit: nat, carry: nat, x: nat)
    requires base > 0 && Balanced(now, was, base, factor, digit, carry)
    ensures var n := carry + Times(factor, x); Balanced([n % base] + now, [x] + was, base, factor, digit, n / base)
  {
    hide Pow, Number, Times;
    var n := carry + Times(factor, x);
    FirstDigit(n % base, now, base);
    FirstDigit(x, was, base);
    MulAddStep(Number(now, base), carry, Pow(base, |now|), x, Number(was, base), factor, digit, base);
  }

  lemma FirstDigit(x: nat, s: seq<nat>, base: nat)
    ensures Number([x] + s, base) == Times(x, Pow(base, |s|)) + Number(s, base)
        && Pow(base, |[x] + s|) == Times(base, Pow(base, |s|))
  {
    NumberFirst(x, s, base);
  }

  /** buffer = buffer * factor + digit, with the carry out of the top. */
  method MulAdd(buffer: array<nat>, base: nat, factor: nat, digit: nat) returns (carry: nat)
    requires AreDigits(buffer[..], base) && base > 0 && digit < factor
    modifies buffer
    ensures AreDigits(buffer[..], base) && Balanced(buffer[..], old(buffer[..]), base, factor, digit, carry)
  {
    hide Pow, Number, Times, Balanced;
    ghost var was := buffer[..];
    carry := digit;
    var i := buffer.Length;
    NothingYet(base, factor, digit);
    assert was[i..] == [] && buffer[..][i..] == [];
    while i > 0
      invariant 0 <= i <= buffer.Length && carry < factor
      invariant forall k | 0 <= k < i :: buffer[k] == was[k]
      invariant AreDigits(buffer[..], base) && Balanced(buffer[..][i..], was[i..], base, factor, digit, carry)
    {
      ghost var rest := buffer[..][i..];
      i := i - 1;
      CarryBound(carry, buffer[i], factor, base);
      BalancedNext(rest, was[i + 1..], base, factor, digit, carry, was[i]);
      carry := carry + Times(factor, buffer[i]);
      buffer[i] := carry % base;
      carry := carry / base;
      assert buffer[..][i..] == [buffer[i]] + rest && was[i..] == [was[i]] + was[i + 1..];
    }
    assert buffer[..][0..] == buffer[..] && was[0..] == was;
  }

  lemma NothingYet(base: nat, factor: nat, digit: nat)
    ensures Balanced([], [], base, factor, digit, digit)
  {
  }

  /** A value that fits leaves no carry. */
  lemma NoCarry(now: seq<nat>, was: seq<nat>, base: nat, factor: nat, digit: nat, carry: nat)
    requires Balanced(now, was, base, factor, digit, carry) && Number(was, base) * factor + digit < Pow(base, |now|)
    ensures carry == 0 && Number(now, base) == Number(was, base) * factor + digit
  {
    hide Pow, Number;
    if carry >= 1 {
      MulMono(1, carry, Pow(base, |now|));
    }
  }
}
