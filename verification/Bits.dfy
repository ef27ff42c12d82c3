/** Bitwise operators on natural numbers. */
module Bits {
  import opened Arithmetic

  function And(a: nat, b: nat): nat {
    if a == 0 || b == 0 then 0 else 2 * And(a / 2, b / 2) + (if a % 2 == 1 && b % 2 == 1 then 1 else 0)
  }

  function Or(a: nat, b: nat): nat
    decreases a + b
  {
    if a == 0 && b == 0 then 0 else 2 * Or(a / 2, b / 2) + (if a % 2 == 1 || b % 2 == 1 then 1 else 0)
  }

  lemma {:induction false} AndSelf(n: nat)
    ensures And(n, n) == n
  {
    if n > 0 {
      AndSelf(n / 2);
    }
  }

  lemma {:induction false} AndBelow(a: nat, b: nat)
    ensures And(a, b) <= b
  {
    if a != 0 && b != 0 {
      AndBelow(a / 2, b / 2);
    }
  }

  lemma {:induction false} OrSwap(a: nat, b: nat)
    ensures Or(a, b) == Or(b, a)
    decreases a + b
  {
    if a != 0 || b != 0 {
      OrSwap(a / 2, b / 2);
    }
  }

  lemma {:induction false} OrZero(a: nat)
    ensures Or(a, 0) == a && Or(0, a) == a
  {
    if a != 0 {
      OrZero(a / 2);
    }
  }

  /** A multiple of a power of two and a number below that power share no bits: joining them adds them. */
  lemma {:induction false} OrDisjoint(a: nat, b: nat, s: nat)
    requires Pow(2, s) > 0 && a % Pow(2, s) == 0 && b < Pow(2, s)
    ensures Or(a, b) == a + b && Or(b, a) == a + b
    decreases s
  {
    OrSwap(a, b);
    if s == 0 {
      OrZero(a);
    } else {
      PowPositive(2, s - 1);
      Halve(a, Pow(2, s - 1));
      OrDisjoint(a / 2, b / 2, s - 1);
    }
  }

  lemma Halve(a: nat, p: nat)
    requires p > 0 && a % (2 * p) == 0
    ensures a % 2 == 0 && (a / 2) % p == 0
  {
    var q := a / (2 * p);
    assert a == 2 * p * q;
    assert a == 2 * (p * q) by { assert 2 * p * q == 2 * (p * q); }
    assert a / 2 == p * q;
    assert (p * q) % p == 0 by { Remainder(p, q); }
  }

  // ----- sequences of bits

  /** Bits as a number, lowest first. */
  function Pack(w: seq<bool>): nat {
    if w == [] then 0 else (if w[0] then 1 else 0) + 2 * Pack(w[1..])
  }

  function Unpack(x: nat, n: nat): (w: seq<bool>)
    ensures |w| == n
  {
    if n == 0 then [] else [x % 2 == 1] + Unpack(x / 2, n - 1)
  }

  lemma {:induction false} UnpackPack(w: seq<bool>)
    ensures Unpack(Pack(w), |w|) == w
  {
    if w != [] {
      UnpackPack(w[1..]);
      assert w == [w[0]] + w[1..];
    }
  }

  lemma {:induction false} PackZero(w: seq<bool>, i: nat)
    requires i < |w| && Pack(w) == 0
    ensures !w[i]
  {
    if i > 0 {
      PackZero(w[1..], i - 1);
    }
  }

  lemma {:induction false} PackNone(w: seq<bool>)
    requires forall i | 0 <= i < |w| :: !w[i]
    ensures Pack(w) == 0
  {
    if w != [] {
      PackNone(w[1..]);
    }
  }

  lemma {:induction false} PackLast(w: seq<bool>, x: bool)
    ensures Pack(w + [x]) == Pack(w) + (if x then Pow(2, |w|) else 0) && Pack(w) < Pow(2, |w|)
  {
    if w == [] {
      assert (w + [x])[1..] == [];
    } else {
      PackLast(w[1..], x);
      assert (w + [x])[1..] == w[1..] + [x];
    }
  }

  lemma {:induction false} UnpackBit(x: nat, n: nat, p: nat)
    requires p < n
    ensures Pow(2, p) > 0 && Unpack(x, n)[p] == ((x / Pow(2, p)) % 2 == 1)
  {
    PowPositive(2, p);
    if p == 0 {
      assert Pow(2, 0) == 1;
    } else {
      UnpackBit(x / 2, n - 1, p - 1);
      DivDiv(x, 2, Pow(2, p - 1));
    }
  }

  /** The bits of the packed number are those of the sequence. */
  lemma PackBit(w: seq<bool>, p: nat)
    requires p < |w|
    ensures Pow(2, p) > 0 && ((Pack(w) / Pow(2, p)) % 2 == 1 <==> w[p])
  {
    UnpackPack(w);
    UnpackBit(Pack(w), |w|, p);
  }

  lemma PackEmpty()
    ensures Pack([]) == 0
  {
  }

  lemma BitJoins(w: seq<bool>, i: nat)
    requires i < |w|
    ensures Pack(w[..i + 1]) == if w[i] then Or(Pack(w[..i]), Pow(2, i)) else Pack(w[..i])
  {
    hide Pow, Pack, Or;
    assert w[..i + 1] == w[..i] + [w[i]];
    PackLast(w[..i], w[i]);
    PowPositive(2, i);
    assert 0 + 1 * Pow(2, i) == Pow(2, i);
    ModUnique(0, 1, Pow(2, i), Pow(2, i));
    OrDisjoint(Pow(2, i), Pack(w[..i]), i);
  }
}
