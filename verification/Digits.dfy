/** Numbers as digits of any base, highest digit first. */
module Digits {
  import opened Arithmetic

  function Number(s: seq<nat>, base: nat): nat {
    if s == [] then 0 else Number(s[..|s| - 1], base) * base + s[|s| - 1]
  }

  predicate AreDigits(s: seq<nat>, base: nat) {
    forall i | 0 <= i < |s| :: s[i] < base
  }

  function LeadingZeros(s: seq<nat>): (z: nat)
    ensures z <= |s|
  {
    if s == [] || s[0] != 0 then 0 else 1 + LeadingZeros(s[1..])
  }

  lemma {:induction false} NumberBound(s: seq<nat>, base: nat)
    requires AreDigits(s, base)
    ensures Number(s, base) < Pow(base, |s|)
  {
    if s != [] {
      var n := |s| - 1;
      NumberBound(s[..n], base);
      MulMono(Number(s[..n], base) + 1, Pow(base, n), base);
      assert (Number(s[..n], base) + 1) * base == Number(s[..n], base) * base + base;
    }
  }

  /** A new highest digit. */
  lemma {:induction false} NumberFirst(x: nat, s: seq<nat>, base: nat)
    ensures Number([x] + s, base) == x * Pow(base, |s|) + Number(s, base)
  {
    var t := [x] + s;
    if s == [] {
      assert t[..0] == [];
    } else {
      var n := |s| - 1;
      NumberFirst(x, s[..n], base);
      assert t[..n + 1] == [x] + s[..n];
      FirstStep(x, Pow(base, n), Number(s[..n], base), base);
    }
  }

  lemma FirstStep(x: nat, p: nat, v: nat, base: nat)
    ensures (x * p + v) * base == x * (base * p) + v * base
  {
    assert (x * p + v) * base == (x * p) * base + v * base;
    MulAssoc(x, p, base);
    assert p * base == base * p;
  }

  lemma {:induction false} ZerosAre(s: seq<nat>, i: nat)
    requires i < LeadingZeros(s)
    ensures s[i] == 0
  {
    if i > 0 {
      ZerosAre(s[1..], i - 1);
    }
  }

  lemma {:induction false} ZerosEnd(s: seq<nat>)
    ensures LeadingZeros(s) < |s| ==> s[LeadingZeros(s)] != 0
  {
    if s != [] && s[0] == 0 {
      ZerosEnd(s[1..]);
    }
  }

  /** The count of leading zeros, by its defining property. */
  lemma {:induction false} ZerosCount(s: seq<nat>, z: nat)
    requires z <= |s| && (forall i | 0 <= i < z :: s[i] == 0) && (z < |s| ==> s[z] != 0)
    ensures LeadingZeros(s) == z
  {
    if z > 0 {
      ZerosCount(s[1..], z - 1);
    }
  }

  /** Leading zeros do not count. */
  lemma {:induction false} DropZeros(s: seq<nat>, z: nat, base: nat)
    requires z <= |s| && forall i | 0 <= i < z :: s[i] == 0
    ensures Number(s, base) == Number(s[z..], base)
  {
    if z > 0 {
      DropZeros(s[1..], z - 1, base);
      assert s == [s[0]] + s[1..] && s[1..][z - 1..] == s[z..];
      NumberFirst(0, s[1..], base);
    } else {
      assert s[0..] == s;
    }
  }

  lemma {:induction false} NumberZero(s: seq<nat>, base: nat)
    requires base > 0 && Number(s, base) == 0
    ensures LeadingZeros(s) == |s|
  {
    forall i | 0 <= i < |s| ensures s[i] == 0 {
      AllZero(s, base, i);
    }
    ZerosCount(s, |s|);
  }

  lemma {:induction false} AllZero(s: seq<nat>, base: nat, i: nat)
    requires base > 0 && Number(s, base) == 0 && i < |s|
    ensures s[i] == 0
  {
    var n := |s| - 1;
    var v := Number(s[..n], base);
    MulMono(1, base, v);
    assert v * base >= v;
    if i < n {
      AllZero(s[..n], base, i);
    }
  }

  /** Value and number of leading zeros determine the digits. */
  lemma {:induction false} DigitsUnique(s: seq<nat>, t: seq<nat>, base: nat)
    requires base > 0 && AreDigits(s, base) && AreDigits(t, base)
    requires Number(s, base) == Number(t, base) && LeadingZeros(s) == LeadingZeros(t)
    ensures s == t
    decreases |s|
  {
    if Number(s, base) == 0 {
      NumberZero(s, base);
      NumberZero(t, base);
      forall i | 0 <= i < |s| ensures s[i] == t[i] {
        ZerosAre(s, i);
        ZerosAre(t, i);
      }
    } else {
      var m, n := |s| - 1, |t| - 1;
      LastDigit(s, t, base);
      NotAllZero(s, base);
      NotAllZero(t, base);
      PrefixZeros(s);
      PrefixZeros(t);
      DigitsUnique(s[..m], t[..n], base);
      assert s == s[..m] + [s[m]] && t == t[..n] + [t[n]];
    }
  }

  lemma LastDigit(s: seq<nat>, t: seq<nat>, base: nat)
    requires base > 0 && s != [] && t != [] && AreDigits(s, base) && AreDigits(t, base)
        && Number(s, base) == Number(t, base)
    ensures s[|s| - 1] == t[|t| - 1] && Number(s[..|s| - 1], base) == Number(t[..|t| - 1], base)
  {
    ModUnique(s[|s| - 1], Number(s[..|s| - 1], base), base, Number(s, base));
    ModUnique(t[|t| - 1], Number(t[..|t| - 1], base), base, Number(t, base));
  }

  lemma NotAllZero(s: seq<nat>, base: nat)
    requires Number(s, base) > 0
    ensures LeadingZeros(s) < |s|
  {
    if LeadingZeros(s) == |s| {
      forall i | 0 <= i < |s| ensures s[i] == 0 {
        ZerosAre(s, i);
      }
      DropZeros(s, |s|, base);
    }
  }

  lemma PrefixZeros(s: seq<nat>)
    requires LeadingZeros(s) < |s|
    ensures LeadingZeros(s[..|s| - 1]) == LeadingZeros(s)
  {
    var z := LeadingZeros(s);
    ZerosEnd(s);
    forall i | 0 <= i < z ensures s[i] == 0 {
      ZerosAre(s, i);
    }
    ZerosCount(s[..|s| - 1], z);
  }
}
