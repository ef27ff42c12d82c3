/**
 The stake modifier: up to 64 rounds, each of which picks one of the recent blocks by the lowest
 selection hash and contributes that block's entropy bit.
 */
module StakeModifier {
  import opened Wrappers
  import opened Collections
  import opened Arithmetic
  import opened Bits

  type Hash = nat

  datatype Block = Block(time: nat, height: int, stake: bool, entropy: bool)

  type Index = map<Hash, Block>

  /** A candidate: its time and its hash, ordered by both. */
  datatype Item = Item(time: int, hash: Hash)

  predicate Before(a: Item, b: Item) {
    a.time < b.time || (a.time == b.time && a.hash < b.hash)
  }

  ghost predicate Sorted(s: seq<Item>) {
    forall i, j | 0 <= i < j < |s| :: s[i].time < s[j].time || (s[i].time == s[j].time && s[i].hash <= s[j].hash)
  }

  ghost predicate DistinctHashes(s: seq<Item>) {
    forall i, j | 0 <= i < j < |s| :: s[i].hash != s[j].hash
  }

  /** The candidates are indexed under their hash, with their time. */
  ghost predicate Indexed(s: seq<Item>, index: Index) {
    forall i | 0 <= i < |s| :: s[i].hash in index && index[s[i].hash].time == s[i].time
  }

  const MODIFIER_INTERVAL: nat := 60
  const MODIFIER_INTERVAL_RATIO: nat := 3

  function Section(n: nat): nat
    requires n < 64
  {
    MODIFIER_INTERVAL * 63 / (63 + (63 - n) * (MODIFIER_INTERVAL_RATIO - 1))
  }

  /** The end of the selection interval in round `r`. */
  function Stop(start: int, r: nat): int
    requires r < 64
  {
    if r == 0 then start + Section(0) else Stop(start, r - 1) + Section(r)
  }

  /** A section is the interval divided by a number that falls evenly from three to one. */
  lemma SectionExact(n: nat)
    requires n < 64
    ensures Section(n) * (63 + 2 * (63 - n)) <= 60 * 63 < (Section(n) + 1) * (63 + 2 * (63 - n))
  {
    var d := 63 + 2 * (63 - n);
    assert Section(n) == 3780 / d && 3780 == d * (3780 / d) + 3780 % d;
    assert (3780 / d + 1) * d == d * (3780 / d) + d;
  }

  /** The last section is the whole modifier interval, and three times the first one. */
  lemma SectionEnds()
    ensures Section(63) == 60 && 3 * Section(0) == 60
  {
  }

  /** The value of section `n` is `q`. */
  predicate Lasts(n: nat, q: nat) {
    q * (189 - 2 * n) <= 3780 < (q + 1) * (189 - 2 * n)
  }

  lemma SectionIs(n: nat, q: nat)
    requires n < 64 && Lasts(n, q)
    ensures Section(n) == q
  {
    var d, r := 189 - 2 * n, Section(n);
    SectionExact(n);
    if q < r {
      MulMono(q + 1, r, d);
    } else if r < q {
      MulMono(r + 1, q, d);
    }
  }

  /** Seven sections more. */
  lemma Seven(r: nat, total: int, a: nat, b: nat, c: nat, d: nat, e: nat, f: nat, g: nat)
    requires r + 7 < 64 && Stop(0, r) == total
    requires Lasts(r + 1, a) && Lasts(r + 2, b) && Lasts(r + 3, c) && Lasts(r + 4, d) && Lasts(r + 5, e)
        && Lasts(r + 6, f) && Lasts(r + 7, g)
    ensures Stop(0, r + 7) == total + a + b + c + d + e + f + g
  {
    hide Section, Lasts;
    SectionIs(r + 1, a);
    SectionIs(r + 2, b);
    SectionIs(r + 3, c);
    assert Stop(0, r + 2) == total + a + b;
    SectionIs(r + 4, d);
    SectionIs(r + 5, e);
    assert Stop(0, r + 4) == total + a + b + c + d;
    SectionIs(r + 6, f);
    SectionIs(r + 7, g);
    assert Stop(0, r + 6) == total + a + b + c + d + e + f;
  }

  /** All sections together. */
  lemma IntervalExact()
    ensures Stop(0, 63) == 2087
  {
    hide Stop, Section;
    FirstStop();
    Seven(0, 20, 20, 20, 20, 20, 21, 21, 21);
    Seven(7, 163, 21, 22, 22, 22, 22, 23, 23);
    Seven(14, 318, 23, 24, 24, 24, 25, 25, 25);
    Seven(21, 488, 26, 26, 26, 27, 27, 28, 28);
    Seven(28, 676, 28, 29, 29, 30, 30, 31, 31);
    Seven(35, 884, 32, 32, 33, 34, 34, 35, 36);
    Seven(42, 1120, 36, 37, 38, 38, 39, 40, 41);
    Seven(49, 1389, 42, 43, 44, 45, 46, 47, 49);
    Seven(56, 1705, 50, 51, 53, 54, 56, 58, 60);
  }

  lemma FirstStop()
    ensures Stop(0, 0) == 20
  {
  }

  /** Sections grow, and every round's interval reaches further than the last. */
  lemma StopsAdvance(start: int, r: nat)
    requires r < 63
    ensures 0 < Section(r) <= Section(r + 1) && Stop(start, r) < Stop(start, r + 1)
  {
    var d, e := 63 + (63 - r) * 2, 63 + (62 - r) * 2;
    assert e * (3780 / d) <= d * (3780 / d) <= 3780 by { MulMono(e, d, 3780 / d); }
    DivAtLeast(3780, e, 3780 / d);
    DivAtLeast(3780, d, 1);
  }

  /** Whether the first candidate is high enough for the newer hashing rule. */
  predicate NewRule(s: seq<Item>, index: Index, upgrade: int) {
    s != [] && s[0].hash in index && index[s[0].hash].height >= upgrade
  }

  /** The whole selection interval is the sum of its sections. */
  method SelectionInterval() returns (interval: int)
    ensures interval == Stop(0, 63)
  {
    interval := 0;
    for n := 0 to 64
      invariant interval == if n == 0 then 0 else Stop(0, n - 1)
    {
      interval := interval + Section(n);
    }
  }

  lemma {:induction false} StopShifts(start: int, r: nat)
    requires r < 64
    ensures Stop(start, r) == start + Stop(0, r)
  {
    if r > 0 {
      StopShifts(start, r - 1);
    }
  }

  /** What a round compares: proof-of-stake blocks get theirs divided by 2^32. */
  function Weight(h: Hash, b: Block, newRule: bool, selection: Hash -> nat): nat {
    var proof := if newRule || !b.stake then h else 0;
    if b.stake then selection(proof) / 0x1_0000_0000 else selection(proof)
  }

  /**
   Dividing by 2^32 puts every proof-of-stake block below 2^224; under the older rule they all weigh the same, so the
   earliest free one of them is picked.
   */
  lemma StakeWeights(h: Hash, b: Block, k: Hash, c: Block, newRule: bool, selection: Hash -> nat)
    requires b.stake && forall x :: selection(x) < Pow(2, 256)
    ensures Weight(h, b, newRule, selection) < Pow(2, 224)
    ensures !newRule && c.stake ==> Weight(h, b, newRule, selection) == Weight(k, c, newRule, selection)
    ensures !c.stake ==> Weight(k, c, newRule, selection) == selection(k)
    ensures Weight(h, b, newRule, selection) == selection(if newRule then h else 0) / 0x1_0000_0000
  {
    hide Pow;
    PowAdd(2, 32, 224);
    Pow32();
    DivBelow(selection(if newRule then h else 0), 0x1_0000_0000, Pow(2, 224));
  }

  predicate Favoured(stakeHash: nat, workHash: nat) { stakeHash / 0x1_0000_0000 < workHash }

  /**
   A proof-of-work block loses to proof-of-stake blocks whatever their hashes exactly if its own selection hash is at
   least 2^224.
   */
  lemma StakeFavoured(workHash: nat)
    ensures (forall w: nat | w < Pow(2, 256) :: Favoured(w, workHash)) <==> workHash >= Pow(2, 224)
  {
    hide Pow;
    PowAdd(2, 32, 224);
    Pow32();
    if workHash >= Pow(2, 224) {
      forall w: nat | w < Pow(2, 256) ensures Favoured(w, workHash) {
        DivBelow(w, 0x1_0000_0000, Pow(2, 224));
      }
    } else {
      assert !Favoured(0x1_0000_0000 * workHash, workHash);
    }
  }

  lemma Pow32()
    ensures Pow(2, 32) == 0x1_0000_0000
  {
    assert Pow(2, 8) == 0x100;
    PowAdd(2, 8, 8);
    PowAdd(2, 16, 16);
  }

  ghost function WeightAt(s: seq<Item>, index: Index, newRule: bool, selection: Hash -> nat, i: nat): nat
    requires i < |s| && Indexed(s, index)
  {
    Weight(s[i].hash, index[s[i].hash], newRule, selection)
  }

  predicate Free(s: seq<Item>, taken: map<Hash, Block>, i: nat)
    requires i < |s|
  {
    s[i].hash !in taken
  }

  /** `k` is free and is the first of the lightest among `n` free candidates. */
  ghost predicate Lightest(s: seq<Item>, index: Index, taken: map<Hash, Block>, newRule: bool, selection: Hash -> nat,
      n: nat, k: nat)
    requires n <= |s| && Indexed(s, index)
  {
    && k < n && Free(s, taken, k)
    && forall j | 0 <= j < n && Free(s, taken, j) ::
         WeightAt(s, index, newRule, selection, k) < WeightAt(s, index, newRule, selection, j)
         || (WeightAt(s, index, newRule, selection, k) == WeightAt(s, index, newRule, selection, j) && k <= j)
  }

  /** The number of candidates up to the stop time; they come first. */
  ghost predicate UpTo(s: seq<Item>, stop: int, n: nat) {
    n <= |s| && (forall i | 0 <= i < n :: s[i].time <= stop) && (forall i | n <= i < |s| :: s[i].time > stop)
  }

  /**
   What a round should pick: the lightest free candidate up to the stop time, or if there is none the first free one.
   */
  ghost predicate IsPick(s: seq<Item>, index: Index, taken: map<Hash, Block>, stop: int, newRule: bool,
      selection: Hash -> nat, k: nat) {
    && Indexed(s, index) && k < |s| && Free(s, taken, k) && (exists n: nat :: UpTo(s, stop, n))
    && forall n: nat | UpTo(s, stop, n) ::
         if exists i :: 0 <= i < n && Free(s, taken, i) then Lightest(s, index, taken, newRule, selection, n, k)
         else forall i | 0 <= i < k :: !Free(s, taken, i)
  }

  method SelectBlock(s: seq<Item>, index: Index, taken: map<Hash, Block>, stop: int, upgrade: int,
      selection: Hash -> nat) returns (r: Option<nat>)
    ensures Indexed(s, index) && Sorted(s) && (exists i :: 0 <= i < |s| && Free(s, taken, i))
      ==> r.Some? && IsPick(s, index, taken, stop, NewRule(s, index, upgrade), selection, r.value)
    ensures Indexed(s, index) && (forall i | 0 <= i < |s| :: !Free(s, taken, i)) ==> r.None?
  {
    r := None;
    var newRule, best := false, 0;
    ghost var ok := Indexed(s, index) && Sorted(s);
    ghost var first := 0;
    for i := 0 to |s|
      invariant i > 0 && ok ==> newRule == NewRule(s, index, upgrade)
      invariant r.None? ==> forall j | 0 <= j < i :: !Free(s, taken, j)
      invariant r.Some? ==>
          r.value < i && first <= r.value && Free(s, taken, first) && (forall j | 0 <= j < first :: !Free(s, taken, j))
      invariant r.Some? && ok ==>
          best == WeightAt(s, index, newRule, selection, r.value)
          && Lightest(s, index, taken, newRule, selection, i, r.value)
      invariant r.Some? && ok ==> forall j | first < j < i :: s[j].time <= stop
    {
      var item := s[i];
      if item.hash !in index {
        return None;
      }
      var b := index[item.hash];
      if r.Some? && b.time > stop {
        if ok {
          Concludes(s, index, taken, stop, newRule, selection, i, first, r.value);
        }
        return;
      }
      if i == 0 {
        newRule := b.height >= upgrade;
      }
      if item.hash in taken {
        continue;
      }
      var weight := Weight(item.hash, b, newRule, selection);
      if r.Some? && weight < best {
        r, best := Some(i), weight;
      } else if r.None? {
        r, best := Some(i), weight;
        first := i;
      }
    }
    if ok && r.Some? {
      Concludes(s, index, taken, stop, newRule, selection, |s|, first, r.value);
    }
  }

  /** The loop has looked at `n` candidates: the first free one, and others only up to the stop time. */
  lemma Concludes(s: seq<Item>, index: Index, taken: map<Hash, Block>, stop: int, newRule: bool, selection: Hash -> nat,
      n: nat, first: nat, k: nat)
    requires Indexed(s, index) && Sorted(s) && n <= |s| && Lightest(s, index, taken, newRule, selection, n, k)
    requires first <= k && Free(s, taken, first) && (forall j | 0 <= j < first :: !Free(s, taken, j))
        && (forall j | first < j < n :: s[j].time <= stop)
    requires n < |s| ==> s[n].time > stop
    ensures IsPick(s, index, taken, stop, newRule, selection, k)
  {
    hide Weight;
    var all := UpToExists(s, stop, |s|);
    forall m: nat | UpTo(s, stop, m)
      ensures if exists i :: 0 <= i < m && Free(s, taken, i) then Lightest(s, index, taken, newRule, selection, m, k)
              else forall i | 0 <= i < k :: !Free(s, taken, i)
    {
      if i :| 0 <= i < m && Free(s, taken, i) {
        assert first <= i && s[first].time <= stop by { InOrder(s, first, i); }
        assert forall j | 0 <= j < m && Free(s, taken, j) :: j < n by { Within(s, stop, m, n); }
      }
    }
  }

  lemma InOrder(s: seq<Item>, i: nat, j: nat)
    requires Sorted(s) && i <= j < |s|
    ensures s[i].time <= s[j].time
  {
  }

  lemma Within(s: seq<Item>, stop: int, m: nat, n: nat)
    requires Sorted(s) && UpTo(s, stop, m) && n <= |s| && (n < |s| ==> s[n].time > stop)
    ensures m <= n
  {
  }

  /** Some number of candidates lies within the stop time. */
  lemma {:induction false} UpToExists(s: seq<Item>, stop: int, n: nat) returns (m: nat)
    requires Sorted(s) && n <= |s| && forall i | n <= i < |s| :: s[i].time > stop
    ensures UpTo(s, stop, m)
  {
    if n == 0 || s[n - 1].time <= stop {
      m := n;
      forall i | 0 <= i < n ensures s[i].time <= stop {
        InOrder(s, i, n - 1);
      }
    } else {
      m := UpToExists(s, stop, n - 1);
    }
  }

  // ----- the candidates

  ghost predicate Walkable(branch: seq<Hash>, index: Index) {
    && (forall i | 0 <= i < |branch| :: branch[i] in index)
    && (forall i, j | 0 <= i < j < |branch| :: branch[i] != branch[j])
  }

  ghost predicate Listed(s: seq<Item>, h: Hash) {
    exists k :: 0 <= k < |s| && s[k].hash == h
  }

  /** This block and all newer ones of the branch are within the selection interval. */
  ghost predicate Recent(branch: seq<Hash>, index: Index, start: int, i: nat)
    requires Walkable(branch, index) && i < |branch|
  {
    forall j | 0 <= j <= i :: index[branch[j]].time >= start
  }

  /** The blocks from the newest back to the first one older than the interval. */
  method Collect(branch: seq<Hash>, index: Index, start: int) returns (items: seq<Item>)
    requires Walkable(branch, index)
    ensures |items| <= |branch| && Indexed(items, index) && DistinctHashes(items)
    ensures forall i | 0 <= i < |items| :: items[i].hash == branch[i] && items[i].time >= start
    ensures |items| < |branch| ==> index[branch[|items|]].time < start
  {
    items := [];
    while |items| < |branch| && index[branch[|items|]].time >= start
      invariant |items| <= |branch| && Indexed(items, index)
      invariant forall i | 0 <= i < |items| :: items[i].hash == branch[i] && items[i].time >= start
      decreases |branch| - |items|
    {
      var h := branch[|items|];
      items := items + [Item(index[h].time, h)];
    }
  }

  ghost predicate Insertion(s: seq<Item>, x: Item, p: nat) {
    p <= |s| && (forall i | 0 <= i < p :: Before(s[i], x)) && (p < |s| ==> !Before(s[p], x))
  }

  lemma InsertKeeps(s: seq<Item>, x: Item, p: nat)
    requires Sorted(s) && Insertion(s, x, p)
    ensures var t := s[..p] + [x] + s[p..]; Sorted(t) && multiset(t) == multiset(s) + multiset{x}
  {
    var t := s[..p] + [x] + s[p..];
    assert s == s[..p] + s[p..];
    forall i, j | 0 <= i < j < |t| ensures !Before(t[j], t[i]) {
      if i == p {
        assert t[j] == s[j - 1];
        assert p < |s| && (j - 1 == p || !Before(s[j - 1], s[p]));
      }
    }
  }

  /** Sorting by time, then by hash. */
  method Sort(items: seq<Item>) returns (r: seq<Item>)
    ensures Sorted(r) && multiset(r) == multiset(items)
  {
    hide Before;
    r := [];
    for i := 0 to |items|
      invariant Sorted(r) && multiset(r) == multiset(items[..i])
    {
      var x, p := items[i], 0;
      while p < |r| && Before(r[p], x)
        invariant p <= |r| && forall k | 0 <= k < p :: Before(r[k], x)
      {
        p := p + 1;
      }
      InsertKeeps(r, x, p);
      r := r[..p] + [x] + r[p..];
      assert items[..i + 1] == items[..i] + [x];
    }
    assert items[..|items|] == items;
  }

  lemma {:induction false} Once(s: seq<Item>, x: Item)
    requires DistinctHashes(s)
    ensures multiset(s)[x] <= 1 && (multiset(s)[x] == 1 ==> x in s)
  {
    if s != [] {
      var n := |s| - 1;
      Once(s[..n], x);
      assert s == s[..n] + [s[n]];
      assert x in s[..n] ==> exists i :: 0 <= i < n && s[i] == x;
    }
  }

  lemma {:induction false} Twice(s: seq<Item>, i: nat, j: nat)
    requires i < j < |s| && s[i] == s[j]
    ensures multiset(s)[s[i]] >= 2
  {
    assert s == s[..j] + [s[j]] + s[j + 1..];
    assert s[i] in s[..j];
    assert s[i] in multiset(s[..j]);
  }

  /** A permutation of distinct indexed candidates. */
  lemma PermutationKeeps(s: seq<Item>, t: seq<Item>, index: Index)
    requires Indexed(s, index) && DistinctHashes(s) && multiset(s) == multiset(t)
    ensures Indexed(t, index) && DistinctHashes(t) && |s| == |t|
  {
    assert |multiset(s)| == |s| && |multiset(t)| == |t|;
    forall i | 0 <= i < |t| ensures t[i].hash in index && index[t[i].hash].time == t[i].time {
      var x := t[i];
      assert x in t;
      assert x in multiset(t);
      assert x in multiset(s);
      assert x in s;
    }
    forall i, j | 0 <= i < j < |t| ensures t[i].hash != t[j].hash {
      Once(s, t[i]);
      if t[i] == t[j] {
        Twice(t, i, j);
      } else {
        assert t[i].hash in index && t[j].hash in index;
      }
    }
  }

  // ----- the rounds

  /** The blocks picked in the rounds so far. */
  ghost predicate Taken(s: seq<Item>, index: Index, picks: seq<nat>, taken: map<Hash, Block>) {
    && Indexed(s, index) && (forall q | 0 <= q < |picks| :: picks[q] < |s|)
    && (forall h :: h in taken <==> exists q :: 0 <= q < |picks| && s[picks[q]].hash == h)
  }

  lemma {:induction false} Unpicked(picks: seq<nat>, n: nat) returns (i: nat)
    requires |picks| < n
    ensures i < n && i !in picks
  {
    if n - 1 !in picks {
      i := n - 1;
    } else {
      var q :| 0 <= q < |picks| && picks[q] == n - 1;
      var rest := picks[..q] + picks[q + 1..];
      i := Unpicked(rest, n - 1);
      assert picks == picks[..q] + [n - 1] + picks[q + 1..];
    }
  }

  lemma SomeFree(s: seq<Item>, index: Index, picks: seq<nat>, taken: map<Hash, Block>)
    requires Taken(s, index, picks, taken) && DistinctHashes(s) && |picks| < |s|
    ensures exists i :: 0 <= i < |s| && Free(s, taken, i)
  {
    var i := Unpicked(picks, |s|);
    forall q | 0 <= q < |picks| ensures s[picks[q]].hash != s[i].hash {
      assert picks[q] in picks;
      var p := picks[q];
      assert p != i;
    }
    assert Free(s, taken, i);
  }

  lemma TakenNext(s: seq<Item>, index: Index, picks: seq<nat>, taken: map<Hash, Block>, k: nat)
    requires Taken(s, index, picks, taken) && k < |s| && Free(s, taken, k) && Distinct(picks)
    ensures Taken(s, index, picks + [k], taken[s[k].hash := index[s[k].hash]]) && Distinct(picks + [k])
  {
    var more, now := picks + [k], taken[s[k].hash := index[s[k].hash]];
    forall h ensures h in now <==> exists q :: 0 <= q < |more| && s[more[q]].hash == h {
      if h in now {
        if h == s[k].hash {
          assert more[|picks|] == k;
        } else {
          var q :| 0 <= q < |picks| && s[picks[q]].hash == h;
          assert more[q] == picks[q];
        }
      }
    }
    forall q | 0 <= q < |picks| ensures picks[q] != k {
      assert s[picks[q]].hash in taken;
    }
  }

  /** Round `r` picked as it should, given what was picked before. */
  ghost predicate RoundOk(s: seq<Item>, index: Index, picks: seq<nat>, r: nat, start: int, newRule: bool,
      selection: Hash -> nat)
    requires r < |picks| && r < 64
  {
    && (exists taken :: Taken(s, index, picks[..r], taken))
    && forall taken ::
        Taken(s, index, picks[..r], taken) ==> IsPick(s, index, taken, Stop(start, r), newRule, selection, picks[r])
  }

  ghost function Entropy(s: seq<Item>, index: Index, picks: seq<nat>): seq<bool>
    requires Indexed(s, index) && forall q | 0 <= q < |picks| :: picks[q] < |s|
  {
    seq(|picks|, q requires 0 <= q < |picks| => index[s[picks[q]].hash].entropy)
  }

  /**
   As many rounds as there are candidates, up to 64: every one picks a block not picked before, and adds its entropy
   bit.
   */
  method Rounds(s: seq<Item>, index: Index, start: int, upgrade: int, selection: Hash -> nat)
      returns (picks: seq<nat>, modifier: nat)
    requires Indexed(s, index) && Sorted(s) && DistinctHashes(s)
    ensures |picks| == Min(64, |s|) && Distinct(picks) && (forall q | 0 <= q < |picks| :: picks[q] < |s|)
    ensures forall r | 0 <= r < |picks| :: RoundOk(s, index, picks, r, start, NewRule(s, index, upgrade), selection)
    ensures modifier == Pack(Entropy(s, index, picks)) && modifier < 0x1_0000_0000_0000_0000
    ensures Holds(modifier, s, index, picks)
  {
    hide Holds, Pow, Pack, Or, Section, IsPick, Taken, RoundOk;
    picks, modifier := [], 0;
    var stop, taken: map<Hash, Block> := start, map[];
    NoneTaken(s, index);
    PackEmpty();
    while |picks| < Min(64, |s|)
      invariant |picks| <= Min(64, |s|) && Distinct(picks) && (forall q | 0 <= q < |picks| :: picks[q] < |s|)
      invariant stop == if picks == [] then start else Stop(start, |picks| - 1)
      invariant Taken(s, index, picks, taken) && modifier == Pack(Entropy(s, index, picks))
      invariant forall r | 0 <= r < |picks| :: RoundOk(s, index, picks, r, start, NewRule(s, index, upgrade), selection)
      decreases 64 - |picks|
    {
      var round := |picks|;
      stop := stop + Section(round);
      SomeFree(s, index, picks, taken);
      var r := SelectBlock(s, index, taken, stop, upgrade, selection);
      var k := r.value;
      PickFacts(s, index, taken, stop, NewRule(s, index, upgrade), selection, k);
      RoundNext(s, index, picks, taken, start, NewRule(s, index, upgrade), selection, k);
      TakenNext(s, index, picks, taken, k);
      EntropyNext(s, index, picks, k);
      if index[s[k].hash].entropy {
        modifier := Or(modifier, Pow(2, round));
      }
      taken := taken[s[k].hash := index[s[k].hash]];
      picks := picks + [k];
    }
    Fits64(Entropy(s, index, picks));
    HoldsAll(s, index, picks);
  }

  /** Bit `q` of the modifier is the entropy bit of the block picked in round `q`, and there are no further bits. */
  ghost predicate Holds(modifier: nat, s: seq<Item>, index: Index, picks: seq<nat>)
    requires Indexed(s, index) && forall q | 0 <= q < |picks| :: picks[q] < |s|
  {
    && modifier < Pow(2, |picks|)
    && forall q | 0 <= q < |picks| ::
        Pow(2, q) > 0 && ((modifier / Pow(2, q)) % 2 == 1 <==> index[s[picks[q]].hash].entropy)
  }

  lemma HoldsAll(s: seq<Item>, index: Index, picks: seq<nat>)
    requires Indexed(s, index) && forall q | 0 <= q < |picks| :: picks[q] < |s|
    ensures Holds(Pack(Entropy(s, index, picks)), s, index, picks)
  {
    hide Pow, Pack;
    var w := Entropy(s, index, picks);
    PackLast(w, false);
    forall q | 0 <= q < |picks|
      ensures Pow(2, q) > 0 && ((Pack(w) / Pow(2, q)) % 2 == 1 <==> index[s[picks[q]].hash].entropy)
    {
      PackBit(w, q);
    }
  }

  lemma NoneTaken(s: seq<Item>, index: Index)
    requires Indexed(s, index)
    ensures Taken(s, index, [], map[]) && Entropy(s, index, []) == []
  {
  }

  lemma PickFacts(s: seq<Item>, index: Index, taken: map<Hash, Block>, stop: int, newRule: bool, selection: Hash -> nat,
      k: nat)
    requires IsPick(s, index, taken, stop, newRule, selection, k)
    ensures k < |s| && Free(s, taken, k)
  {
  }

  lemma RoundNext(s: seq<Item>, index: Index, picks: seq<nat>, taken: map<Hash, Block>, start: int, newRule: bool,
      selection: Hash -> nat, k: nat)
    requires Taken(s, index, picks, taken) && |picks| < 64
        && IsPick(s, index, taken, Stop(start, |picks|), newRule, selection, k)
    requires forall r | 0 <= r < |picks| :: RoundOk(s, index, picks, r, start, newRule, selection)
    ensures forall r | 0 <= r < |picks| + 1 :: RoundOk(s, index, picks + [k], r, start, newRule, selection)
  {
    hide Weight;
    var more := picks + [k];
    forall r | 0 <= r < |more| ensures RoundOk(s, index, more, r, start, newRule, selection) {
      if r < |picks| {
        assert more[..r] == picks[..r] && RoundOk(s, index, picks, r, start, newRule, selection);
      } else {
        assert more[..r] == picks;
        forall other | Taken(s, index, picks, other) ensures IsPick(s, index, other, Stop(start, r), newRule, selection,
            k) {
          SameTaken(s, index, picks, taken, other, Stop(start, r), newRule, selection, k);
        }
      }
    }
  }

  /** A pick depends only on which blocks are taken. */
  lemma SameTaken(s: seq<Item>, index: Index, picks: seq<nat>, a: map<Hash, Block>, b: map<Hash, Block>, stop: int,
      newRule: bool, selection: Hash -> nat, k: nat)
    requires Taken(s, index, picks, a) && Taken(s, index, picks, b) && IsPick(s, index, a, stop, newRule, selection, k)
    ensures IsPick(s, index, b, stop, newRule, selection, k)
  {
    hide Weight;
    forall i | 0 <= i < |s| ensures Free(s, a, i) <==> Free(s, b, i) {
      assert s[i].hash in a <==> s[i].hash in b;
    }
    forall n: nat | UpTo(s, stop, n)
      ensures if exists i ::
          0 <= i < n && Free(s, b, i) then Lightest(s, index, b, newRule, selection, n, k) else
          forall i | 0 <= i < k :: !Free(s, b, i)
    {
      if i :| 0 <= i < n && Free(s, b, i) {
        assert Free(s, a, i);
        assert Lightest(s, index, a, newRule, selection, n, k);
      }
    }
  }

  lemma EntropyNext(s: seq<Item>, index: Index, picks: seq<nat>, k: nat)
    requires Indexed(s, index) && k < |s| && forall q | 0 <= q < |picks| :: picks[q] < |s|
    ensures (forall q | 0 <= q < |picks + [k]| :: (picks + [k])[q] < |s|)
    ensures Pack(Entropy(s, index, picks + [k])) == if index[s[k].hash].entropy then
        Or(Pack(Entropy(s, index, picks)), Pow(2, |picks|)) else Pack(Entropy(s, index, picks))
  {
    hide Pow, Pack, Or;
    var w := Entropy(s, index, picks + [k]);
    assert w[..|picks|] == Entropy(s, index, picks) && w[..|picks| + 1] == w;
    BitJoins(w, |picks|);
  }

  lemma Fits64(w: seq<bool>)
    requires |w| <= 64
    ensures Pack(w) < 0x1_0000_0000_0000_0000
  {
    hide Pow, Pack;
    PackLast(w, false);
    PowGrows(2, |w|, 64);
    Pow64();
  }

  lemma Pow64()
    ensures Pow(2, 64) == 0x1_0000_0000_0000_0000
  {
    Pow32();
    PowAdd(2, 32, 32);
  }

  /**
   A new modifier from the branch that ends in the previous block; the selection interval of 2087 seconds ends where the
   current modifier interval of a minute starts.
   */
  method NextModifier(branch: seq<Hash>, index: Index, upgrade: int, selection: Hash -> nat)
      returns (start: int, s: seq<Item>, picks: seq<nat>, modifier: nat)
    requires Walkable(branch, index) && branch != []
    ensures start == index[branch[0]].time / 60 * 60 - 2087
    ensures Stop(start, 63) == index[branch[0]].time / 60 * 60
    ensures Indexed(s, index) && Sorted(s) && DistinctHashes(s) && |s| <= |branch|
    ensures forall i | 0 <= i < |branch| :: Listed(s, branch[i]) <==> Recent(branch, index, start, i)
    ensures |picks| == Min(64, |s|) && Distinct(picks) && (forall q | 0 <= q < |picks| :: picks[q] < |s|)
    ensures forall r | 0 <= r < |picks| :: RoundOk(s, index, picks, r, start, NewRule(s, index, upgrade), selection)
    ensures modifier == Pack(Entropy(s, index, picks)) && Holds(modifier, s, index, picks)
  {
    hide RoundOk, Pack, Before, Stop, Holds;
    var interval := SelectionInterval();
    start := index[branch[0]].time / MODIFIER_INTERVAL * MODIFIER_INTERVAL - interval;
    StopShifts(start, 63);
    IntervalExact();
    var items := Collect(branch, index, start);
    s := Sort(items);
    PermutationKeeps(items, s, index);
    Members(branch, index, start, items, s);
    picks, modifier := Rounds(s, index, start, upgrade, selection);
  }

  lemma Members(branch: seq<Hash>, index: Index, start: int, items: seq<Item>, s: seq<Item>)
    requires Walkable(branch, index) && |items| <= |branch| && Indexed(items, index) && multiset(items) == multiset(s)
    requires forall i | 0 <= i < |items| :: items[i].hash == branch[i] && items[i].time >= start
    requires |items| < |branch| ==> index[branch[|items|]].time < start
    ensures forall i | 0 <= i < |branch| :: Listed(s, branch[i]) <==> Recent(branch, index, start, i)
  {
    forall i | 0 <= i < |branch| ensures Listed(s, branch[i]) <==> Recent(branch, index, start, i) {
      if i < |items| {
        var x := items[i];
        assert x in items;
        assert x in multiset(items);
        assert x in multiset(s);
        assert x in s;
        forall j | 0 <= j <= i ensures index[branch[j]].time >= start {
          assert items[j].hash == branch[j];
        }
      } else {
        forall k | 0 <= k < |s| ensures s[k].hash != branch[i] {
          var x := s[k];
          assert x in s;
          assert x in multiset(s);
          assert x in multiset(items);
          assert x in items;
        }
        assert |items| <= i && index[branch[|items|]].time < start;
      }
    }
  }
}
