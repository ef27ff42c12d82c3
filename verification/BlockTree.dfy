/**
 The block index as a tree: every entry points to its parent, and to one further ancestor that makes
 long walks short.  A pointer is a position in the sequence of entries, in order of creation.
 */
module BlockTree {
  import opened Wrappers
  import opened Arithmetic
  import opened Bits

  /**
   One index entry.  The status word is split into its parts: the validity level (its low three bits),
   the flag for stored block data, and the two failure flags.  `address` stands for the entry's place in
   memory, which the work order uses as its last tie-breaker.
   */
  datatype Node = Node(
    hash: nat, prev: Option<nat>, skip: Option<nat>, height: nat, work: nat, address: nat,
    nTx: nat, nChainTx: nat, sequenceId: nat,
    level: nat, haveData: bool, failedValid: bool, failedChild: bool)
  {
    predicate Failed() { failedValid || failedChild }
    predicate IsValid(upTo: nat) { !Failed() && level >= upTo }
    function RaiseValidity(upTo: nat): Node {
      if !Failed() && level < upTo then this.(level := upTo) else this
    }
  }

  const VALID_TREE: nat := 2
  const VALID_TRANSACTIONS: nat := 3
  const VALID_CHAIN: nat := 4
  const VALID_SCRIPTS: nat := 5

  // ----- skip heights

  /** n & (n - 1) */
  function InvertLowestOne(n: nat): nat {
    if n == 0 then 0 else And(n, n - 1)
  }

  function GetSkipHeight(height: nat): nat {
    if height < 2 then 0
    else if height % 2 == 1 then InvertLowestOne(InvertLowestOne(height - 1)) + 1
    else InvertLowestOne(height)
  }

  /** The lowest '1' bit becomes a '0' and every other bit stays. */
  lemma {:induction false} InvertLowestOneExact(k: nat, j: nat)
    ensures (2 * k + 1) * Pow(2, j) > 0
    ensures InvertLowestOne((2 * k + 1) * Pow(2, j)) == 2 * k * Pow(2, j)
  {
    hide Pow;
    PowPositive(2, j);
    if j == 0 {
      AndSelf(k);
      PowSteps(0);
      assert (2 * k + 1 - 1) / 2 == k;
    } else {
      InvertLowestOneExact(k, j - 1);
      PowSteps(j - 1);
      Twice(2 * k + 1, Pow(2, j - 1));
      Twice(2 * k, Pow(2, j - 1));
      InvertTwice((2 * k + 1) * Pow(2, j - 1));
    }
  }

  /** The skip height of an even height lacks its lowest one bit. */
  lemma SkipEvenExact(k: nat, j: nat)
    requires j > 0
    ensures GetSkipHeight((2 * k + 1) * Pow(2, j)) == 2 * k * Pow(2, j)
  {
    hide Pow, InvertLowestOne, GetSkipHeight;
    SkipEven(2 * k + 1, j);
    InvertLowestOneExact(k, j);
  }

  /** That of an odd height lacks the two lowest ones above the bit for one, or the only one there is. */
  lemma SkipOddExact(k: nat, i: nat, j: nat)
    requires 0 < j < i
    ensures GetSkipHeight(Pow(2, j) + 1) == 1
    ensures GetSkipHeight((2 * k + 1) * Pow(2, i) + Pow(2, j) + 1) == 2 * k * Pow(2, i) + 1
  {
    hide Pow, InvertLowestOne, GetSkipHeight;
    SkipEven(1, j);
    InvertLowestOneExact(0, j);
    InvertZero();
    TwoOnes(k, i, j);
    SumEven(k, i, j);
    InvertLowestOneExact(k, i);
    SkipCases((2 * k + 1) * Pow(2, i) + Pow(2, j));
  }

  lemma SumEven(k: nat, i: nat, j: nat)
    requires 0 < j < i
    ensures var n := (2 * k + 1) * Pow(2, i) + Pow(2, j); n >= 2 && n % 2 == 0
  {
    hide Pow, GetSkipHeight, InvertLowestOne;
    SkipEven(2 * k + 1, i);
    SkipEven(1, j);
  }

  lemma SkipEven(a: nat, j: nat)
    requires a > 0 && j > 0
    ensures a * Pow(2, j) >= 2 && (a * Pow(2, j)) % 2 == 0
    ensures GetSkipHeight(a * Pow(2, j)) == InvertLowestOne(a * Pow(2, j))
    ensures GetSkipHeight(a * Pow(2, j) + 1) == InvertLowestOne(InvertLowestOne(a * Pow(2, j))) + 1
  {
    hide Pow, InvertLowestOne;
    PowPositive(2, j - 1);
    PowSteps(j - 1);
    EvenProduct(a, Pow(2, j - 1));
  }

  lemma SkipCases(n: nat)
    requires n >= 2 && n % 2 == 0
    ensures GetSkipHeight(n + 1) == InvertLowestOne(InvertLowestOne(n)) + 1
  {
  }

  lemma InvertZero()
    ensures InvertLowestOne(0) == 0
  {
  }

  /** Clearing the lowest of two or more ones. */
  lemma TwoOnes(k: nat, i: nat, j: nat)
    requires j < i
    ensures InvertLowestOne((2 * k + 1) * Pow(2, i) + Pow(2, j)) == (2 * k + 1) * Pow(2, i)
  {
    hide Pow, InvertLowestOne;
    var p, q := Pow(2, j), Pow(2, i - j - 1);
    PowAdd(2, j, i - j);
    PowSteps(i - j - 1);
    assert Pow(2, i) == p * (2 * q);
    var m := (2 * k + 1) * q;
    InvertLowestOneExact(m, j);
    assert 2 * m * p == (2 * k + 1) * (p * (2 * q)) by { Regroup(2 * k + 1, p, q); }
    assert (2 * m + 1) * p == 2 * m * p + p;
  }

  lemma Regroup(a: nat, p: nat, q: nat)
    ensures 2 * (a * q) * p == a * (p * (2 * q))
  {
    assert p * (2 * q) == 2 * (p * q);
    assert a * (2 * (p * q)) == 2 * (a * (p * q));
    assert a * (p * q) == (a * q) * p by { MulAssoc(a, q, p); assert p * q == q * p; }
    assert 2 * (a * q) * p == 2 * ((a * q) * p);
  }

  lemma EvenProduct(a: nat, p: nat)
    ensures (a * (2 * p)) % 2 == 0 && (a > 0 && p > 0 ==> a * (2 * p) >= 2)
  {
    assert a * (2 * p) == 2 * (a * p);
    if a > 0 && p > 0 {
      MulMono(1, a, p);
    }
  }

  lemma PowSteps(j: nat)
    ensures Pow(2, j + 1) == 2 * Pow(2, j) && Pow(2, 0) == 1
  {
  }

  lemma InvertTwice(m: nat)
    requires m > 0
    ensures InvertLowestOne(2 * m) == 2 * InvertLowestOne(m)
  {
    assert 2 * m / 2 == m && (2 * m - 1) / 2 == m - 1 && 2 * m % 2 == 0;
  }

  lemma Twice(a: nat, b: nat)
    ensures a * (2 * b) == 2 * (a * b)
  {
  }

  lemma InvertBelow(n: nat)
    ensures InvertLowestOne(n) <= n && (n > 0 ==> InvertLowestOne(n) < n)
  {
    if n > 0 {
      AndBelow(n, n - 1);
    }
  }

  /** The one demand the skip list makes: jumps go strictly back. */
  lemma SkipGoesBack(height: nat)
    requires height > 0
    ensures GetSkipHeight(height) < height
  {
    InvertBelow(height);
    InvertBelow(height - 1);
    InvertBelow(InvertLowestOne(height - 1));
  }

  // ----- the tree and the plain walk

  ghost predicate NodeOk(ns: seq<Node>, i: nat)
    requires i < |ns|
  {
    match ns[i].prev
    case None => ns[i].height == 0
    case Some(p) => p < i && ns[i].height == ns[p].height + 1
  }

  ghost predicate WellFormed(ns: seq<Node>) {
    forall i | 0 <= i < |ns| :: NodeOk(ns, i)
  }

  /** Follow parents from entry `i` down to height `h`. */
  ghost function Walk(ns: seq<Node>, i: nat, h: nat): nat
    requires WellFormed(ns) && i < |ns| && h <= ns[i].height
    decreases i
  {
    if ns[i].height == h then i else assert NodeOk(ns, i); Walk(ns, ns[i].prev.value, h)
  }

  lemma {:induction false} WalkHeight(ns: seq<Node>, i: nat, h: nat)
    requires WellFormed(ns) && i < |ns| && h <= ns[i].height
    ensures Walk(ns, i, h) <= i && ns[Walk(ns, i, h)].height == h
    decreases i
  {
    if ns[i].height != h {
      assert NodeOk(ns, i);
      WalkHeight(ns, ns[i].prev.value, h);
    }
  }

  lemma {:induction false} WalkOn(ns: seq<Node>, i: nat, h: nat, g: nat)
    requires WellFormed(ns) && i < |ns| && g <= h <= ns[i].height
    ensures Walk(ns, i, h) < |ns| && ns[Walk(ns, i, h)].height == h
    ensures Walk(ns, Walk(ns, i, h), g) == Walk(ns, i, g)
    decreases i
  {
    WalkHeight(ns, i, h);
    if ns[i].height != h {
      assert NodeOk(ns, i);
      WalkOn(ns, ns[i].prev.value, h, g);
    }
  }

  /** The same parents and heights, and possibly more entries. */
  ghost predicate Grown(ns: seq<Node>, ms: seq<Node>) {
    && |ns| <= |ms|
    && forall i | 0 <= i < |ns| :: ms[i].prev == ns[i].prev && ms[i].skip == ns[i].skip && ms[i].height == ns[i].height
                                && ms[i].hash == ns[i].hash && ms[i].work == ns[i].work
                                    && ms[i].address == ns[i].address
  }

  lemma {:induction false} WalkGrown(ns: seq<Node>, ms: seq<Node>, i: nat, h: nat)
    requires WellFormed(ns) && WellFormed(ms) && Grown(ns, ms) && i < |ns| && h <= ns[i].height
    ensures Walk(ms, i, h) == Walk(ns, i, h)
    decreases i
  {
    if ns[i].height != h {
      assert NodeOk(ns, i);
      WalkGrown(ns, ms, ns[i].prev.value, h);
    }
  }

  // ----- the skip list

  ghost predicate SkipOk(ns: seq<Node>, i: nat)
    requires WellFormed(ns) && i < |ns|
  {
    ns[i].prev.Some? ==>
      assert NodeOk(ns, i);
      SkipGoesBack(ns[i].height);
      ns[i].skip == Some(Walk(ns, i, GetSkipHeight(ns[i].height)))
  }

  /** Every entry with a parent points to its ancestor at its skip height. */
  ghost predicate Skips(ns: seq<Node>) {
    WellFormed(ns) && forall i | 0 <= i < |ns| :: SkipOk(ns, i)
  }

  /** Skip pointers lead to the entry that the plain walk reaches, at every height; other heights have no ancestor. */
  method GetAncestor(ns: seq<Node>, i: nat, height: int) returns (r: Option<nat>)
    requires Skips(ns) && i < |ns|
    ensures r == if 0 <= height <= ns[i].height then Some(Walk(ns, i, height)) else None
  {
    if height > ns[i].height || height < 0 {
      return None;
    }
    var walk: nat, heightWalk: nat := i, ns[i].height;
    while heightWalk > height
      invariant walk < |ns| && ns[walk].height == heightWalk >= height
      invariant Walk(ns, walk, height) == Walk(ns, i, height)
      decreases heightWalk
    {
      assert NodeOk(ns, walk) && SkipOk(ns, walk);
      SkipGoesBack(heightWalk);
      var heightSkip := GetSkipHeight(heightWalk);
      var heightSkipPrev := GetSkipHeight(heightWalk - 1);
      if heightSkip == height || (heightSkip > height && !(heightSkipPrev < heightSkip - 2
          && heightSkipPrev >= height)) {
        WalkOn(ns, walk, heightSkip, height);
        walk, heightWalk := ns[walk].skip.value, heightSkip;
      } else {
        walk, heightWalk := ns[walk].prev.value, heightWalk - 1;
      }
    }
    return Some(walk);
  }

  /** The skip pointer of a new entry below `p`. */
  method BuildSkip(ns: seq<Node>, p: nat) returns (r: Option<nat>)
    requires Skips(ns) && p < |ns|
    ensures GetSkipHeight(ns[p].height + 1) <= ns[p].height && r == Some(Walk(ns, p, GetSkipHeight(ns[p].height + 1)))
  {
    SkipGoesBack(ns[p].height + 1);
    r := GetAncestor(ns, p, GetSkipHeight(ns[p].height + 1));
  }

  /** A new entry keeps the tree and its skip list, provided its own pointers are right. */
  lemma AppendKeeps(ns: seq<Node>, n: Node)
    requires Skips(ns)
    requires n.prev.None? ==> n.height == 0
    requires n.prev.Some? ==> n.prev.value < |ns| && n.height == ns[n.prev.value].height + 1
    requires n.prev.Some? ==>
        GetSkipHeight(n.height) <= ns[n.prev.value].height
        && n.skip == Some(Walk(ns, n.prev.value, GetSkipHeight(n.height)))
    ensures Skips(ns + [n]) && Grown(ns, ns + [n])
  {
    var ms := ns + [n];
    forall i | 0 <= i < |ms| ensures NodeOk(ms, i) {
      assert i < |ns| ==> NodeOk(ns, i);
    }
    forall i | 0 <= i < |ms| ensures SkipOk(ms, i) {
      assert NodeOk(ms, i);
      if ms[i].prev.Some? {
        SkipGoesBack(ms[i].height);
        if i < |ns| {
          assert NodeOk(ns, i) && SkipOk(ns, i);
          WalkGrown(ns, ms, i, GetSkipHeight(ms[i].height));
        } else {
          WalkGrown(ns, ms, n.prev.value, GetSkipHeight(n.height));
        }
      }
    }
  }

  /** Changes that touch neither pointers nor heights keep the tree and its skip list. */
  lemma UpdateKeeps(ns: seq<Node>, ms: seq<Node>)
    requires Skips(ns) && Grown(ns, ms) && |ns| == |ms|
    ensures Skips(ms)
  {
    forall i | 0 <= i < |ms| ensures NodeOk(ms, i) {
      assert NodeOk(ns, i);
    }
    forall i | 0 <= i < |ms| ensures SkipOk(ms, i) {
      assert NodeOk(ns, i) && SkipOk(ns, i);
      if ms[i].prev.Some? {
        SkipGoesBack(ms[i].height);
        WalkGrown(ns, ms, i, GetSkipHeight(ms[i].height));
      }
    }
  }
}
