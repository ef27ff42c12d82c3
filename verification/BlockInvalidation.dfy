/**
 A block is called invalid from outside, wherever it is: the active chain gives way down to its parent, and
 what can replace it becomes a candidate again.
 */
module BlockInvalidation {
  import opened Wrappers
  import opened BlockTree
  import opened ActiveChain
  import opened BlockLinking
  import opened BestChain
  import opened BlockChecks
  import B = BlockIndex

  /** The entry is a block of the chain at height `n` or above. */
  ghost predicate Above(ns: seq<Node>, c: Slots, n: nat, k: nat) {
    k < |ns| && Contains(ns, c, k) && ns[k].height >= n
  }

  /** The entry itself is marked as invalid, and the chain from height `n` up as descending from it. */
  ghost predicate Spoiled(ns: seq<Node>, ms: seq<Node>, c: Slots, n: nat, i: nat) {
    && |ms| == |ns|
    && forall k | 0 <= k < |ns| :: ms[k] == ns[k].(failedValid := ns[k].failedValid
        || k == i, failedChild := ns[k].failedChild || Above(ns, c, n, k))
  }

  ghost predicate Remaining(ns: seq<Node>, c: Slots, n: nat, i: nat, known: set<nat>, now: set<nat>) {
    forall k: nat :: k in now <==> k in known && k != i && !Above(ns, c, n, k)
  }

  /** An entry that may be worth moving to. */
  predicate Eligible(ns: seq<Node>, c: Slots, k: nat) {
    k < |ns| && !ns[k].Failed() && ns[k].level >= VALID_TRANSACTIONS && ns[k].nChainTx != 0 && !WorseThanTip(ns, c, k)
  }

  lemma MarkTip(ns: seq<Node>, ms: seq<Node>, c: Slots, n: nat, i: nat, known: set<nat>, now: set<nat>)
    requires IsBranch(ns, c) && 0 < n <= |c| && Spoiled(ns, ms, c, n, i) && Remaining(ns, c, n, i, known, now)
    ensures BranchAt(ns, c, n - 1)
    ensures var t := c[n - 1].value;
        Spoiled(ns, ms[t := ms[t].(failedChild := true)], c, n - 1, i) && Remaining(ns, c, n - 1, i, known, now - {t})
  {
    assert BranchAt(ns, c, n - 1);
  }

  lemma SpoiledGrown(ns: seq<Node>, ms: seq<Node>, c: Slots, n: nat, i: nat)
    requires WellFormed(ns) && Spoiled(ns, ms, c, n, i)
    ensures Grown(ns, ms) && WellFormed(ms)
  {
    TreeUpdate(ns, ms);
  }

  lemma ShapeFlags(ns: seq<Node>, ms: seq<Node>, c: Slots, index: map<B.Hash, nat>, parentOf: B.Hash -> B.Hash,
      bestHeader: Option<nat>, t: nat)
    requires B.Shape(ns, c, index, parentOf, bestHeader) && t < |ns|
        && (ms == ns[t := ns[t].(failedChild := true)] || ms == ns[t := ns[t].(failedValid := true)])
    ensures B.Shape(ms, c, index, parentOf, bestHeader)
  {
    B.ShapeKept(ns, ms, c, index, parentOf, bestHeader);
  }

  // ----- what is kept

  /** The chain below the invalid block is clean. */
  lemma BelowClean(ns: seq<Node>, ms: seq<Node>, c: Slots, n: nat, i: nat)
    requires ActiveClean(ns, c) && n <= |c| && i < |ns| && Spoiled(ns, ms, c, n, i) && !Contains(ns, c[..n], i)
    ensures ActiveClean(ms, c[..n])
  {
    SpoiledGrown(ns, ms, c, n, i);
    var d := c[..n];
    forall h | 0 <= h < |d| ensures BranchAt(ms, d, h) && ms[d[h].value].nChainTx != 0 && !ms[d[h].value].Failed() {
      assert BranchAt(ns, c, h);
    }
  }

  /** The tip is worse than a block of the chain above it was. */
  lemma LowerTip(ns: seq<Node>, c: Slots, n: nat, k: nat)
    requires IsBranch(ns, c) && Rising(ns) && 0 < n <= |c| && k < |ns| && !WorseThanTip(ns, c, k)
    ensures !WorseThanTip(ns, c[..n], k)
  {
    var d, t := c[..n], |c| - 1;
    assert BranchAt(ns, c, t) && BranchAt(ns, c, n - 1);
    BranchWalk(ns, c, t, n - 1);
    WorkBelow(ns, c[t].value, n - 1);
  }

  lemma CandidatesAgain(ns: seq<Node>, ms: seq<Node>, u: Unlinked, next: nat, c: Slots, n: nat, i: nat, known: set<nat>,
      rest: set<nat>, now: set<nat>)
    requires IsBranch(ns, c) && Rising(ns) && Candidates(ns, c, known) && (0 < n <= |c| || n == |c|)
        && Spoiled(ns, ms, c, n, i)
    requires Remaining(ns, c, n, i, known, rest) && (forall k: nat ::
        k in now <==> k in rest || Eligible(ms, c[..n], k))
    requires Linking(ms, u, next) && LevelsOk(ms) && WellFormed(ms)
    ensures Candidates(ms, c[..n], now)
  {
    hide Linking;
    var d := c[..n];
    if n > 0 {
      assert BranchAt(ns, c, n - 1);
    }
    forall k | k in now ensures k < |ms| && ms[k].nChainTx != 0 && !WorseThanTip(ms, d, k) {
      if k in rest && n > 0 {
        LowerTip(ns, c, n, k);
      }
    }
    forall k | 0 <= k < |ms| && ms[k].nChainTx != 0 && NotFailedDown(ms, k) && !WorseThanTip(ms, d, k)
        ensures k in now {
      B.LinkedTx(ms, u, next, k);
      assert LevelOk(ms, k);
    }
  }

  lemma {:induction false} ChainSpoiled(ns: seq<Node>, ms: seq<Node>, c: Slots, n: nat, i: nat, h: nat)
    requires IsBranch(ns, c) && WellFormed(ms) && i < |ns| && Spoiled(ns, ms, c, n, i) && Contains(ns, c, i)
        && ns[i].height <= h < |c|
    ensures BranchAt(ns, c, h) && InvalidBelow(ms, c[h].value)
  {
    assert BranchAt(ns, c, h);
    assert NodeOk(ms, c[h].value);
    if h > ns[i].height {
      ChainSpoiled(ns, ms, c, n, i, h - 1);
    }
  }

  lemma ChecksBelow(ns: seq<Node>, ms: seq<Node>, c: Slots, n: nat, i: nat, genesis: B.Hash)
    requires IsBranch(ns, c) && Checks(ns, c, genesis) && i < |ns| && Spoiled(ns, ms, c, n, i) && n <= |c|
    requires n == |c| || (Contains(ns, c, i) && n == ns[i].height)
    ensures Checks(ms, c[..n], genesis)
  {
    SpoiledGrown(ns, ms, c, n, i);
    TreePartKept(ns, ms, c, genesis);
    forall k | 0 <= k < |ms| && ms[k].Failed() ensures InvalidBelow(ms, k) {
      if Above(ns, c, n, k) {
        ChainSpoiled(ns, ms, c, n, i, ns[k].height);
      } else if ns[k].Failed() {
        InvalidGrown(ns, ms, k);
      }
    }
    forall k | 0 <= k < |ms| ensures LevelOk(ms, k) {
      assert LevelOk(ns, k);
    }
  }

  lemma LinkingFlags(ns: seq<Node>, ms: seq<Node>, u: Unlinked, next: nat, c: Slots, n: nat, i: nat)
    requires Linking(ns, u, next) && Spoiled(ns, ms, c, n, i)
    ensures Linking(ms, u, next)
  {
    hide LinkingBut, Linking, Above;
    ToLocal(ns, u, next);
    FlagsLinking(ns, ms, u, next);
    ToGlobal(ms, u, next);
  }

  lemma Starts(ns: seq<Node>, c: Slots, known: set<nat>, i: nat)
    requires i < |ns|
    ensures Spoiled(ns, ns[i := ns[i].(failedValid := true)], c, |c|, i) && Remaining(ns, c, |c|, i, known, known - {i})
  {
  }

  /** How far the chain has given way when the block is no longer in it. */
  lemma GivenWay(ns: seq<Node>, c: Slots, n: nat, i: nat)
    requires IsBranch(ns, c) && i < |ns| && ns[i].prev.Some? && n <= |c| && !Contains(ns, c[..n], i)
    requires n == |c| || (Contains(ns, c, i) && ns[i].height <= n)
    ensures n == (if Contains(ns, c, i) then ns[i].height else |c|) && (0 < n || n == |c|)
  {
    assert NodeOk(ns, i);
    assert forall h | 0 <= h < n :: c[..n][h] == c[h];
  }

  /** What the fields hold while the chain gives way. */
  ghost predicate GivingWay(b: B.BlockIndex, ns: seq<Node>, c: Slots, known: set<nat>, i: nat)
    reads b, b.chain
  {
    var n := |b.chain.slots|;
    && B.Shape(b.nodes, b.chain.slots, b.index, b.parentOf, b.bestHeader)
    && n <= |c| && b.chain.slots == c[..n] && Spoiled(ns, b.nodes, c, n, i)
        && Remaining(ns, c, n, i, known, b.candidates)
    && i < |ns| && (n == |c| || (Contains(ns, c, i) && ns[i].height <= n))
  }

  /** Mark the tip as descending from an invalid block and take it off the chain. */
  method CutTip(b: B.BlockIndex, ghost ns: seq<Node>, ghost c: Slots, ghost known: set<nat>, i: nat)
    requires IsBranch(ns, c) && GivingWay(b, ns, c, known, i) && Contains(b.nodes, b.chain.slots, i)
    modifies b`nodes, b`candidates, b.chain
    ensures GivingWay(b, ns, c, known, i) && |b.chain.slots| < |old(b.chain.slots)|
  {
    hide B.Shape, Spoiled, Remaining, IsBranch;
    ghost var was, n := b.nodes, |b.chain.slots|;
    SpoiledSame(ns, was, c, n, i);
    B.TipBelow(was, b.chain.slots, b.index, b.parentOf, b.bestHeader);
    var tip := b.chain.slots[|b.chain.slots| - 1].value;
    MarkTip(ns, was, c, n, i, known, b.candidates);
    ShapeFlags(was, was[tip := was[tip].(failedChild := true)], b.chain.slots, b.index, b.parentOf, b.bestHeader, tip);
    b.nodes := b.nodes[tip := b.nodes[tip].(failedChild := true)];
    b.candidates := b.candidates - {tip};
    b.DisconnectTip();
    assert c[..n][..n - 1] == c[..n - 1];
  }

  lemma SpoiledSame(ns: seq<Node>, ms: seq<Node>, c: Slots, n: nat, i: nat)
    requires Spoiled(ns, ms, c, n, i)
    ensures |ms| == |ns| && forall k | 0 <= k < |ns| :: ms[k].height == ns[k].height && ms[k].work == ns[k].work
  {
  }

  /** Every linked entry that may be worth moving to becomes a candidate. */
  method AddEligible(b: B.BlockIndex)
    modifies b`candidates
    ensures forall k: nat :: k in b.candidates <==> k in old(b.candidates) || Eligible(b.nodes, b.chain.slots, k)
  {
    for k := 0 to |b.nodes|
      invariant forall x: nat ::
          x in b.candidates <==> x in old(b.candidates) || (x < k && Eligible(b.nodes, b.chain.slots, x))
    {
      var n := b.nodes[k];
      if n.IsValid(VALID_TRANSACTIONS) && n.nChainTx != 0 && !WorseThanTip(b.nodes, b.chain.slots, k) {
        b.candidates := b.candidates + {k};
      }
    }
  }

  lemma LeftOver(ns: seq<Node>, ms: seq<Node>, c: Slots, n: nat, i: nat, known: set<nat>, rest: set<nat>,
      now: set<nat>, d: Slots)
    requires Remaining(ns, c, n, i, known, rest) && forall k: nat :: k in now <==> k in rest || Eligible(ms, d, k)
    ensures forall k: nat :: k in now <==> (k in known && k != i && !Above(ns, c, n, k)) || Eligible(ms, d, k)
  {
  }

  lemma ShapeBranch(ns: seq<Node>, c: Slots, index: map<B.Hash, nat>, parentOf: B.Hash -> B.Hash,
      bestHeader: Option<nat>)
    requires B.Shape(ns, c, index, parentOf, bestHeader)
    ensures IsBranch(ns, c) && WellFormed(ns)
  {
  }

  lemma Invalidated(ns: seq<Node>, ms: seq<Node>, u: Unlinked, next: nat, c: Slots, d: Slots, i: nat, known: set<nat>,
      rest: set<nat>, now: set<nat>, genesis: B.Hash)
    requires IsBranch(ns, c) && Linking(ns, u, next) && ActiveClean(ns, c) && Candidates(ns, c, known)
        && Checks(ns, c, genesis)
    requires i < |ns| && ns[i].prev.Some? && |d| <= |c| && d == c[..|d|] && Spoiled(ns, ms, c, |d|, i)
        && Remaining(ns, c, |d|, i, known, rest)
    requires !Contains(ns, d, i) && (|d| == |c| || (Contains(ns, c, i) && ns[i].height <= |d|))
    requires forall k: nat :: k in now <==> k in rest || Eligible(ms, d, k)
    ensures Linking(ms, u, next) && ActiveClean(ms, d) && Candidates(ms, d, now) && Checks(ms, d, genesis)
    ensures d == (if Contains(ns, c, i) then c[..ns[i].height] else c) && (c != [] ==> d != [])
  {
    hide Linking, ActiveClean, Candidates, FlagsOk, LevelsOk, Spoiled, Remaining, Eligible, IsBranch;
    GivenWay(ns, c, |d|, i);
    assert c[..|c|] == c;
    LinkingFlags(ns, ms, u, next, c, |d|, i);
    BelowClean(ns, ms, c, |d|, i);
    ChecksBelow(ns, ms, c, |d|, i, genesis);
    CleanTree(ms, d);
    CandidatesAgain(ns, ms, u, next, c, |d|, i, known, rest, now);
  }

  lemma CleanTree(ns: seq<Node>, c: Slots)
    requires ActiveClean(ns, c)
    ensures WellFormed(ns)
  {
  }

  /**
   The user calls a block invalid. (Without a tip, and so if it were the first block, the source would compare entries
   with a tip that is not there.) The chain is cut just below the block, and only the block and the chain above are
   marked.
   */
  method InvalidateBlock(b: B.BlockIndex, i: nat)
    requires b.Valid() && b.Checked() && b.chain.slots != [] && i < |b.nodes| && b.nodes[i].prev.Some?
    modifies b`nodes, b`candidates, b`bestInvalid, b.chain
    ensures b.Valid() && b.Checked() && b.chain.slots != []
    ensures b.chain.slots == if Contains(old(b.nodes), old(b.chain.slots), i) then
        old(b.chain.slots)[..old(b.nodes)[i].height] else old(b.chain.slots)
    ensures Spoiled(old(b.nodes), b.nodes, old(b.chain.slots), |b.chain.slots|, i)
    ensures forall k: nat :: k in b.candidates <==>
        || (k in old(b.candidates) && k != i && !Above(old(b.nodes), old(b.chain.slots), |b.chain.slots|, k))
        || Eligible(b.nodes, b.chain.slots, k)
    ensures B.MoreWork(b.nodes, old(b.bestInvalid), b.bestInvalid) && b.bestInvalid.Some?
        && b.nodes[b.bestInvalid.value].work >= b.nodes[i].work
    ensures b.bestInvalid == if old(b.bestInvalid).Some? && old(b.bestInvalid).value < |b.nodes|
        && b.nodes[i].work <= b.nodes[old(b.bestInvalid).value].work then old(b.bestInvalid) else Some(i)
  {
    hide B.Shape, Linking, ActiveClean, Candidates, Checks, Spoiled, Remaining, Eligible, IsBranch;
    ghost var ns, c, known := b.nodes, b.chain.slots, b.candidates;
    ShapeBranch(ns, c, b.index, b.parentOf, b.bestHeader);
    Starts(ns, c, known, i);
    ShapeFlags(ns, ns[i := ns[i].(failedValid := true)], c, b.index, b.parentOf, b.bestHeader, i);
    assert c[..|c|] == c;
    b.nodes := b.nodes[i := b.nodes[i].(failedValid := true)];
    b.candidates := b.candidates - {i};
    while Contains(b.nodes, b.chain.slots, i)
      invariant GivingWay(b, ns, c, known, i) && |b.nodes| == |ns| && b.bestInvalid == old(b.bestInvalid)
      decreases |b.chain.slots|
    {
      CutTip(b, ns, c, known, i);
      SpoiledSame(ns, b.nodes, c, |b.chain.slots|, i);
    }
    SpoiledSame(ns, b.nodes, c, |b.chain.slots|, i);
    ghost var rest, n := b.candidates, |b.chain.slots|;
    AddEligible(b);
    LeftOver(ns, b.nodes, c, n, i, known, rest, b.candidates, b.chain.slots);
    Invalidated(ns, b.nodes, b.unlinked, b.nextSequence, c, b.chain.slots, i, known, rest, b.candidates, b.genesis);
    b.InvalidChainFound(i);
  }
}
