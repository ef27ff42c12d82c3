/**
 Moving to the best chain, step by step: back to the fork, then up in batches, until the tip has more work
 than before, or a block turns out to be invalid, or the end is reached; and again, until nothing is better.
 Between the steps the candidates are complete only down from the best block the chain has held.
 */
module BlockActivation {
  import opened Wrappers
  import opened Arithmetic
  import opened BlockTree
  import opened ActiveChain
  import opened BlockLinking
  import opened BestChain
  import opened BlockChecks
  import B = BlockIndex

  // ----- in the middle of a move

  /** Which blocks connect, given that their ancestors do, is settled; the root is not connected at all. */
  ghost predicate Vetted(ns: seq<Node>, i: nat, connects: B.Hash -> bool)
    requires WellFormed(ns) && i < |ns|
    decreases i
  {
    assert NodeOk(ns, i);
    ns[i].prev.None? || (connects(ns[i].hash) && Vetted(ns, ns[i].prev.value, connects))
  }

  ghost predicate ActiveVetted(ns: seq<Node>, c: Slots, connects: B.Hash -> bool) {
    forall h | 0 <= h < |c| ::
        c[h].Some? && c[h].value < |ns| && (ns[c[h].value].prev.None? || connects(ns[c[h].value].hash))
  }

  ghost predicate Sound(ns: seq<Node>, i: nat)
    requires WellFormed(ns) && i < |ns|
  {
    ns[i].nChainTx != 0 && NotFailedDown(ns, i)
  }

  ghost predicate Beats(ns: seq<Node>, i: nat, limit: Option<nat>)
    requires i < |ns|
  {
    limit.Some? ==> limit.value < |ns| && !Worse(ns[i], ns[limit.value])
  }

  /**
   Every sound block that is no worse than `top` is a candidate; every candidate is linked and no worse than `floor`.
   */
  ghost predicate Ranged(ns: seq<Node>, candidates: set<nat>, top: Option<nat>, floor: Option<nat>) {
    && WellFormed(ns)
    && (forall i | 0 <= i < |ns| && Sound(ns, i) && Beats(ns, i, top) :: i in candidates)
    && (forall k | k in candidates :: k < |ns| && ns[k].nChainTx != 0 && Beats(ns, k, floor))
  }

  ghost predicate TopOk(ns: seq<Node>, top: nat, connects: B.Hash -> bool) {
    WellFormed(ns) && top < |ns| && Sound(ns, top) && Vetted(ns, top, connects)
  }

  /** The tip is `floor` or an ancestor of it. */
  ghost predicate FloorOk(ns: seq<Node>, c: Slots, floor: nat) {
    && WellFormed(ns) && floor < |ns| && c != [] && |c| - 1 <= ns[floor].height
    && c[|c| - 1] == Some(Walk(ns, floor, |c| - 1))
  }

  /** `top` is the best block the chain has held, `floor` the tip when candidates were last deleted. */
  ghost predicate Between(ns: seq<Node>, c: Slots, candidates: set<nat>, top: Option<nat>, floor: Option<nat>,
      connects: B.Hash -> bool) {
    && Ranged(ns, candidates, top, floor) && ActiveVetted(ns, c, connects)
    && (top.None? <==> c == []) && (floor.None? <==> c == [])
    && (top.Some? ==> TopOk(ns, top.value, connects)) && (floor.Some? ==> FloorOk(ns, c, floor.value))
  }

  /** No sound block is better than `r`. */
  ghost predicate BestOf(ns: seq<Node>, r: Option<nat>) {
    WellFormed(ns) && forall i | 0 <= i < |ns| && Sound(ns, i) ::
        r.Some? && r.value < |ns| && (i == r.value || Worse(ns[i], ns[r.value]))
  }

  // ----- facts about branches

  lemma {:induction false} SoundBelow(ns: seq<Node>, u: Unlinked, next: nat, i: nat, h: nat)
    requires Linking(ns, u, next) && i < |ns| && Sound(ns, i) && h <= ns[i].height
    ensures Walk(ns, i, h) < |ns| && Sound(ns, Walk(ns, i, h)) && ns[Walk(ns, i, h)].height == h
    decreases i
  {
    hide Linking, DataDown;
    if ns[i].height != h {
      LinkingParents(ns, u, next);
      LinkingTree(ns, u, next);
      assert NodeOk(ns, i);
      SoundBelow(ns, u, next, ns[i].prev.value, h);
    }
  }

  lemma LinkingTree(ns: seq<Node>, u: Unlinked, next: nat)
    requires Linking(ns, u, next)
    ensures WellFormed(ns)
  {
  }

  lemma {:induction false} TipVetted(ns: seq<Node>, c: Slots, connects: B.Hash -> bool, h: nat)
    requires IsBranch(ns, c) && ActiveVetted(ns, c, connects) && h < |c|
    ensures BranchAt(ns, c, h) && Vetted(ns, c[h].value, connects)
  {
    assert BranchAt(ns, c, h) && NodeOk(ns, c[h].value);
    if h > 0 {
      TipVetted(ns, c, connects, h - 1);
    }
  }

  lemma {:induction false} VettedSame(ns: seq<Node>, ms: seq<Node>, i: nat, connects: B.Hash -> bool)
    requires WellFormed(ns) && WellFormed(ms) && Grown(ns, ms) && i < |ns| && Vetted(ns, i, connects)
    ensures Vetted(ms, i, connects)
    decreases i
  {
    assert NodeOk(ns, i) && NodeOk(ms, i);
    if ns[i].prev.Some? {
      VettedSame(ns, ms, ns[i].prev.value, connects);
    }
  }

  /** A block that does not connect is no ancestor of one that was vetted. */
  lemma {:induction false} NotFailedStill(ns: seq<Node>, i: nat, f: nat, connects: B.Hash -> bool)
    requires WellFormed(ns) && i < |ns| && f < |ns| && Vetted(ns, i, connects) && NotFailedDown(ns, i)
    requires ns[f].prev.Some? && !connects(ns[f].hash)
    ensures var ms := ns[f := ns[f].(failedValid := true)]; WellFormed(ms) && NotFailedDown(ms, i)
    decreases i
  {
    var ms := ns[f := ns[f].(failedValid := true)];
    TreeUpdate(ns, ms);
    assert NodeOk(ns, i) && NodeOk(ms, i);
    if ns[i].prev.Some? {
      NotFailedStill(ns, ns[i].prev.value, f, connects);
    }
  }

  // ----- the state between steps is kept

  lemma TipSound(ns: seq<Node>, c: Slots)
    requires ActiveClean(ns, c) && c != []
    ensures BranchAt(ns, c, |c| - 1) && Sound(ns, c[|c| - 1].value)
  {
    ActiveNotFailed(ns, c, |c| - 1);
  }

  lemma BetweenStarts(ns: seq<Node>, c: Slots, candidates: set<nat>, connects: B.Hash -> bool)
    requires ActiveClean(ns, c) && Candidates(ns, c, candidates) && ActiveVetted(ns, c, connects)
    ensures Between(ns, c, candidates, TipOf(c), TipOf(c), connects)
  {
    if c != [] {
      TipSound(ns, c);
      TipVetted(ns, c, connects, |c| - 1);
    }
  }

  /** If the tip is both bounds, the candidates are what they should be. */
  lemma BetweenEnds(ns: seq<Node>, c: Slots, candidates: set<nat>, connects: B.Hash -> bool)
    requires IsBranch(ns, c) && Between(ns, c, candidates, TipOf(c), TipOf(c), connects)
    ensures Candidates(ns, c, candidates)
  {
    if c != [] {
      assert BranchAt(ns, c, |c| - 1);
    }
  }

  lemma SoundMarked(ns: seq<Node>, ms: seq<Node>, u: Unlinked, next: nat, c: Slots, i: nat)
    requires Linking(ns, u, next) && ActiveClean(ns, c) && Marked(ns, ms, c) && i < |ns| && Sound(ns, i)
    ensures WellFormed(ms) && Sound(ms, i)
  {
    hide Usable, Linking, DataDown;
    MarkedTree(ns, ms, c);
    SoundUsable(ns, u, next, c, i);
    NotFailedMarked(ns, ms, c, i);
  }

  lemma SoundUsable(ns: seq<Node>, u: Unlinked, next: nat, c: Slots, i: nat)
    requires Linking(ns, u, next) && ActiveClean(ns, c) && i < |ns| && Sound(ns, i)
    ensures Usable(ns, c, i)
  {
    LinkedHasData(ns, u, next, i);
    UsableExact(ns, c, i);
  }

  lemma {:induction false} NotFailedMarked(ns: seq<Node>, ms: seq<Node>, c: Slots, i: nat)
    requires ActiveClean(ns, c) && Marked(ns, ms, c) && WellFormed(ms) && i < |ns| && NotFailedDown(ns, i)
        && Usable(ns, c, i)
    ensures NotFailedDown(ms, i)
    decreases i
  {
    assert NodeOk(ns, i) && NodeOk(ms, i);
    if Contains(ns, c, i) {
      B.ActiveMarked(ns, ms, c);
      ActiveNotFailed(ms, c, ns[i].height);
    } else if ns[i].prev.Some? {
      NotFailedMarked(ns, ms, c, ns[i].prev.value);
    }
  }

  /** The search keeps it: what it drops is not sound. */
  lemma BetweenMarked(ns: seq<Node>, ms: seq<Node>, u: Unlinked, next: nat, c: Slots, before: set<nat>, after: set<nat>,
      top: Option<nat>, floor: Option<nat>, connects: B.Hash -> bool)
    requires Linking(ns, u, next) && ActiveClean(ns, c) && Marked(ns, ms, c) && B.Dropped(ns, c, before, after)
    requires Between(ns, c, before, top, floor, connects)
    ensures Between(ms, c, after, top, floor, connects)
  {
    hide Usable, Linking, NotFailedDown, Vetted, DataDown;
    MarkedTree(ns, ms, c);
    forall i | 0 <= i < |ms| && Sound(ms, i) && Beats(ms, i, top) ensures i in after {
      NotFailedSame(ns, ms, i);
      SoundUsable(ns, u, next, c, i);
    }
    if top.Some? {
      SoundMarked(ns, ms, u, next, c, top.value);
      VettedSame(ns, ms, top.value, connects);
    }
    if floor.Some? {
      WalkGrown(ns, ms, floor.value, |c| - 1);
    }
  }

  lemma BetweenShorter(ns: seq<Node>, c: Slots, candidates: set<nat>, top: Option<nat>, floor: Option<nat>,
      connects: B.Hash -> bool)
    requires IsBranch(ns, c) && Between(ns, c, candidates, top, floor, connects) && |c| > 1
    ensures Between(ns, c[..|c| - 1], candidates, top, floor, connects)
  {
    hide Sound, Vetted;
    var n := |c| - 1;
    BranchWalk(ns, c, n, n - 1);
    WalkOn(ns, floor.value, n, n - 1);
  }

  /** After a block was connected and the candidates below it deleted. */
  function Higher(ns: seq<Node>, top: Option<nat>, i: nat): Option<nat>
    requires i < |ns|
  {
    if top.Some? && top.value < |ns| && Worse(ns[i], ns[top.value]) then top else Some(i)
  }

  lemma {:induction false} BetweenConnected(ns: seq<Node>, ms: seq<Node>, c: Slots, before: set<nat>, after: set<nat>,
      top: Option<nat>, floor: Option<nat>, connects: B.Hash -> bool, i: nat)
    requires Between(ns, c, before, top, floor, connects) && i < |ns| && Sound(ns, i) && Vetted(ns, i, connects)
    requires ms == ns[i := if ns[i].prev.None? then ns[i] else ns[i].RaiseValidity(VALID_SCRIPTS)]
    requires IsBranch(ms, c + [Some(i)]) && DistinctAddresses(ms) && B.Pruned(ms, c + [Some(i)], before, after)
    ensures Between(ms, c + [Some(i)], after, Higher(ms, top, i), Some(i), connects)
  {
    hide Vetted;
    var d := c + [Some(i)];
    TreeUpdate(ns, ms);
    assert BranchAt(ms, d, |c|);
    LevelsSame(ns, ms, i, connects);
    forall k | 0 <= k < |ms| && Sound(ms, k) && Beats(ms, k, Higher(ms, top, i)) ensures k in after {
      NotFailedSame(ns, ms, k);
      if top.Some? {
        WorseOrders(ms, k, top.value, i);
        WorseOrders(ms, i, top.value, k);
        WorseOrders(ms, k, i, top.value);
      }
    }
    if top.Some? {
      NotFailedLevels(ns, ms, top.value);
      VettedSame(ns, ms, top.value, connects);
    }
  }

  lemma LevelsSame(ns: seq<Node>, ms: seq<Node>, i: nat, connects: B.Hash -> bool)
    requires WellFormed(ns) && WellFormed(ms) && Grown(ns, ms) && |ms| == |ns| && i < |ns| && Sound(ns, i)
        && Vetted(ns, i, connects)
    requires forall k | 0 <= k < |ns| :: ms[k] == ns[k].(level := ms[k].level)
    ensures Sound(ms, i) && Vetted(ms, i, connects)
  {
    NotFailedLevels(ns, ms, i);
    VettedSame(ns, ms, i, connects);
  }

  lemma {:induction false} NotFailedLevels(ns: seq<Node>, ms: seq<Node>, i: nat)
    requires WellFormed(ns) && WellFormed(ms) && |ms| == |ns| && i < |ns| && forall k | 0 <= k < |ns| ::
        ms[k] == ns[k].(level := ms[k].level)
    ensures NotFailedDown(ms, i) <==> NotFailedDown(ns, i)
    decreases i
  {
    assert NodeOk(ns, i) && NodeOk(ms, i);
    if ns[i].prev.Some? {
      NotFailedLevels(ns, ms, ns[i].prev.value);
    }
  }

  lemma BetweenFailed(ns: seq<Node>, c: Slots, candidates: set<nat>, top: Option<nat>, floor: Option<nat>,
      connects: B.Hash -> bool, f: nat)
    requires Between(ns, c, candidates, top, floor, connects) && f < |ns| && ns[f].prev.Some? && !connects(ns[f].hash)
    ensures Between(ns[f := ns[f].(failedValid := true)], c, candidates - {f}, top, floor, connects)
  {
    hide Vetted;
    var ms := ns[f := ns[f].(failedValid := true)];
    TreeUpdate(ns, ms);
    forall k | 0 <= k < |ms| && Sound(ms, k) && Beats(ms, k, top) ensures k in candidates - {f} {
      assert NodeOk(ms, k);
      NotFailedSame(ns, ms, k);
    }
    if top.Some? {
      NotFailedStill(ns, top.value, f, connects);
      VettedSame(ns, ms, top.value, connects);
    }
    if floor.Some? {
      WalkGrown(ns, ms, floor.value, |c| - 1);
    }
  }

  // ----- what the search result means

  lemma MostWorkIsBest(ns: seq<Node>, u: Unlinked, next: nat, c: Slots, candidates: set<nat>, top: Option<nat>,
      floor: Option<nat>, connects: B.Hash -> bool, r: Option<nat>)
    requires Linking(ns, u, next) && ActiveClean(ns, c) && DistinctAddresses(ns)
        && Between(ns, c, candidates, top, floor, connects)
    requires B.MostWork(ns, c, candidates, r)
    ensures BestOf(ns, r)
  {
    hide Linking, Usable, NotFailedDown, Vetted, ActiveVetted, DistinctAddresses;
    if top.Some? {
      SoundUsable(ns, u, next, c, top.value);
      OrderSelf(ns, top.value);
    }
    forall i | 0 <= i < |ns| && Sound(ns, i) ensures r.Some? && r.value < |ns|
        && (i == r.value || Worse(ns[i], ns[r.value])) {
      SoundUsable(ns, u, next, c, i);
      if !Beats(ns, i, top) {
        WorseOrders(ns, i, top.value, r.value);
      }
    }
  }

  lemma OrderSelf(ns: seq<Node>, i: nat)
    requires i < |ns|
    ensures !Worse(ns[i], ns[i])
  {
  }

  /** A result in the chain is the tip. */
  lemma InChainIsTip(ns: seq<Node>, c: Slots, m: nat)
    requires ActiveClean(ns, c) && Rising(ns) && DistinctAddresses(ns) && m < |ns| && BestOf(ns, Some(m))
        && Contains(ns, c, m)
    ensures TipOf(c) == Some(m)
  {
    TipSound(ns, c);
    var t := c[|c| - 1].value;
    ContainsExactly(ns, c, t, m);
    WorkBelow(ns, t, ns[m].height);
  }

  lemma ContainsExactly(ns: seq<Node>, c: Slots, t: nat, m: nat)
    requires IsBranch(ns, c) && c != [] && c[|c| - 1] == Some(t) && t < |ns| && m < |ns| && Contains(ns, c, m)
    ensures ns[m].height <= ns[t].height && Walk(ns, t, ns[m].height) == m && (ns[m].height == ns[t].height ==> m == t)
  {
    BranchShows(ns, c);
    ContainsExact(ns, c, t, m);
  }

  /** If the best block is the tip, nothing but the floor has to be looked at: and the tip is that. */
  lemma BestTipEnds(ns: seq<Node>, c: Slots, candidates: set<nat>, top: Option<nat>, floor: Option<nat>,
      connects: B.Hash -> bool)
    requires ActiveClean(ns, c) && Rising(ns) && DistinctAddresses(ns)
        && Between(ns, c, candidates, top, floor, connects)
    requires BestOf(ns, TipOf(c)) && (c != [] ==> c[|c| - 1].Some? && c[|c| - 1].value in candidates)
    ensures Candidates(ns, c, candidates)
  {
    hide Vetted, NotFailedDown;
    if c != [] {
      TipSound(ns, c);
      var t := c[|c| - 1].value;
      WorkBelow(ns, floor.value, |c| - 1);
      FloorIsTip(ns, c, floor.value);
    }
  }

  lemma FloorIsTip(ns: seq<Node>, c: Slots, floor: nat)
    requires FloorOk(ns, c, floor) && IsBranch(ns, c)
    requires ns[floor].height == |c| - 1
    ensures c[|c| - 1] == Some(floor)
  {
  }

  // ----- one step

  ghost predicate Ready(b: B.BlockIndex, top: Option<nat>, floor: Option<nat>, connects: B.Hash -> bool)
    reads b, b.chain
  {
    b.Core() && b.Checked() && Between(b.nodes, b.chain.slots, b.candidates, top, floor, connects)
  }

  /** The chain is the lower part of the branch that ends in `m`. */
  ghost predicate OnPath(ns: seq<Node>, c: Slots, m: nat) {
    && WellFormed(ns) && m < |ns| && |c| <= ns[m].height + 1
    && forall h | 0 <= h < |c| :: c[h] == Some(Walk(ns, m, h))
  }

  ghost predicate LevelsOnly(ns: seq<Node>, ms: seq<Node>) {
    |ms| == |ns| && forall k | 0 <= k < |ns| :: ms[k] == ns[k].(level := ms[k].level)
  }

  ghost function Unfailed(ns: seq<Node>): set<nat> {
    set k | 0 <= k < |ns| && !ns[k].failedValid
  }

  function TipWork(ns: seq<Node>, c: Slots): int {
    if c != [] && c[|c| - 1].Some? && c[|c| - 1].value < |ns| then ns[c[|c| - 1].value].work else -1
  }

  lemma LevelsKeep(ns: seq<Node>, ms: seq<Node>, c: Slots, m: nat)
    requires WellFormed(ns) && LevelsOnly(ns, ms) && m < |ns|
    ensures WellFormed(ms) && Grown(ns, ms) && Unfailed(ms) == Unfailed(ns) && TipWork(ms, c) == TipWork(ns, c)
    ensures (Sound(ns, m) ==> Sound(ms, m)) && (BestOf(ns, Some(m)) ==> BestOf(ms, Some(m)))
        && (OnPath(ns, c, m) ==> OnPath(ms, c, m))
  {
    TreeUpdate(ns, ms);
    NotFailedLevels(ns, ms, m);
    assert Unfailed(ms) == Unfailed(ns);
    if BestOf(ns, Some(m)) {
      forall i | 0 <= i < |ms| && Sound(ms, i) ensures i == m || Worse(ms[i], ms[m]) {
        NotFailedLevels(ns, ms, i);
      }
    }
    if OnPath(ns, c, m) {
      forall h | 0 <= h < |c| ensures c[h] == Some(Walk(ms, m, h)) {
        WalkGrown(ns, ms, m, h);
      }
    }
  }

  lemma LevelsTwice(ns: seq<Node>, ms: seq<Node>, ls: seq<Node>)
    requires LevelsOnly(ns, ms) && LevelsOnly(ms, ls)
    ensures LevelsOnly(ns, ls)
  {
  }

  /** The chain shares its root with every branch. */
  lemma SharesRoot(ns: seq<Node>, c: Slots, index: map<B.Hash, nat>, parentOf: B.Hash -> B.Hash,
      bestHeader: Option<nat>, genesis: B.Hash, m: nat)
    requires B.Shape(ns, c, index, parentOf, bestHeader) && Checks(ns, c, genesis) && m < |ns| && c != []
    ensures c[0] == Some(Walk(ns, m, 0))
  {
    assert BranchAt(ns, c, 0);
    OneRoot(ns, genesis, c[0].value, m);
  }

  lemma ForkPath(ns: seq<Node>, c: Slots, m: nat, f: nat)
    requires IsBranch(ns, c) && m < |ns| && f < |ns| && Contains(ns, c, f) && ns[f].height <= ns[m].height
        && Walk(ns, m, ns[f].height) == f
    ensures ns[f].height < |c| && OnPath(ns, c[..ns[f].height + 1], m) && c[ns[f].height] == Some(f)
  {
    forall h | 0 <= h <= ns[f].height ensures c[h] == Some(Walk(ns, m, h)) {
      BranchWalk(ns, c, ns[f].height, h);
      WalkOn(ns, m, ns[f].height, h);
    }
  }

  /** No block of the chain from height `n` up is on the way to `m`. */
  ghost predicate OffPath(ns: seq<Node>, c: Slots, m: nat, n: nat)
    requires WellFormed(ns) && m < |ns|
  {
    forall h | n <= h < |c| && h <= ns[m].height :: c[h] != Some(Walk(ns, m, h))
  }

  /** Disconnect active blocks that are not on the way to `m`. */
  method BackToFork(b: B.BlockIndex, m: nat, ghost top: Option<nat>, ghost floor: Option<nat>,
      ghost connects: B.Hash -> bool)
    requires Ready(b, top, floor, connects) && m < |b.nodes|
    modifies b.chain
    ensures Ready(b, top, floor, connects) && OnPath(b.nodes, b.chain.slots, m) && b.chain.slots <= old(b.chain.slots)
    ensures old(b.chain.slots) != [] ==> b.chain.slots != []
    ensures WellFormed(b.nodes) && OffPath(b.nodes, old(b.chain.slots), m, |b.chain.slots|)
    ensures TipWork(b.nodes, b.chain.slots) <= TipWork(b.nodes, old(b.chain.slots))
  {
    hide Checks, Linking, ActiveClean, B.Indexed, B.Works, DistinctAddresses, Between, Skips, WellFormed, OnPath,
        TipWork;
    ghost var was := b.chain.slots;
    LinkingTree(b.nodes, b.unlinked, b.nextSequence);
    var fork := b.chain.FindFork(b.nodes, m);
    if was != [] {
      SharesRoot(b.nodes, was, b.index, b.parentOf, b.bestHeader, b.genesis, m);
    }
    assert was != [] ==> fork.Some?;
    if fork.Some? {
      ForkPath(b.nodes, was, m, fork.value);
    }
    EmptyPath(b.nodes, m);
    ghost var keep := if fork.Some? then b.nodes[fork.value].height + 1 else 0;
    while b.chain.slots != [] && TipOf(b.chain.slots) != fork
      invariant Ready(b, top, floor, connects) && keep <= |b.chain.slots| <= |was|
          && b.chain.slots == was[..|b.chain.slots|]
      decreases |b.chain.slots|
    {
      ghost var c := b.chain.slots;
      BetweenShorter(b.nodes, c, b.candidates, top, floor, connects);
      b.DisconnectTip();
      assert was[..|c|][..|c| - 1] == was[..|c| - 1];
    }
    if fork.Some? {
      LengthOf(b.nodes, b.chain.slots, fork.value);
    }
    LowerWork(b.nodes, was, |b.chain.slots|, b.genesis);
  }

  /** The lower part of a chain has no more work than all of it. */
  lemma LowerWork(ns: seq<Node>, c: Slots, n: nat, genesis: B.Hash)
    requires IsBranch(ns, c) && Checks(ns, c, genesis) && n <= |c|
    ensures TipWork(ns, c[..n]) <= TipWork(ns, c)
  {
    if 0 < n < |c| {
      assert BranchAt(ns, c, |c| - 1) && BranchAt(ns, c, n - 1);
      BranchWalk(ns, c, |c| - 1, n - 1);
      WorkBelow(ns, c[|c| - 1].value, n - 1);
    } else if n == |c| {
      assert c[..n] == c;
    }
  }

  lemma EmptyPath(ns: seq<Node>, m: nat)
    requires WellFormed(ns) && m < |ns|
    ensures OnPath(ns, [], m)
  {
  }

  lemma LengthOf(ns: seq<Node>, c: Slots, f: nat)
    requires IsBranch(ns, c) && f < |ns| && TipOf(c) == Some(f)
    ensures |c| == ns[f].height + 1
  {
    assert BranchAt(ns, c, |c| - 1);
  }

  lemma TopIsCandidate(ns: seq<Node>, c: Slots, candidates: set<nat>, top: Option<nat>, floor: Option<nat>,
      connects: B.Hash -> bool)
    requires Between(ns, c, candidates, top, floor, connects) && c != []
    ensures candidates != {}
  {
    OrderSelf(ns, top.value);
    assert top.value in candidates;
  }

  /** Connect the next block on top of the tip, and delete the candidates below it, of which some remain. */
  method ConnectNext(b: B.BlockIndex, i: nat, connects: B.Hash -> bool, ghost top: Option<nat>,
      ghost floor: Option<nat>)
    returns (ok: bool, ghost t: Option<nat>, ghost f: Option<nat>)
    requires Ready(b, top, floor, connects) && i < |b.nodes| && WellFormed(b.nodes) && Sound(b.nodes, i)
        && b.nodes[i].prev == TipOf(b.chain.slots)
    modifies b`nodes, b`candidates, b`bestInvalid, b.chain
    ensures Ready(b, t, f, connects)
    ensures ok ==>
        LevelsOnly(old(b.nodes), b.nodes) && b.chain.slots == old(b.chain.slots) + [Some(i)] && f == Some(i)
        && i < |b.nodes| && t == Higher(b.nodes, top, i) && b.candidates != {} && b.bestInvalid == old(b.bestInvalid)
    ensures !ok ==> b.bestInvalid.Some? && b.bestInvalid.value < |b.nodes|
    ensures !ok ==>
        b.chain.slots == old(b.chain.slots) && old(b.nodes)[i].prev.Some? && !connects(old(b.nodes)[i].hash)
        && b.nodes == old(b.nodes)[i := old(b.nodes)[i].(failedValid := true)] && !old(b.nodes)[i].failedValid
  {
    hide Checks, Linking, ActiveClean, B.Indexed, B.Works, Between, Skips, WellFormed, Vetted, IsBranch;
    ghost var was, c, known := b.nodes, b.chain.slots, b.candidates;
    t, f := top, floor;
    SoundFlags(was, i);
    InRange(was, c, known, top, floor, connects);
    ok := b.ConnectTip(i, connects(b.nodes[i].hash));
    if !ok {
      BetweenFailed(was, c, known, top, floor, connects, i);
      return;
    }
    LinkingTree(b.nodes, b.unlinked, b.nextSequence);
    b.PruneBlockIndexCandidates();
    NextVetted(was, c, known, top, floor, connects, i);
    BetweenConnected(was, b.nodes, c, known, b.candidates, top, floor, connects, i);
    t, f := Higher(b.nodes, top, i), Some(i);
    TopIsCandidate(b.nodes, b.chain.slots, b.candidates, t, f, connects);
  }

  lemma InRange(ns: seq<Node>, c: Slots, candidates: set<nat>, top: Option<nat>, floor: Option<nat>,
      connects: B.Hash -> bool)
    requires Between(ns, c, candidates, top, floor, connects)
    ensures forall k | k in candidates :: k < |ns|
  {
  }

  lemma SoundFlags(ns: seq<Node>, i: nat)
    requires WellFormed(ns) && i < |ns| && Sound(ns, i)
    ensures !ns[i].Failed() && ns[i].nChainTx != 0
  {
  }

  lemma NextVetted(ns: seq<Node>, c: Slots, candidates: set<nat>, top: Option<nat>, floor: Option<nat>,
      connects: B.Hash -> bool, i: nat)
    requires IsBranch(ns, c) && Between(ns, c, candidates, top, floor, connects) && i < |ns| && ns[i].prev == TipOf(c)
    requires ns[i].prev.None? || connects(ns[i].hash)
    ensures Vetted(ns, i, connects)
  {
    assert NodeOk(ns, i);
    if c != [] {
      TipVetted(ns, c, connects, |c| - 1);
    }
  }

  /** The blocks of the branch of `m` from height `target` down to just above `height`. */
  method PathDown(ns: seq<Node>, m: nat, target: nat, height: int) returns (list: seq<nat>)
    requires Skips(ns) && m < |ns| && -1 <= height < target <= ns[m].height
    ensures |list| == target - height && forall k | 0 <= k < |list| :: list[k] == Walk(ns, m, target - k)
  {
    list := [];
    var iter := GetAncestor(ns, m, target);
    WalkHeight(ns, m, target);
    while iter.Some? && ns[iter.value].height != height
      invariant 0 <= |list| <= target - height && (iter.Some? ==> iter.value < |ns|)
      invariant target - |list| >= 0 ==>
          iter == Some(Walk(ns, m, target - |list|)) && ns[iter.value].height == target - |list|
      invariant target - |list| < 0 ==> iter.None?
      invariant forall k | 0 <= k < |list| :: list[k] == Walk(ns, m, target - k)
      decreases target - height - |list|
    {
      assert NodeOk(ns, iter.value);
      list := list + [iter.value];
      if ns[iter.value].height > 0 {
        WalkOn(ns, m, ns[iter.value].height, ns[iter.value].height - 1);
        WalkHeight(ns, m, ns[iter.value].height - 1);
      }
      iter := ns[iter.value].prev;
    }
  }

  /** Only levels rise and failure flags are set, and a block is newly called invalid only if it does not connect. */
  ghost predicate Judged(ns: seq<Node>, ms: seq<Node>, connects: B.Hash -> bool) {
    && |ms| == |ns|
    && forall k | 0 <= k < |ns| ::
         && ms[k] == ns[k].(level := ms[k].level, failedValid := ms[k].failedValid, failedChild := ms[k].failedChild)
         && (ns[k].failedValid ==> ms[k].failedValid) && (ns[k].failedChild ==> ms[k].failedChild)
         && (ms[k].failedValid ==> ns[k].failedValid || (ns[k].prev.Some? && !connects(ns[k].hash)))
  }

  /** Only levels have risen, and the chain is on the way to `m`. */
  ghost predicate Halfway(was: seq<Node>, ns: seq<Node>, c: Slots, m: nat) {
    WellFormed(ns) && LevelsOnly(was, ns) && m < |ns| && Sound(ns, m) && BestOf(ns, Some(m)) && OnPath(ns, c, m)
  }

  /** A block has been connected: the tip is the floor, and the top or worse than the top. */
  ghost predicate Arrived(ns: seq<Node>, c: Slots, top: Option<nat>, floor: Option<nat>) {
    c != [] && floor == TipOf(c) && floor.Some? && floor.value < |ns| && top.Some? && top.value < |ns|
        && (top == floor || Worse(ns[floor.value], ns[top.value]))
  }

  /** What one step has come to: one more invalid block, more work than before, or the end of the branch. */
  ghost predicate Progress(ns: seq<Node>, c: Slots, m: nat, ms: seq<Node>, d: Slots, invalidFound: bool,
      top: Option<nat>, floor: Option<nat>) {
    if invalidFound then TipOf(d) != Some(m) && Unfailed(ms) < Unfailed(ns)
    else LevelsOnly(ns, ms) && if TipOf(d) == Some(m) then top == Some(m) && floor == Some(m) else
        TipWork(ms, d) > TipWork(ns, c)
  }

  lemma LevelsSelf(ns: seq<Node>, connects: B.Hash -> bool)
    ensures LevelsOnly(ns, ns) && Judged(ns, ns, connects) && Grown(ns, ns)
  {
  }

  lemma JudgedTwice(ns: seq<Node>, ms: seq<Node>, ls: seq<Node>, connects: B.Hash -> bool)
    requires Judged(ns, ms, connects) && Judged(ms, ls, connects)
    ensures Judged(ns, ls, connects)
  {
  }

  /** The chain ends below `m`, which it did not contain. */
  lemma PathIsShort(ns: seq<Node>, c: Slots, d: Slots, m: nat)
    requires m < |ns| && !Contains(ns, c, m) && OnPath(ns, d, m) && d <= c
    ensures |d| <= ns[m].height
  {
    assert forall h | 0 <= h < |d| :: d[h] == c[h];
  }

  lemma CoreSkips(ns: seq<Node>, c: Slots, index: map<B.Hash, nat>, parentOf: B.Hash -> B.Hash, bestHeader: Option<nat>)
    requires B.Shape(ns, c, index, parentOf, bestHeader)
    ensures Skips(ns)
  {
  }

  /** The next block of the path: it is sound and its parent is the tip. */
  lemma NextBlock(start: seq<Node>, was: seq<Node>, ns: seq<Node>, c: Slots, u: Unlinked, next: nat, m: nat, i: nat)
    requires Linking(ns, u, next) && Halfway(was, ns, c, m) && WellFormed(start) && Grown(start, ns) && m < |start|
    requires |c| <= start[m].height && i == Walk(start, m, |c|)
    ensures i < |ns| && |c| <= ns[m].height && i == Walk(ns, m, |c|) && Sound(ns, i) && ns[i].prev == TipOf(c)
  {
    hide Linking, NotFailedDown, BestOf;
    var h := |c|;
    WalkGrown(start, ns, m, h);
    SoundBelow(ns, u, next, m, h);
    assert NodeOk(ns, i);
    if h > 0 {
      WalkOn(ns, m, h, h - 1);
    }
  }

  lemma OneMoreInvalid(was: seq<Node>, ns: seq<Node>, c: Slots, m: nat, i: nat, connects: B.Hash -> bool)
    requires Halfway(was, ns, c, m) && i < |ns| && !ns[i].failedValid && ns[i].prev.Some? && !connects(ns[i].hash)
    ensures var ms := ns[i := ns[i].(failedValid := true)];
        Unfailed(ms) < Unfailed(was) && Judged(was, ms, connects) && WellFormed(ms) && ms[m].height == was[m].height
  {
    hide Sound, BestOf, OnPath;
    var ms := ns[i := ns[i].(failedValid := true)];
    TreeUpdate(ns, ms);
    assert i in Unfailed(was) && i !in Unfailed(ms);
    assert Unfailed(ms) <= Unfailed(was);
  }

  lemma StillHalfway(start: seq<Node>, was: seq<Node>, ns: seq<Node>, ms: seq<Node>, c: Slots, m: nat, i: nat,
      top: Option<nat>, connects: B.Hash -> bool)
    requires Halfway(was, ns, c, m) && LevelsOnly(ns, ms) && Grown(start, ns) && i < |ns| && |c| <= ns[m].height
        && i == Walk(ns, m, |c|)
    ensures Halfway(was, ms, c + [Some(i)], m) && Judged(was, ms, connects) && Grown(start, ms) && |ms| == |was|
        && ms[m].height == was[m].height
    ensures i < |ms| && Arrived(ms, c + [Some(i)], Higher(ms, top, i), Some(i))
  {
    hide Sound, BestOf;
    LevelsKeep(ns, ms, c, m);
    LevelsTwice(was, ns, ms);
    WalkGrown(ns, ms, m, |c|);
  }

  /** A step without an invalid block has made progress. */
  lemma Concluded(was: seq<Node>, ns: seq<Node>, c: Slots, d: Slots, candidates: set<nat>, m: nat, top: Option<nat>,
      floor: Option<nat>, connects: B.Hash -> bool)
    requires Halfway(was, ns, d, m) && Between(ns, d, candidates, top, floor, connects)
    requires Arrived(ns, d, top, floor) && (TipWork(ns, d) > TipWork(was, c) || |d| == ns[m].height + 1)
    ensures Progress(was, c, m, ns, d, false, top, floor)
  {
    hide NotFailedDown, Vetted;
  }

  /** Batches have 32 blocks, but for the last one, which ends at the top. */
  function TargetHeight(height: int, top: nat): (target: nat)
    requires -1 <= height < top
    ensures height < target <= top && target - height <= 32 && (target < top ==> target - height == 32)
  {
    Min(height + 32, top)
  }

  /** Towards the block `m`, as far as it goes in one step. */
  method ActivateBestChainStep(b: B.BlockIndex, m: nat, connects: B.Hash -> bool, ghost top: Option<nat>,
      ghost floor: Option<nat>)
    returns (invalidFound: bool, ghost t: Option<nat>, ghost f: Option<nat>)
    requires Ready(b, top, floor, connects) && WellFormed(b.nodes) && m < |b.nodes| && Sound(b.nodes, m)
        && BestOf(b.nodes, Some(m)) && !Contains(b.nodes, b.chain.slots, m)
    modifies b`nodes, b`candidates, b`bestInvalid, b.chain
    ensures Ready(b, t, f, connects) && Judged(old(b.nodes), b.nodes, connects)
    ensures Progress(old(b.nodes), old(b.chain.slots), m, b.nodes, b.chain.slots, invalidFound, t, f)
    ensures !invalidFound ==> BestOf(b.nodes, Some(m)) && b.bestInvalid == old(b.bestInvalid)
    ensures !invalidFound ==> Barely(b.nodes, b.chain.slots, TipWork(old(b.nodes), old(b.chain.slots)))
  {
    hide Checks, Linking, ActiveClean, B.Indexed, B.Works, Between, Skips, WellFormed, Vetted, IsBranch, Sound, BestOf,
        OnPath, DistinctAddresses, Higher, LevelsOnly, TipWork, Unfailed, Judged, Arrived, Progress, Contains;
    ghost var was, c := b.nodes, b.chain.slots;
    var oldWork := TipWork(b.nodes, b.chain.slots);
    t, f, invalidFound := top, floor, false;
    LevelsSelf(was, connects);
    BackToFork(b, m, top, floor, connects);
    PathIsShort(b.nodes, c, b.chain.slots, m);
    var goOn, height := true, |b.chain.slots| - 1;
    ghost var start := height;
    while goOn && height != b.nodes[m].height
      invariant Ready(b, t, f, connects) && Judged(was, b.nodes, connects) && |b.nodes| == |was| && WellFormed(b.nodes)
      invariant b.nodes[m].height == was[m].height && -1 <= height <= was[m].height
      invariant !invalidFound ==>
          Halfway(was, b.nodes, b.chain.slots, m) && (|b.chain.slots| == was[m].height + 1 ==>
          Arrived(b.nodes, b.chain.slots, t, f))
      invariant goOn ==> !invalidFound && height == |b.chain.slots| - 1
      invariant !invalidFound ==> b.bestInvalid == old(b.bestInvalid)
      invariant start <= height && (goOn ==> TipWork(b.nodes, b.chain.slots) <= oldWork)
      invariant !goOn ==> start < height
      invariant !invalidFound && start < height ==> Barely(b.nodes, b.chain.slots, oldWork)
      invariant !goOn ==>
          if invalidFound then Unfailed(b.nodes) < Unfailed(was) && |b.chain.slots| <= was[m].height else
          TipWork(b.nodes, b.chain.slots) > oldWork && Arrived(b.nodes, b.chain.slots, t, f)
      decreases if goOn then was[m].height - height + 1 else 0
    {
      var target := TargetHeight(height, b.nodes[m].height);
      CoreSkips(b.nodes, b.chain.slots, b.index, b.parentOf, b.bestHeader);
      var list := PathDown(b.nodes, m, target, height);
      goOn, invalidFound, t, f := ConnectBatch(b, m, list, target, oldWork, connects, t, f, was);
      height := target;
    }
    if invalidFound {
      InvalidProgress(was, b.nodes, c, b.chain.slots, m, t, f);
    } else {
      Concluded(was, b.nodes, c, b.chain.slots, b.candidates, m, t, f, connects);
    }
  }

  lemma InvalidProgress(was: seq<Node>, ns: seq<Node>, c: Slots, d: Slots, m: nat, top: Option<nat>, floor: Option<nat>)
    requires Unfailed(ns) < Unfailed(was) && IsBranch(ns, d) && m < |ns| && |d| <= ns[m].height
    ensures Progress(was, c, m, ns, d, true, top, floor)
  {
    hide Unfailed;
    if TipOf(d) == Some(m) {
      LengthOf(ns, d, m);
    }
  }

  /** Without its tip the chain has no more work than that. */
  ghost predicate Barely(ns: seq<Node>, c: Slots, work: int) {
    c != [] && TipWork(ns, c[..|c| - 1]) <= work
  }

  lemma BarelyMore(ns: seq<Node>, ms: seq<Node>, c: Slots, i: nat, work: int)
    requires LevelsOnly(ns, ms) && TipWork(ns, c) <= work
    ensures Barely(ms, c + [Some(i)], work)
  {
    assert (c + [Some(i)])[..|c|] == c;
  }

  ghost predicate HasAsMuchWork(ns: seq<Node>, best: Option<nat>, i: nat) {
    i < |ns| && best.Some? && best.value < |ns| && ns[best.value].work >= ns[i].work
  }

  /** Connect the blocks of a batch, lowest first, until the tip is better than before or a block is invalid. */
  method ConnectBatch(b: B.BlockIndex, m: nat, list: seq<nat>, target: nat, oldWork: int, connects: B.Hash -> bool,
      ghost top: Option<nat>, ghost floor: Option<nat>, ghost was: seq<Node>)
    returns (goOn: bool, invalidFound: bool, ghost t: Option<nat>, ghost f: Option<nat>)
    requires Ready(b, top, floor, connects) && |b.nodes| == |was| && Judged(was, b.nodes, connects)
        && Halfway(was, b.nodes, b.chain.slots, m)
    requires |list| > 0 && |b.chain.slots| == target + 1 - |list| && target <= b.nodes[m].height
        && b.nodes[m].height == was[m].height
    requires forall k | 0 <= k < |list| :: list[k] == Walk(b.nodes, m, target - k)
    requires TipWork(b.nodes, b.chain.slots) <= oldWork
    modifies b`nodes, b`candidates, b`bestInvalid, b.chain
    ensures goOn ==> TipWork(b.nodes, b.chain.slots) <= oldWork
    ensures !invalidFound ==> Barely(b.nodes, b.chain.slots, oldWork)
    ensures Ready(b, t, f, connects) && Judged(was, b.nodes, connects) && |b.nodes| == |was| && WellFormed(b.nodes)
        && b.nodes[m].height == was[m].height
    ensures !invalidFound ==> Halfway(was, b.nodes, b.chain.slots, m) && Arrived(b.nodes, b.chain.slots, t, f)
    ensures goOn ==> !invalidFound && |b.chain.slots| == target + 1
    ensures !goOn ==>
        if invalidFound then Unfailed(b.nodes) < Unfailed(was) && |b.chain.slots| <= was[m].height else
        TipWork(b.nodes, b.chain.slots) > oldWork
    ensures !invalidFound ==> b.bestInvalid == old(b.bestInvalid)
    ensures invalidFound ==> HasAsMuchWork(b.nodes, b.bestInvalid, list[|list| - 1])
  {
    hide Checks, Linking, ActiveClean, B.Indexed, B.Works, Between, Skips, WellFormed, Vetted, IsBranch, Sound, BestOf,
        OnPath, DistinctAddresses, Higher, LevelsOnly, TipWork, Unfailed, Grown, Judged, Arrived;
    goOn, invalidFound, t, f := true, false, top, floor;
    var k := |list|;
    ghost var start := b.nodes;
    GrownSelf(start);
    WalkHeight(start, m, target - (|list| - 1));
    while k > 0 && goOn
      invariant 0 <= k <= |list| && Ready(b, t, f, connects) && Judged(was, b.nodes, connects) && |b.nodes| == |was|
          && WellFormed(b.nodes) && b.nodes[m].height == was[m].height
      invariant !invalidFound ==>
          Grown(start, b.nodes) && Halfway(was, b.nodes, b.chain.slots, m)
          && (k < |list| ==> Arrived(b.nodes, b.chain.slots, t, f))
      invariant goOn ==> !invalidFound && |b.chain.slots| == target + 1 - k
      invariant goOn ==> TipWork(b.nodes, b.chain.slots) <= oldWork
      invariant !invalidFound && k < |list| ==> Barely(b.nodes, b.chain.slots, oldWork)
      invariant !invalidFound ==> b.bestInvalid == old(b.bestInvalid)
      invariant invalidFound ==> HasAsMuchWork(b.nodes, b.bestInvalid, list[|list| - 1])
      invariant !goOn ==>
          k < |list| && if invalidFound then Unfailed(b.nodes) < Unfailed(was) && |b.chain.slots| <= was[m].height else
          TipWork(b.nodes, b.chain.slots) > oldWork
      decreases k
    {
      k := k - 1;
      ghost var ns, c, above := b.nodes, b.chain.slots, t;
      NextBlock(start, was, ns, c, b.unlinked, b.nextSequence, m, list[k]);
      var ok;
      ok, t, f := ConnectNext(b, list[k], connects, t, f);
      if !ok {
        OneMoreInvalid(was, ns, c, m, list[k], connects);
        b.InvalidChainFound(list[|list| - 1]);
        goOn, invalidFound := false, true;
      } else {
        StillHalfway(start, was, ns, b.nodes, c, m, list[k], above, connects);
        BarelyMore(ns, b.nodes, c, list[k], oldWork);
        if TipWork(b.nodes, b.chain.slots) > oldWork {
          goOn := false;
        }
      }
    }
  }

  lemma GrownSelf(ns: seq<Node>)
    ensures Grown(ns, ns)
  {
  }

  // ----- the whole activation

  lemma BestMarked(ns: seq<Node>, ms: seq<Node>, c: Slots, r: Option<nat>)
    requires BestOf(ns, r) && Marked(ns, ms, c)
    ensures BestOf(ms, r)
  {
    hide Usable, NotFailedDown;
    MarkedTree(ns, ms, c);
    forall i | 0 <= i < |ms| && Sound(ms, i) ensures r.Some? && r.value < |ms|
        && (i == r.value || Worse(ms[i], ms[r.value])) {
      NotFailedSame(ns, ms, i);
    }
  }

  lemma MarksJudged(ns: seq<Node>, ms: seq<Node>, c: Slots, connects: B.Hash -> bool)
    requires Marked(ns, ms, c)
    ensures Judged(ns, ms, connects) && Unfailed(ms) == Unfailed(ns) && TipWork(ms, c) == TipWork(ns, c)
  {
    hide Usable;
    assert Unfailed(ms) == Unfailed(ns);
  }

  /** A block that the search returns is sound, also after the marks that the search makes. */
  lemma FoundSound(ns: seq<Node>, ms: seq<Node>, u: Unlinked, next: nat, c: Slots, before: set<nat>, after: set<nat>,
      r: nat)
    requires Linking(ns, u, next) && ActiveClean(ns, c) && Marked(ns, ms, c) && B.Dropped(ns, c, before, after)
    requires B.MostWork(ns, c, before, Some(r)) && r < |ns| && ns[r].nChainTx != 0
    ensures r < |ms| && WellFormed(ms) && Sound(ms, r) && r in after
  {
    hide Usable, DataDown, NotFailedDown;
    LinkedHasData(ns, u, next, r);
    UsableExact(ns, c, r);
    SoundMarked(ns, ms, u, next, c, r);
  }

  /** After a search: what it returns is the best block there is, and is sound. */
  lemma Searched(ns: seq<Node>, ms: seq<Node>, u: Unlinked, next: nat, c: Slots, before: set<nat>, after: set<nat>,
      top: Option<nat>, floor: Option<nat>, connects: B.Hash -> bool, r: Option<nat>)
    requires Linking(ns, u, next) && ActiveClean(ns, c) && DistinctAddresses(ns)
        && Between(ns, c, before, top, floor, connects)
    requires Marked(ns, ms, c) && B.Dropped(ns, c, before, after) && B.MostWork(ns, c, before, r)
    ensures Between(ms, c, after, top, floor, connects) && BestOf(ms, r)
    ensures r.Some? ==> r.value < |ms| && WellFormed(ms) && Sound(ms, r.value) && r.value in after
  {
    hide Linking, ActiveClean, Marked, B.Dropped, DistinctAddresses, Usable, Sound, BestOf, Vetted, ActiveVetted;
    BetweenMarked(ns, ms, u, next, c, before, after, top, floor, connects);
    MostWorkIsBest(ns, u, next, c, before, top, floor, connects, r);
    BestMarked(ns, ms, c, r);
    if r.Some? {
      FoundSound(ns, ms, u, next, c, before, after, r.value);
    }
  }

  /** Nothing is to be done if the best block is the tip, or if there is none. */
  lemma NothingToDo(ns: seq<Node>, c: Slots, candidates: set<nat>, top: Option<nat>, floor: Option<nat>,
      connects: B.Hash -> bool, genesis: B.Hash, r: Option<nat>)
    requires ActiveClean(ns, c) && Checks(ns, c, genesis) && DistinctAddresses(ns)
        && Between(ns, c, candidates, top, floor, connects)
    requires BestOf(ns, r) && (r.Some? ==> r.value < |ns| && r.value in candidates)
    ensures r.None? || r == TipOf(c) ==> Candidates(ns, c, candidates) && BestOf(ns, TipOf(c))
    ensures r.Some? && r != TipOf(c) ==> !Contains(ns, c, r.value)
  {
    hide Between, Sound, Vetted;
    if r.None? && c != [] {
      TipSound(ns, c);
      assert false;
    }
    if r == TipOf(c) {
      BestTipEnds(ns, c, candidates, top, floor, connects);
    } else if Contains(ns, c, r.value) {
      InChainIsTip(ns, c, r.value);
      assert false;
    }
  }

  /** No block has more work than the best header. */
  lemma WorkLimit(ns: seq<Node>, c: Slots, index: map<B.Hash, nat>, parentOf: B.Hash -> B.Hash, bestHeader: Option<nat>)
    requires B.Shape(ns, c, index, parentOf, bestHeader)
    ensures TipWork(ns, c) <= Limit(ns, bestHeader)
  {
  }

  ghost function Limit(ns: seq<Node>, bestHeader: Option<nat>): int {
    if bestHeader.Some? && bestHeader.value < |ns| then ns[bestHeader.value].work else 0
  }

  lemma LimitSame(ns: seq<Node>, ms: seq<Node>, bestHeader: Option<nat>, connects: B.Hash -> bool)
    requires Judged(ns, ms, connects)
    ensures Limit(ms, bestHeader) == Limit(ns, bestHeader) && |ms| == |ns|
  {
  }

  lemma ReadySearchable(ns: seq<Node>, c: Slots, u: Unlinked, next: nat, candidates: set<nat>, top: Option<nat>,
      floor: Option<nat>, connects: B.Hash -> bool)
    requires Linking(ns, u, next) && IsBranch(ns, c) && DistinctAddresses(ns)
        && Between(ns, c, candidates, top, floor, connects)
    ensures Searchable(ns, c, candidates)
  {
    LinkingParents(ns, u, next);
  }

  /** What has been achieved after a step: the move is over, or the measure has fallen. */
  lemma StepDone(ns: seq<Node>, c: Slots, m: nat, ms: seq<Node>, d: Slots, candidates: set<nat>, invalidFound: bool,
      top: Option<nat>, floor: Option<nat>, connects: B.Hash -> bool)
    requires Progress(ns, c, m, ms, d, invalidFound, top, floor) && IsBranch(ms, d)
        && Between(ms, d, candidates, top, floor, connects)
    ensures TipOf(d) == Some(m) ==> Candidates(ms, d, candidates) && !invalidFound
    ensures TipOf(d) != Some(m) ==>
        Unfailed(ms) < Unfailed(ns) || (Unfailed(ms) == Unfailed(ns) && TipWork(ms, d) > TipWork(ns, c))
  {
    hide Between, Candidates;
    if !invalidFound {
      assert Unfailed(ms) == Unfailed(ns);
    }
    if TipOf(d) == Some(m) {
      BetweenEnds(ms, d, candidates, connects);
    }
  }

  // ----- what the move comes to

  /** `r` is the best of the sound blocks of which every block below connects, and is one of them. */
  ghost predicate BestVetted(ns: seq<Node>, r: Option<nat>, connects: B.Hash -> bool) {
    && WellFormed(ns)
    && (r.Some? ==> r.value < |ns| && Sound(ns, r.value) && Vetted(ns, r.value, connects))
    && forall i | 0 <= i < |ns| && Sound(ns, i) && Vetted(ns, i, connects) ::
        r.Some? && (i == r.value || Worse(ns[i], ns[r.value]))
  }

  lemma {:induction false} VettedNotInvalid(ns: seq<Node>, ms: seq<Node>, i: nat, connects: B.Hash -> bool)
    requires WellFormed(ns) && WellFormed(ms) && Judged(ns, ms, connects) && i < |ns| && Vetted(ns, i, connects)
        && NotFailedDown(ns, i)
    ensures !InvalidBelow(ms, i)
    decreases i
  {
    assert NodeOk(ns, i) && NodeOk(ms, i);
    if ns[i].prev.Some? {
      VettedNotInvalid(ns, ms, ns[i].prev.value, connects);
    }
  }

  /** What was sound and connects is still sound. */
  lemma VettedStaysSound(ns: seq<Node>, ms: seq<Node>, i: nat, connects: B.Hash -> bool)
    requires WellFormed(ns) && FlagsOk(ms) && Judged(ns, ms, connects) && i < |ns| && Vetted(ns, i, connects)
        && Sound(ns, i)
    ensures Sound(ms, i)
  {
    VettedNotInvalid(ns, ms, i, connects);
    if !NotFailedDown(ms, i) {
      FailedIsInvalid(ms, i);
    }
  }

  lemma JudgedBest(ns: seq<Node>, ms: seq<Node>, c: Slots, connects: B.Hash -> bool, genesis: B.Hash)
    requires WellFormed(ns) && Checks(ms, c, genesis) && Judged(ns, ms, connects) && ActiveClean(ms, c)
        && ActiveVetted(ms, c, connects) && BestOf(ms, TipOf(c))
    ensures BestVetted(ns, TipOf(c), connects)
  {
    hide NotFailedDown, Vetted;
    if c != [] {
      TipSound(ms, c);
      NotFailedSame(ns, ms, c[|c| - 1].value);
      TipVetted(ms, c, connects, |c| - 1);
      VettedSame(ms, ns, c[|c| - 1].value, connects);
    }
    forall i | 0 <= i < |ns| && Sound(ns, i) && Vetted(ns, i, connects)
        ensures c != [] && (Some(i) == TipOf(c) || Worse(ns[i], ns[c[|c| - 1].value])) {
      VettedStaysSound(ns, ms, i, connects);
    }
  }

  lemma BetweenVetted(ns: seq<Node>, c: Slots, candidates: set<nat>, top: Option<nat>, floor: Option<nat>,
      connects: B.Hash -> bool)
    requires Between(ns, c, candidates, top, floor, connects)
    ensures ActiveVetted(ns, c, connects)
  {
  }

  /**
   Move to the best chain, one step after another; `connects` says which blocks turn out to be valid when they
   are connected.  The move ends, and where it ends does not depend on the way: the tip is the best of all linked
   blocks that had not failed and of which every block below connects.
   */
  method ActivateBestChain(b: B.BlockIndex, connects: B.Hash -> bool)
    requires b.Valid() && b.Checked() && ActiveVetted(b.nodes, b.chain.slots, connects)
    modifies b`nodes, b`unlinked, b`candidates, b`bestInvalid, b.chain
    ensures b.Valid() && b.Checked() && ActiveVetted(b.nodes, b.chain.slots, connects)
    ensures BestOf(b.nodes, TipOf(b.chain.slots)) && b.unlinked == old(b.unlinked)
    ensures Judged(old(b.nodes), b.nodes, connects) && BestVetted(old(b.nodes), TipOf(b.chain.slots), connects)
  {
    hide Checks, Linking, ActiveClean, B.Indexed, B.Works, Between, Skips, WellFormed, Vetted, IsBranch, Sound, BestOf,
        DistinctAddresses, Candidates, TipWork, Unfailed, Judged, Progress, Contains, Marked, B.Dropped, B.MostWork,
        B.Requeued, B.MoreWork, BestVetted, ActiveVetted, Limit, Searchable;
    ghost var start, u := b.nodes, b.unlinked;
    ghost var top, floor := TipOf(b.chain.slots), TipOf(b.chain.slots);
    LinkingTree(b.nodes, b.unlinked, b.nextSequence);
    LevelsSelf(start, connects);
    BetweenStarts(b.nodes, b.chain.slots, b.candidates, connects);
    while true
      invariant Ready(b, top, floor, connects) && Judged(start, b.nodes, connects) && b.unlinked == u
      decreases Unfailed(b.nodes), Limit(b.nodes, b.bestHeader) - TipWork(b.nodes, b.chain.slots)
    {
      ghost var ns, c, known := b.nodes, b.chain.slots, b.candidates;
      WorkLimit(ns, c, b.index, b.parentOf, b.bestHeader);
      ReadySearchable(ns, c, u, b.nextSequence, known, top, floor, connects);
      var r := b.FindMostWorkChain();
      Searched(ns, b.nodes, u, b.nextSequence, c, known, b.candidates, top, floor, connects, r);
      MarksJudged(ns, b.nodes, c, connects);
      JudgedTwice(start, ns, b.nodes, connects);
      NothingToDo(b.nodes, c, b.candidates, top, floor, connects, b.genesis, r);
      if r.None? || r == b.chain.Tip() {
        break;
      }
      ghost var ms := b.nodes;
      var invalidFound;
      invalidFound, top, floor := ActivateBestChainStep(b, r.value, connects, top, floor);
      JudgedTwice(start, ms, b.nodes, connects);
      JudgedTwice(ns, ms, b.nodes, connects);
      LimitSame(ns, b.nodes, b.bestHeader, connects);
      StepDone(ms, c, r.value, b.nodes, b.chain.slots, b.candidates, invalidFound, top, floor, connects);
      if r == b.chain.Tip() {
        break;
      }
    }
    BetweenVetted(b.nodes, b.chain.slots, b.candidates, top, floor, connects);
    JudgedBest(start, b.nodes, b.chain.slots, connects, b.genesis);
  }
}
