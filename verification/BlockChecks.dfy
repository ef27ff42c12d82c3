/**
 What the consistency check demands of single entries and their parents: validity levels, the causes of
 failure flags, one root, and work that rises.
 */
module BlockChecks {
  import opened Wrappers
  import opened BlockTree
  import opened ActiveChain
  import opened BlockLinking
  import opened BestChain

  /** This entry or an ancestor of it was itself found invalid. */
  ghost predicate InvalidBelow(ns: seq<Node>, i: nat)
    requires WellFormed(ns) && i < |ns|
    decreases i
  {
    assert NodeOk(ns, i);
    ns[i].failedValid || (ns[i].prev.Some? && InvalidBelow(ns, ns[i].prev.value))
  }

  /** Failure flags are set only below a block that was found invalid. */
  ghost predicate FlagsOk(ns: seq<Node>) {
    WellFormed(ns) && forall i | 0 <= i < |ns| && ns[i].Failed() :: InvalidBelow(ns, i)
  }

  /**
   Transactions are valid exactly where there are some; chain and scripts together, and only where the parent's are, the
   root aside.
   */
  ghost predicate LevelOk(ns: seq<Node>, i: nat)
    requires i < |ns|
  {
    && (ns[i].level >= VALID_TRANSACTIONS <==> ns[i].nTx > 0)
    && (ns[i].level >= VALID_CHAIN ==> ns[i].level >= VALID_SCRIPTS)
    && (ns[i].level >= VALID_SCRIPTS && ns[i].prev.Some? ==> ns[i].prev.value < |ns| && Scripted(ns[ns[i].prev.value]))
  }

  predicate Scripted(n: Node) { n.level >= VALID_SCRIPTS || n.prev.None? }

  ghost predicate LevelsOk(ns: seq<Node>) {
    forall i | 0 <= i < |ns| :: LevelOk(ns, i)
  }

  /** Every block of the active chain was connected; the root is not connected but taken as it is. */
  ghost predicate ActiveScripted(ns: seq<Node>, c: Slots) {
    forall h | 0 <= h < |c| :: c[h].Some? && c[h].value < |ns| && Scripted(ns[c[h].value])
  }

  /** Only the genesis block is without a parent. */
  ghost predicate Rooted(ns: seq<Node>, genesis: nat) {
    forall i | 0 <= i < |ns| :: ns[i].prev.None? <==> ns[i].hash == genesis
  }

  ghost predicate RisesAt(ns: seq<Node>, i: nat)
    requires i < |ns|
  {
    ns[i].prev.Some? ==> ns[i].prev.value < |ns| && ns[ns[i].prev.value].work < ns[i].work
  }

  ghost predicate Rising(ns: seq<Node>) {
    forall i | 0 <= i < |ns| :: RisesAt(ns, i)
  }

  ghost predicate Checks(ns: seq<Node>, c: Slots, genesis: nat) {
    FlagsOk(ns) && LevelsOk(ns) && ActiveScripted(ns, c) && Rooted(ns, genesis) && Rising(ns)
  }

  // ----- what keeps them

  lemma {:induction false} InvalidGrown(ns: seq<Node>, ms: seq<Node>, i: nat)
    requires WellFormed(ns) && WellFormed(ms) && Grown(ns, ms) && i < |ns| && InvalidBelow(ns, i)
    requires forall k | 0 <= k < |ns| :: ns[k].failedValid ==> ms[k].failedValid
    ensures InvalidBelow(ms, i)
    decreases i
  {
    assert NodeOk(ns, i) && NodeOk(ms, i);
    if !ns[i].failedValid {
      InvalidGrown(ns, ms, ns[i].prev.value);
    }
  }

  lemma {:induction false} FailedIsInvalid(ns: seq<Node>, i: nat)
    requires FlagsOk(ns) && i < |ns| && !NotFailedDown(ns, i)
    ensures InvalidBelow(ns, i)
    decreases i
  {
    assert NodeOk(ns, i);
    if !ns[i].Failed() {
      FailedIsInvalid(ns, ns[i].prev.value);
    }
  }

  /** Entries whose failure flags, levels and counts change. */
  lemma TreePartKept(ns: seq<Node>, ms: seq<Node>, c: Slots, genesis: nat)
    requires Checks(ns, c, genesis) && Grown(ns, ms) && |ns| == |ms|
    ensures Rooted(ms, genesis) && Rising(ms)
  {
    forall i | 0 <= i < |ms| ensures RisesAt(ms, i) {
      assert RisesAt(ns, i);
    }
  }

  lemma MarkedChecks(ns: seq<Node>, ms: seq<Node>, u: Unlinked, next: nat, c: Slots, genesis: nat)
    requires Linking(ns, u, next) && ActiveClean(ns, c) && Marked(ns, ms, c)
    ensures Checks(ns, c, genesis) ==> Checks(ms, c, genesis)
  {
    hide Usable, Linking, DataDown, Waits, Entries, Checks;
    if Checks(ns, c, genesis) {
      ChecksParts(ns, c, genesis);
      MarkedTree(ns, ms, c);
      TreePartKept(ns, ms, c, genesis);
      MarkedFlags(ns, ms, u, next, c);
      MarkedLevels(ns, ms, c);
      ChecksWhole(ms, c, genesis);
    }
  }

  lemma ChecksParts(ns: seq<Node>, c: Slots, genesis: nat)
    requires Checks(ns, c, genesis)
    ensures FlagsOk(ns) && LevelsOk(ns) && ActiveScripted(ns, c) && Rooted(ns, genesis) && Rising(ns)
  {
  }

  lemma ChecksWhole(ns: seq<Node>, c: Slots, genesis: nat)
    requires FlagsOk(ns) && LevelsOk(ns) && ActiveScripted(ns, c) && Rooted(ns, genesis) && Rising(ns)
    ensures Checks(ns, c, genesis)
  {
  }

  lemma MarkedFlags(ns: seq<Node>, ms: seq<Node>, u: Unlinked, next: nat, c: Slots)
    requires Linking(ns, u, next) && ActiveClean(ns, c) && Marked(ns, ms, c) && FlagsOk(ns) && WellFormed(ms)
        && Grown(ns, ms)
    ensures FlagsOk(ms)
  {
    hide Usable, DataDown, Waits, Entries, InvalidBelow, NotFailedDown;
    forall i | 0 <= i < |ms| && ms[i].Failed() ensures InvalidBelow(ms, i) {
      if !ns[i].Failed() {
        LinkedHasData(ns, u, next, i);
        UsableExact(ns, c, i);
        FailedIsInvalid(ns, i);
      }
      InvalidGrown(ns, ms, i);
    }
  }

  lemma LinkedHasData(ns: seq<Node>, u: Unlinked, next: nat, i: nat)
    requires Linking(ns, u, next) && i < |ns| && ns[i].nChainTx != 0
    ensures DataDown(ns, i)
  {
  }

  lemma MarkedLevels(ns: seq<Node>, ms: seq<Node>, c: Slots)
    requires Marked(ns, ms, c) && LevelsOk(ns) && ActiveScripted(ns, c)
    ensures LevelsOk(ms) && ActiveScripted(ms, c)
  {
    hide Usable;
    forall i | 0 <= i < |ms| ensures LevelOk(ms, i) {
      assert LevelOk(ns, i);
    }
  }

  lemma FailedChecks(ns: seq<Node>, c: Slots, genesis: nat, i: nat)
    requires i < |ns|
    ensures var ms := ns[i := ns[i].(failedValid := true)]; Checks(ns, c, genesis) ==> Checks(ms, c, genesis)
  {
    var ms := ns[i := ns[i].(failedValid := true)];
    if Checks(ns, c, genesis) {
      TreeUpdate(ns, ms);
      TreePartKept(ns, ms, c, genesis);
      forall k | 0 <= k < |ms| && ms[k].Failed() ensures InvalidBelow(ms, k) {
        if k != i {
          InvalidGrown(ns, ms, k);
        }
      }
      forall k | 0 <= k < |ms| ensures LevelOk(ms, k) {
        assert LevelOk(ns, k);
      }
    }
  }

  /** A connected block below the old tip. */
  lemma ScriptedChecks(ns: seq<Node>, c: Slots, genesis: nat, i: nat, d: Slots)
    requires i < |ns| && WellFormed(ns) && !ns[i].Failed() && ns[i].nTx > 0
    requires (c == [] ==> ns[i].prev.None?) && (c != [] ==> ns[i].prev == c[|c| - 1])
    requires d == c + [Some(i)]
    ensures var ms := ns[i := if ns[i].prev.None? then ns[i] else ns[i].RaiseValidity(VALID_SCRIPTS)];
        Checks(ns, c, genesis) ==> Checks(ms, d, genesis)
  {
    var ms := ns[i := if ns[i].prev.None? then ns[i] else ns[i].RaiseValidity(VALID_SCRIPTS)];
    if Checks(ns, c, genesis) {
      TreeUpdate(ns, ms);
      TreePartKept(ns, ms, c, genesis);
      forall k | 0 <= k < |ms| && ms[k].Failed() ensures InvalidBelow(ms, k) {
        InvalidGrown(ns, ms, k);
      }
      forall k | 0 <= k < |ms| ensures LevelOk(ms, k) {
        assert LevelOk(ns, k);
      }
    }
  }

  lemma ShorterChecks(ns: seq<Node>, c: Slots, genesis: nat, n: nat)
    requires n <= |c|
    ensures Checks(ns, c, genesis) ==> Checks(ns, c[..n], genesis)
  {
    hide FlagsOk, LevelsOk, Rooted, Rising;
  }

  lemma AppendedChecks(ns: seq<Node>, n: Node, c: Slots, genesis: nat)
    requires WellFormed(ns) && WellFormed(ns + [n]) && Grown(ns, ns + [n]) && !n.Failed() && n.nTx == 0
        && n.level < VALID_TRANSACTIONS
    requires n.prev.None? <==> n.hash == genesis
    requires n.prev.Some? ==> n.prev.value < |ns| && ns[n.prev.value].work < n.work
    ensures Checks(ns, c, genesis) ==> Checks(ns + [n], c, genesis)
  {
    var ms := ns + [n];
    if Checks(ns, c, genesis) {
      forall k | 0 <= k < |ms| && ms[k].Failed() ensures InvalidBelow(ms, k) {
        InvalidGrown(ns, ms, k);
      }
      forall k | 0 <= k < |ms| ensures LevelOk(ms, k) && RisesAt(ms, k) {
        assert k < |ns| ==> LevelOk(ns, k) && RisesAt(ns, k);
      }
    }
  }

  /** Counts and sequence numbers do not matter here; data for an entry that has not failed raises its level. */
  lemma ReceivedChecks(ns: seq<Node>, ms: seq<Node>, i: nat, nTx: nat, c: Slots, genesis: nat)
    requires WellFormed(ns) && i < |ns| && !ns[i].Failed() && ns[i].nTx == 0 && nTx > 0 && Grown(ns, ms) && |ms| == |ns|
    requires forall k | 0 <= k < |ns| :: ms[k] == Receive(ns, i, nTx)[k].(nChainTx := ms[k].nChainTx,
        sequenceId := ms[k].sequenceId)
    ensures Checks(ns, c, genesis) ==> Checks(ms, c, genesis)
  {
    if Checks(ns, c, genesis) {
      TreeUpdate(ns, ms);
      TreePartKept(ns, ms, c, genesis);
      forall k | 0 <= k < |ms| && ms[k].Failed() ensures InvalidBelow(ms, k) {
        InvalidGrown(ns, ms, k);
      }
      forall k | 0 <= k < |ms| ensures LevelOk(ms, k) {
        assert LevelOk(ns, k);
      }
    }
  }

  // ----- what follows

  /** All entries have the one root below them. */
  lemma OneRoot(ns: seq<Node>, genesis: nat, i: nat, k: nat)
    requires WellFormed(ns) && Rooted(ns, genesis) && i < |ns| && k < |ns|
    requires forall a, b | 0 <= a < b < |ns| :: ns[a].hash != ns[b].hash
    ensures Walk(ns, i, 0) == Walk(ns, k, 0)
  {
    WalkHeight(ns, i, 0);
    WalkHeight(ns, k, 0);
    var a, b := Walk(ns, i, 0), Walk(ns, k, 0);
    assert NodeOk(ns, a) && NodeOk(ns, b);
    assert ns[a].hash == genesis == ns[b].hash;
  }

  /** The entry without a parent is the first block of the active chain. */
  lemma RootIsFirst(ns: seq<Node>, c: Slots, genesis: nat, i: nat)
    requires IsBranch(ns, c) && Rooted(ns, genesis) && c != [] && i < |ns| && ns[i].hash == genesis
    requires forall a, b | 0 <= a < b < |ns| :: ns[a].hash != ns[b].hash
    ensures c[0] == Some(i)
  {
    assert BranchAt(ns, c, 0);
    assert NodeOk(ns, c[0].value);
  }

  /** Work rises strictly along a branch. */
  lemma {:induction false} WorkBelow(ns: seq<Node>, i: nat, h: nat)
    requires WellFormed(ns) && Rising(ns) && i < |ns| && h <= ns[i].height
    ensures Walk(ns, i, h) < |ns| && (h < ns[i].height ==> ns[Walk(ns, i, h)].work < ns[i].work)
    decreases i
  {
    if ns[i].height != h {
      assert NodeOk(ns, i) && RisesAt(ns, i);
      WorkBelow(ns, ns[i].prev.value, h);
    }
  }
}
