/**
 The work order, what makes a branch usable, and the set of candidates for the best chain.
 */
module BestChain {
  import opened Wrappers
  import opened Collections
  import opened BlockTree
  import opened ActiveChain
  import opened BlockLinking

  // ----- the work order

  /** Less work, or as much work but linked later, or a tie broken by the place in memory. */
  predicate Worse(a: Node, b: Node) {
    if a.work > b.work then false
    else if a.work < b.work then true
    else if a.sequenceId < b.sequenceId then false
    else if a.sequenceId > b.sequenceId then true
    else a.address > b.address
  }

  ghost predicate DistinctAddresses(ns: seq<Node>) {
    forall i, j | 0 <= i < j < |ns| :: ns[i].address != ns[j].address
  }

  /**
   The order is strict and total on the entries of a tree; more work wins, and at equal work what was linked earlier.
   */
  lemma WorseOrders(ns: seq<Node>, a: nat, b: nat, c: nat)
    requires DistinctAddresses(ns) && a < |ns| && b < |ns| && c < |ns|
    ensures !Worse(ns[a], ns[a])
    ensures a != b ==> (Worse(ns[a], ns[b]) <==> !Worse(ns[b], ns[a]))
    ensures Worse(ns[a], ns[b]) && Worse(ns[b], ns[c]) ==> Worse(ns[a], ns[c])
    ensures ns[a].work < ns[b].work ==> Worse(ns[a], ns[b])
    ensures ns[a].work == ns[b].work && ns[a].sequenceId > ns[b].sequenceId ==> Worse(ns[a], ns[b])
    ensures ns[a].work == ns[b].work && ns[a].sequenceId == ns[b].sequenceId && ns[a].address > ns[b].address ==>
        Worse(ns[a], ns[b])
  {
    assert a < b ==> ns[a].address != ns[b].address;
    assert b < a ==> ns[b].address != ns[a].address;
  }

  ghost predicate IsGreatest(ns: seq<Node>, s: set<nat>, m: nat)
    requires forall c | c in s :: c < |ns|
  {
    m in s && forall c | c in s :: c == m || Worse(ns[c], ns[m])
  }

  ghost predicate IsLeast(ns: seq<Node>, s: set<nat>, m: nat)
    requires forall c | c in s :: c < |ns|
  {
    m in s && forall c | c in s :: c == m || Worse(ns[m], ns[c])
  }

  lemma {:induction false} GreatestExists(ns: seq<Node>, s: set<nat>) returns (m: nat)
    requires DistinctAddresses(ns) && s != {} && forall c | c in s :: c < |ns|
    ensures IsGreatest(ns, s, m)
    decreases |s|
  {
    var x := Pick(s);
    if s == {x} {
      m := x;
    } else {
      var y := GreatestExists(ns, s - {x});
      m := if Worse(ns[x], ns[y]) then y else x;
      WorseOrders(ns, x, y, y);
      forall c | c in s ensures c == m || Worse(ns[c], ns[m]) {
        if c != x && c != y {
          assert c in s - {x};
          WorseOrders(ns, c, y, x);
        }
      }
    }
  }

  lemma {:induction false} LeastExists(ns: seq<Node>, s: set<nat>) returns (m: nat)
    requires DistinctAddresses(ns) && s != {} && forall c | c in s :: c < |ns|
    ensures IsLeast(ns, s, m)
    decreases |s|
  {
    var x := Pick(s);
    if s == {x} {
      m := x;
    } else {
      var y := LeastExists(ns, s - {x});
      m := if Worse(ns[y], ns[x]) then y else x;
      WorseOrders(ns, x, y, y);
      forall c | c in s ensures c == m || Worse(ns[m], ns[c]) {
        if c != x && c != y {
          assert c in s - {x};
          WorseOrders(ns, x, y, c);
        }
      }
    }
  }

  // ----- usable branches

  /** From `i` back to the active chain no block has failed and none lacks its data. */
  ghost predicate Usable(ns: seq<Node>, c: Slots, i: nat)
    requires WellFormed(ns) && i < |ns|
    decreases i
  {
    assert NodeOk(ns, i);
    Contains(ns, c, i) || (Fine(ns[i]) && (ns[i].prev.Some? ==> Usable(ns, c, ns[i].prev.value)))
  }

  predicate Fine(n: Node) {
    !n.Failed() && n.haveData
  }

  ghost predicate NotFailedDown(ns: seq<Node>, i: nat)
    requires WellFormed(ns) && i < |ns|
    decreases i
  {
    assert NodeOk(ns, i);
    !ns[i].Failed() && (ns[i].prev.Some? ==> NotFailedDown(ns, ns[i].prev.value))
  }

  /** Every block of the active chain is linked and has not failed. */
  ghost predicate ActiveClean(ns: seq<Node>, c: Slots) {
    IsBranch(ns, c) && forall h | 0 <= h < |c| ::
        BranchAt(ns, c, h) && ns[c[h].value].nChainTx != 0 && !ns[c[h].value].Failed()
  }

  lemma {:induction false} ActiveNotFailed(ns: seq<Node>, c: Slots, h: nat)
    requires ActiveClean(ns, c) && h < |c|
    ensures BranchAt(ns, c, h) && NotFailedDown(ns, c[h].value)
  {
    assert BranchAt(ns, c, h) && NodeOk(ns, c[h].value);
    if h > 0 {
      ActiveNotFailed(ns, c, h - 1);
    }
  }

  /** Looking only as far as the active chain is enough: the rest is known to be good. */
  lemma {:induction false} UsableExact(ns: seq<Node>, c: Slots, i: nat)
    requires ActiveClean(ns, c) && Counts(ns) && i < |ns|
    ensures Usable(ns, c, i) <==> NotFailedDown(ns, i) && DataDown(ns, i)
    decreases i
  {
    assert NodeOk(ns, i);
    if Contains(ns, c, i) {
      ActiveNotFailed(ns, c, ns[i].height);
    } else if ns[i].prev.Some? {
      UsableExact(ns, c, ns[i].prev.value);
    }
  }

  // ----- the path that a failed search walked

  /** `t` is `top` or an ancestor of it, and everything above `t` is off the chain and fine. */
  ghost predicate OpenPath(ns: seq<Node>, c: Slots, top: nat, t: nat)
    requires WellFormed(ns) && top < |ns|
    decreases top
  {
    assert NodeOk(ns, top);
    top == t || (t < top && !Contains(ns, c, top) && Fine(ns[top]) && ns[top].prev.Some?
        && OpenPath(ns, c, ns[top].prev.value, t))
  }

  lemma {:induction false} OpenPathExtend(ns: seq<Node>, c: Slots, top: nat, t: nat)
    requires WellFormed(ns) && top < |ns| && OpenPath(ns, c, top, t) && t < |ns|
    requires !Contains(ns, c, t) && Fine(ns[t]) && ns[t].prev.Some?
    ensures ns[t].prev.value < t <= top && OpenPath(ns, c, top, ns[t].prev.value)
    decreases top
  {
    assert NodeOk(ns, t) && NodeOk(ns, top);
    if top != t {
      OpenPathExtend(ns, c, ns[top].prev.value, t);
    }
  }

  lemma {:induction false} OpenPathUsable(ns: seq<Node>, c: Slots, top: nat, t: nat)
    requires WellFormed(ns) && top < |ns| && OpenPath(ns, c, top, t)
    ensures t <= top && (Usable(ns, c, top) <==> Usable(ns, c, t))
    decreases top
  {
    assert NodeOk(ns, top);
    if top != t {
      OpenPathUsable(ns, c, ns[top].prev.value, t);
    }
  }

  /** A path steps from parent to parent. */
  lemma {:induction false} OpenPathNext(ns: seq<Node>, c: Slots, top: nat, t: nat, x: nat)
    requires WellFormed(ns) && top < |ns| && OpenPath(ns, c, top, t) && OpenPath(ns, c, top, x) && x < t <= top
    ensures ns[t].prev.Some? && x <= ns[t].prev.value
    decreases top
  {
    assert NodeOk(ns, top);
    if top == t {
      OpenPathUsable(ns, c, ns[top].prev.value, x);
    } else {
      OpenPathUsable(ns, c, ns[top].prev.value, t);
      OpenPathNext(ns, c, ns[top].prev.value, t, x);
    }
  }

  /** Only linked entries that were not usable have been marked as descending from a failed block. */
  ghost predicate Marked(ns: seq<Node>, ms: seq<Node>, c: Slots) {
    && WellFormed(ns) && |ms| == |ns|
    && forall i | 0 <= i < |ns| :: ms[i] == ns[i] || (ms[i] == ns[i].(failedChild := true) && ns[i].nChainTx != 0
        && !Usable(ns, c, i))
  }

  lemma MarkedTree(ns: seq<Node>, ms: seq<Node>, c: Slots)
    requires Marked(ns, ms, c)
    ensures WellFormed(ms) && Grown(ns, ms)
  {
    TreeUpdate(ns, ms);
  }

  lemma {:induction false} MarkedUsable(ns: seq<Node>, ms: seq<Node>, c: Slots, i: nat)
    requires Marked(ns, ms, c) && WellFormed(ms) && i < |ns|
    ensures Usable(ms, c, i) <==> Usable(ns, c, i)
    decreases i
  {
    assert NodeOk(ns, i) && NodeOk(ms, i);
    if ns[i].prev.Some? {
      MarkedUsable(ns, ms, c, ns[i].prev.value);
    }
  }

  lemma MarkedTwice(ns: seq<Node>, ms: seq<Node>, ls: seq<Node>, c: Slots)
    requires Marked(ns, ms, c) && Marked(ms, ls, c)
    ensures Marked(ns, ls, c)
  {
    forall i | 0 <= i < |ns| ensures ls[i] == ns[i] || (ls[i] == ns[i].(failedChild := true) && ns[i].nChainTx != 0
        && !Usable(ns, c, i)) {
      MarkedUsable(ns, ms, c, i);
    }
  }

  // ----- candidates

  /** What the search needs: candidates are linked, and so are the parents of linked entries. */
  ghost predicate Searchable(ns: seq<Node>, c: Slots, candidates: set<nat>) {
    && WellFormed(ns) && IsBranch(ns, c) && DistinctAddresses(ns)
    && (forall i | i in candidates :: i < |ns| && ns[i].nChainTx != 0)
    && ParentsLinked(ns)
  }

  ghost predicate ParentsLinked(ns: seq<Node>) {
    forall i | 0 <= i < |ns| && ns[i].nChainTx != 0 && ns[i].prev.Some? ::
        NodeOk(ns, i) && ns[ns[i].prev.value].nChainTx != 0
  }

  /** Linked entries have linked parents. */
  lemma LinkingParents(ns: seq<Node>, u: Unlinked, next: nat)
    requires Linking(ns, u, next)
    ensures ParentsLinked(ns)
  {
    ToLocal(ns, u, next);
    forall i | 0 <= i < |ns| && ns[i].nChainTx != 0 && ns[i].prev.Some?
        ensures NodeOk(ns, i) && ns[ns[i].prev.value].nChainTx != 0 {
      assert NodeOk(ns, i) && CountOk(ns, i);
    }
  }

  predicate WorseThanTip(ns: seq<Node>, c: Slots, i: nat)
    requires i < |ns|
  {
    c != [] && c[|c| - 1].Some? && c[|c| - 1].value < |ns| && Worse(ns[i], ns[c[|c| - 1].value])
  }

  /**
   Every linked block that is no worse than the tip and descends from no failed block is a candidate; every candidate is
   linked and no worse than the tip.
   */
  ghost predicate Candidates(ns: seq<Node>, c: Slots, candidates: set<nat>) {
    && WellFormed(ns)
    && (forall i | i in candidates :: i < |ns| && ns[i].nChainTx != 0 && !WorseThanTip(ns, c, i))
    && (forall i | 0 <= i < |ns| && ns[i].nChainTx != 0 && NotFailedDown(ns, i) && !WorseThanTip(ns, c, i) ::
        i in candidates)
  }

  /** A linked entry lacks data neither itself nor further back. */
  lemma {:induction false} LinkedPathHasData(ns: seq<Node>, u: Unlinked, next: nat, c: Slots, top: nat, t: nat)
    requires Linking(ns, u, next) && top < |ns| && ns[top].nChainTx != 0 && OpenPath(ns, c, top, t)
    ensures t < |ns| && ns[t].haveData
    decreases top
  {
    ToLocal(ns, u, next);
    assert NodeOk(ns, top) && CountOk(ns, top);
    if top != t {
      LinkedPathHasData(ns, u, next, c, ns[top].prev.value, t);
    }
  }

  lemma {:induction false} NotFailedSame(ns: seq<Node>, ms: seq<Node>, i: nat)
    requires WellFormed(ns) && WellFormed(ms) && Grown(ns, ms) && i < |ns|
    requires forall k | 0 <= k < |ns| :: ns[k].Failed() ==> ms[k].Failed()
    ensures NotFailedDown(ms, i) ==> NotFailedDown(ns, i)
    decreases i
  {
    assert NodeOk(ns, i);
    if ns[i].prev.Some? {
      NotFailedSame(ns, ms, ns[i].prev.value);
    }
  }
}
