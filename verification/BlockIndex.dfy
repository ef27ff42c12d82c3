/**
 The block index as the node keeps it: entries arrive and are linked in any order, candidates are
 searched for the best chain, and the active chain moves to it.
 */
module BlockIndex {
  import opened Wrappers
  import opened Collections
  import opened BlockTree
  import opened ActiveChain
  import opened BlockLinking
  import opened BestChain
  import opened BlockChecks

  type Hash = nat

  const NULL_HASH: Hash := 0

  /** The map finds every entry by its hash, and a parent is the entry that the block's header names. */
  ghost predicate Indexed(ns: seq<Node>, index: map<Hash, nat>, parentOf: Hash -> Hash) {
    && NULL_HASH !in index
    && (forall h | h in index :: index[h] < |ns| && ns[index[h]].hash == h)
    && (forall i | 0 <= i < |ns| :: ns[i].hash in index && index[ns[i].hash] == i)
    && (forall i | 0 <= i < |ns| :: Named(ns, parentOf, i))
  }

  ghost predicate Named(ns: seq<Node>, parentOf: Hash -> Hash, i: nat)
    requires i < |ns|
  {
    ns[i].prev.Some? ==> ns[i].prev.value < |ns| && ns[ns[i].prev.value].hash == parentOf(ns[i].hash)
  }

  lemma IndexedGrown(ns: seq<Node>, ms: seq<Node>, index: map<Hash, nat>, parentOf: Hash -> Hash)
    requires Indexed(ns, index, parentOf) && Grown(ns, ms) && |ns| == |ms|
    ensures Indexed(ms, index, parentOf)
  {
    forall i | 0 <= i < |ms| ensures Named(ms, parentOf, i) {
      assert Named(ns, parentOf, i);
    }
  }

  lemma IndexedAppended(ns: seq<Node>, n: Node, index: map<Hash, nat>, parentOf: Hash -> Hash)
    requires Indexed(ns, index, parentOf) && n.hash !in index && n.hash != NULL_HASH
    requires n.prev.Some? ==> n.prev.value < |ns| && ns[n.prev.value].hash == parentOf(n.hash)
    ensures Indexed(ns + [n], index[n.hash := |ns|], parentOf)
  {
    var ms := ns + [n];
    forall i | 0 <= i < |ms| ensures Named(ms, parentOf, i) {
      assert i < |ns| ==> Named(ns, parentOf, i);
    }
  }

  lemma WorksAppended(ns: seq<Node>, n: Node, bestHeader: Option<nat>)
    requires Works(ns, bestHeader) && WellFormed(ns + [n])
    requires n.prev.Some? ==> n.prev.value < |ns| && n.work >= ns[n.prev.value].work
    ensures Works(ns + [n], if bestHeader.None? || ns[bestHeader.value].work < n.work then Some(|ns|) else bestHeader)
  {
    var ms := ns + [n];
    forall i | 0 <= i < |ms| && ms[i].prev.Some? ensures NodeOk(ms, i) && ms[i].work >= ms[ms[i].prev.value].work {
      assert NodeOk(ms, i);
    }
  }

  /** Work never falls from parent to child, and the best header has the most of it. */
  ghost predicate Works(ns: seq<Node>, bestHeader: Option<nat>) {
    && WellFormed(ns)
    && (forall i | 0 <= i < |ns| && ns[i].prev.Some? :: NodeOk(ns, i) && ns[i].work >= ns[ns[i].prev.value].work)
    && (bestHeader.None? ==> ns == [])
    && (bestHeader.Some? ==>
        bestHeader.value < |ns| && forall i | 0 <= i < |ns| :: ns[i].work <= ns[bestHeader.value].work)
  }

  lemma BestHeaderOk(ns: seq<Node>, bestHeader: Option<nat>)
    requires Works(ns, bestHeader)
    ensures bestHeader.Some? ==> bestHeader.value < |ns|
  {
  }

  lemma WorksGrown(ns: seq<Node>, ms: seq<Node>, bestHeader: Option<nat>)
    requires Works(ns, bestHeader) && Grown(ns, ms) && |ns| == |ms|
    ensures Works(ms, bestHeader)
  {
    TreeUpdate(ns, ms);
    forall i | 0 <= i < |ms| && ms[i].prev.Some? ensures NodeOk(ms, i) && ms[i].work >= ms[ms[i].prev.value].work {
      assert NodeOk(ns, i);
    }
  }

  /** What stays true of an index when only counts, data and flags of its entries change. */
  ghost predicate Shape(ns: seq<Node>, c: Slots, index: map<Hash, nat>, parentOf: Hash -> Hash,
      bestHeader: Option<nat>) {
    Skips(ns) && IsBranch(ns, c) && DistinctAddresses(ns) && Indexed(ns, index, parentOf) && Works(ns, bestHeader)
  }

  lemma ShapeKept(ns: seq<Node>, ms: seq<Node>, c: Slots, index: map<Hash, nat>, parentOf: Hash -> Hash,
      bestHeader: Option<nat>)
    requires Shape(ns, c, index, parentOf, bestHeader) && Grown(ns, ms) && |ns| == |ms|
    ensures Shape(ms, c, index, parentOf, bestHeader)
  {
    hide Indexed, Works, Skips, IsBranch;
    UpdateKeeps(ns, ms);
    BranchGrown(ns, ms, c);
    WorksGrown(ns, ms, bestHeader);
    IndexedGrown(ns, ms, index, parentOf);
  }

  lemma ShapeAppended(ns: seq<Node>, n: Node, c: Slots, index: map<Hash, nat>, parentOf: Hash -> Hash,
      bestHeader: Option<nat>)
    requires Shape(ns, c, index, parentOf, bestHeader) && n.hash !in index
    requires Vacant(ns, n.address)
    requires Skips(ns + [n]) && Grown(ns, ns + [n])
    requires n.prev.Some? ==>
        n.prev.value < |ns| && n.work >= ns[n.prev.value].work && ns[n.prev.value].hash == parentOf(n.hash)
    requires n.hash != NULL_HASH
    ensures Shape(ns + [n], c, index[n.hash := |ns|], parentOf, if bestHeader.None?
        || ns[bestHeader.value].work < n.work then Some(|ns|) else bestHeader)
  {
    hide Indexed, Works, IsBranch, SkipOk;
    BranchGrown(ns, ns + [n], c);
    WorksAppended(ns, n, bestHeader);
    IndexedAppended(ns, n, index, parentOf);
  }

  lemma ActiveAppended(ns: seq<Node>, n: Node, c: Slots)
    requires ActiveClean(ns, c) && WellFormed(ns + [n]) && Grown(ns, ns + [n])
    ensures ActiveClean(ns + [n], c)
  {
    BranchGrown(ns, ns + [n], c);
  }

  lemma CandidatesAppended(ns: seq<Node>, n: Node, c: Slots, candidates: set<nat>)
    requires IsBranch(ns, c) && Candidates(ns, c, candidates) && WellFormed(ns + [n]) && Grown(ns, ns + [n])
        && n.nChainTx == 0
    ensures Candidates(ns + [n], c, candidates)
  {
    var ms := ns + [n];
    assert c != [] ==> BranchAt(ns, c, |c| - 1);
    forall i | 0 <= i < |ms| && ms[i].nChainTx != 0 && NotFailedDown(ms, i) && !WorseThanTip(ms, c, i)
        ensures i in candidates {
      NotFailedSame(ns, ms, i);
    }
  }

  ghost function MaxAddress(ns: seq<Node>): nat {
    if ns == [] then 0 else
        if ns[|ns| - 1].address > MaxAddress(ns[..|ns| - 1]) then ns[|ns| - 1].address else MaxAddress(ns[..|ns| - 1])
  }

  lemma {:induction false} AddressBound(ns: seq<Node>, i: nat)
    requires i < |ns|
    ensures ns[i].address <= MaxAddress(ns)
  {
    if i < |ns| - 1 {
      AddressBound(ns[..|ns| - 1], i);
    }
  }

  predicate Vacant(ns: seq<Node>, address: nat) {
    forall i | 0 <= i < |ns| :: ns[i].address != address
  }

  /** A place in memory that no entry occupies; which one is not known. */
  method Allocate(ns: seq<Node>) returns (address: nat)
    ensures Vacant(ns, address)
  {
    ghost var above := MaxAddress(ns) + 1;
    forall i | 0 <= i < |ns| ensures ns[i].address != above {
      AddressBound(ns, i);
    }
    assert Vacant(ns, above);
    address :| Vacant(ns, address);
  }

  /** While a queue is being linked: `base` is the tree before, with the new data in it. */
  ghost predicate Linked(base: seq<Node>, ns: seq<Node>) {
    && |ns| == |base|
    && forall k | 0 <= k < |ns| ::
         && ns[k] == base[k].(nChainTx := ns[k].nChainTx, sequenceId := ns[k].sequenceId)
         && (base[k].nChainTx != 0 ==> ns[k] == base[k])
  }

  lemma CandidatesLinked(ns: seq<Node>, ms: seq<Node>, c: Slots, candidates: set<nat>, q: nat, next: nat)
    requires ActiveClean(ns, c) && Candidates(ns, c, candidates) && q < |ns| && ns[q].nChainTx == 0
    requires Linkable(ns, q) && ns[q].nTx > 0 && ms == Link(ns, q, next)
    ensures ActiveClean(ms, c) && Candidates(ms, c, if WorseThanTip(ms, c, q) then candidates else candidates + {q})
  {
    TreeUpdate(ns, ms);
    BranchGrown(ns, ms, c);
    assert c != [] ==> BranchAt(ns, c, |c| - 1);
    forall i | 0 <= i < |ms| && ms[i].nChainTx != 0 && NotFailedDown(ms, i) && !WorseThanTip(ms, c, i) && i != q
        ensures i in candidates {
      NotFailedSame(ns, ms, i);
    }
  }

  /** The candidates gained are the newly linked entries that are no worse than the tip. */
  ghost predicate Joined(was: seq<Node>, ns: seq<Node>, c: Slots, known: set<nat>, now: set<nat>)
    requires |was| == |ns|
  {
    forall k: nat :: k in now <==>
        k in known || (k < |ns| && was[k].nChainTx == 0 && ns[k].nChainTx != 0 && !WorseThanTip(ns, c, k))
  }

  lemma JoinedNext(was: seq<Node>, ns: seq<Node>, c: Slots, known: set<nat>, now: set<nat>, q: nat, next: nat)
    requires |was| == |ns| && Joined(was, ns, c, known, now) && ActiveClean(ns, c) && q < |ns| && ns[q].nChainTx == 0
    requires Linkable(ns, q) && ns[q].nTx > 0 && was[q].nChainTx == 0
    ensures var ms := Link(ns, q, next); Joined(was, ms, c, known, if WorseThanTip(ms, c, q) then now else now + {q})
  {
    assert c != [] ==> BranchAt(ns, c, |c| - 1);
  }

  /** Entries linked since the sequence stood at `first` have later numbers than that, and than their parents. */
  ghost predicate Numbered(was: seq<Node>, ns: seq<Node>, first: nat) {
    && |ns| == |was|
    && forall k | 0 <= k < |ns| && was[k].nChainTx == 0 && ns[k].nChainTx != 0 ::
         && first <= ns[k].sequenceId
         && (ns[k].prev.Some? ==>
             ns[k].prev.value < k && ns[ns[k].prev.value].nChainTx != 0
             && ns[ns[k].prev.value].sequenceId < ns[k].sequenceId)
  }

  lemma NumberedNext(was: seq<Node>, ns: seq<Node>, first: nat, q: nat, next: nat)
    requires Numbered(was, ns, first) && first <= next && WellFormed(ns) && Entries(ns, next)
    requires q < |ns| && ns[q].nChainTx == 0 && Linkable(ns, q)
    ensures Numbered(was, Link(ns, q, next), first)
  {
    assert NodeOk(ns, q);
    assert ns[q].prev.Some? ==> EntryOk(ns[ns[q].prev.value], next);
  }

  lemma LinkedNext(base: seq<Node>, ns: seq<Node>, q: nat, next: nat)
    requires Linked(base, ns) && WellFormed(ns) && q < |ns| && ns[q].nChainTx == 0
    ensures Linked(base, Link(ns, q, next)) && base[q].nChainTx == 0
  {
  }

  ghost function Pending(ns: seq<Node>): set<nat> {
    set k | 0 <= k < |ns| && ns[k].nChainTx == 0
  }

  lemma PendingShrinks(ns: seq<Node>, q: nat, next: nat)
    requires WellFormed(ns) && q < |ns| && ns[q].nChainTx == 0 && ns[q].nTx > 0
    ensures |Pending(Link(ns, q, next))| < |Pending(ns)|
  {
    assert Pending(Link(ns, q, next)) == Pending(ns) - {q};
  }

  lemma LinkedGrown(was: seq<Node>, i: nat, nTx: nat, ns: seq<Node>)
    requires i < |was| && Linked(Receive(was, i, nTx), ns)
    ensures Grown(was, ns) && |was| == |ns|
  {
  }

  lemma NewDataChecks(was: seq<Node>, ns: seq<Node>, i: nat, nTx: nat, c: Slots, genesis: Hash)
    requires i < |was| && WellFormed(was) && Linked(Receive(was, i, nTx), ns) && was[i].nTx == 0 && nTx > 0
    ensures Checks(was, c, genesis) && !was[i].Failed() ==> Checks(ns, c, genesis)
  {
    hide Checks;
    LinkedGrown(was, i, nTx, ns);
    if !was[i].Failed() {
      ReceivedChecks(was, ns, i, nTx, c, genesis);
    }
  }

  lemma NoDataUnlinked(ns: seq<Node>, u: Unlinked, next: nat, i: nat)
    requires LinkingBut(ns, u, next, []) && i < |ns| && !ns[i].haveData
    ensures ns[i].nChainTx == 0
  {
    assert CountOk(ns, i);
  }

  lemma CandidatesReceived(ns: seq<Node>, c: Slots, candidates: set<nat>, i: nat, nTx: nat)
    requires ActiveClean(ns, c) && Candidates(ns, c, candidates) && i < |ns| && ns[i].nChainTx == 0
    ensures ActiveClean(Receive(ns, i, nTx), c) && Candidates(Receive(ns, i, nTx), c, candidates)
  {
    var ms := Receive(ns, i, nTx);
    TreeUpdate(ns, ms);
    BranchGrown(ns, ms, c);
    assert c != [] ==> BranchAt(ns, c, |c| - 1);
    forall k | 0 <= k < |ms| && ms[k].nChainTx != 0 && NotFailedDown(ms, k) && !WorseThanTip(ms, c, k)
        ensures k in candidates {
      NotFailedSame(ns, ms, k);
    }
  }

  /** Candidates after some entries that are not usable were marked, and some of those dropped. */
  lemma ActiveMarked(ns: seq<Node>, ms: seq<Node>, c: Slots)
    requires ActiveClean(ns, c) && Marked(ns, ms, c)
    ensures ActiveClean(ms, c)
  {
    MarkedTree(ns, ms, c);
    BranchGrown(ns, ms, c);
    forall h | 0 <= h < |c| ensures BranchAt(ms, c, h) && ms[c[h].value].nChainTx != 0 && !ms[c[h].value].Failed() {
      assert BranchAt(ns, c, h);
      assert Usable(ns, c, c[h].value);
    }
  }

  lemma CandidatesMarked(ns: seq<Node>, ms: seq<Node>, c: Slots, before: set<nat>, after: set<nat>)
    requires ActiveClean(ns, c) && Counts(ns) && Candidates(ns, c, before) && Marked(ns, ms, c) && after <= before
    requires forall i | i in before - after :: i < |ns| && !Usable(ns, c, i)
    requires forall i | 0 <= i < |ns| && ns[i].nChainTx != 0 :: DataDown(ns, i)
    ensures Candidates(ms, c, after)
  {
    MarkedTree(ns, ms, c);
    assert c != [] ==> BranchAt(ns, c, |c| - 1) && Usable(ns, c, c[|c| - 1].value);
    forall i | 0 <= i < |ms| && ms[i].nChainTx != 0 && NotFailedDown(ms, i) && !WorseThanTip(ms, c, i)
        ensures i in after {
      NotFailedSame(ns, ms, i);
      UsableExact(ns, c, i);
    }
  }

  /** The active chain after a block elsewhere was found invalid. */
  lemma ActiveFailed(ns: seq<Node>, c: Slots, i: nat)
    requires ActiveClean(ns, c) && i < |ns| && !Contains(ns, c, i)
    ensures ActiveClean(ns[i := ns[i].(failedValid := true)], c)
  {
    var ms := ns[i := ns[i].(failedValid := true)];
    TreeUpdate(ns, ms);
    BranchGrown(ns, ms, c);
  }

  /** Candidates after a block was found invalid. */
  lemma CandidatesFailed(ns: seq<Node>, c: Slots, candidates: set<nat>, i: nat)
    requires ActiveClean(ns, c) && Candidates(ns, c, candidates) && i < |ns| && !Contains(ns, c, i)
    ensures Candidates(ns[i := ns[i].(failedValid := true)], c, candidates - {i})
  {
    var ms := ns[i := ns[i].(failedValid := true)];
    TreeUpdate(ns, ms);
    assert c != [] ==> BranchAt(ns, c, |c| - 1);
    forall k | 0 <= k < |ms| && ms[k].nChainTx != 0 && NotFailedDown(ms, k) && !WorseThanTip(ms, c, k)
        ensures k in candidates - {i} {
      assert NodeOk(ms, k);
      NotFailedSame(ns, ms, k);
    }
  }

  class BlockIndex {
    var nodes: seq<Node>
    var index: map<Hash, nat>
    var unlinked: Unlinked
    var candidates: set<nat>
    var bestHeader: Option<nat>
    var bestInvalid: Option<nat>
    var nextSequence: nat
    const chain: Chain
    const genesis: Hash
    // the parent that the header with a given hash names
    const parentOf: Hash -> Hash

    /** Everything but the set of candidates. */
    ghost predicate Core()
      reads this, chain
    {
      && Shape(nodes, chain.slots, index, parentOf, bestHeader)
      && Linking(nodes, unlinked, nextSequence)
      && ActiveClean(nodes, chain.slots)
      && (bestInvalid.Some? ==> bestInvalid.value < |nodes|)
    }

    /** The tree, the skip list, the chain, linking and candidates, whoever calls the methods below. */
    ghost predicate Valid()
      reads this, chain
    {
      Core() && Candidates(nodes, chain.slots, candidates)
    }

    /** And what the node's own consistency check asserts beyond that, which rests on how blocks are accepted. */
    ghost predicate Checked()
      reads this, chain
    {
      Checks(nodes, chain.slots, genesis)
    }

    constructor (genesis: Hash, parentOf: Hash -> Hash)
      ensures Valid() && Checked() && nodes == [] && chain.slots == [] && fresh(chain)
      ensures this.genesis == genesis && this.parentOf == parentOf
    {
      hide Shape, Linking, ActiveClean, Candidates, Checks;
      nodes, index, unlinked, candidates, bestHeader, bestInvalid, nextSequence := [], map[], map[], {}, None, None, 1;
      chain := new Chain();
      this.genesis := genesis;
      this.parentOf := parentOf;
      new;
      EmptyValid(parentOf, genesis);
    }

    /** A new entry below the parent named, if that is known. */
    method AddToBlockIndex(hash: Hash, proof: nat) returns (i: nat)
      requires Valid() && hash != NULL_HASH && parentOf(hash) != hash
      modifies this
      ensures Valid() && i < |nodes| && hash in index && index[hash] == i
      ensures hash in old(index) ==> unchanged(this)
      ensures hash !in old(index) ==>
          i == |old(nodes)| && index == old(index)[hash := i] && nodes == old(nodes) + [nodes[i]] && !nodes[i].haveData
          && !nodes[i].Failed()
      ensures hash !in old(index) && parentOf(hash) in old(index) ==>
          nodes[i].prev == Some(old(index)[parentOf(hash)])
          && nodes[i].work == nodes[old(index)[parentOf(hash)]].work + proof
      ensures hash !in old(index) && parentOf(hash) !in old(index) ==> nodes[i].prev == None && nodes[i].work == proof
      ensures unlinked == old(unlinked) && candidates == old(candidates) && bestInvalid == old(bestInvalid)
          && nextSequence == old(nextSequence)
      ensures old(Checked()) && proof > 0 && (hash == genesis <==> parentOf(hash) !in old(index)) ==> Checked()
      ensures bestHeader == if hash in old(index) || (old(bestHeader).Some?
          && nodes[i].work <= nodes[old(bestHeader).value].work) then old(bestHeader) else Some(i)
    {
      hide Linking, Candidates, ActiveClean, Grown, WellFormed, Works, IsBranch, DistinctAddresses, Walk, GetSkipHeight,
          Checks;
      BestHeaderOk(nodes, bestHeader);
      if hash in index {
        return index[hash];
      }
      var address := Allocate(nodes);
      var n := Node(hash, None, None, 0, 0, address, 0, 0, 0, 0, false, false, false);
      if parentOf(hash) in index {
        var p := index[parentOf(hash)];
        var skip := BuildSkip(nodes, p);
        n := n.(prev := Some(p), height := nodes[p].height + 1, skip := skip);
      }
      n := n.(work := (if n.prev.Some? then nodes[n.prev.value].work else 0) + proof).RaiseValidity(VALID_TREE);
      AppendKeeps(nodes, n);
      AppendedKeeps(nodes, unlinked, nextSequence, n, chain.slots, candidates);
      ShapeAppended(nodes, n, chain.slots, index, parentOf, bestHeader);
      AddedChecks(nodes, n, chain.slots, genesis, proof);
      i := |nodes|;
      if bestHeader.None? || nodes[bestHeader.value].work < n.work {
        bestHeader := Some(i);
      }
      nodes := nodes + [n];
      index := index[hash := i];
    }

    /** Record that a block's data has arrived, and link it and every waiting descendant that this makes linkable. */
    method ReceivedBlockTransactions(i: nat, nTx: nat)
      requires Valid() && i < |nodes| && !nodes[i].haveData && nTx > 0
      requires nodes[i].prev.Some? ==> nodes[i].prev.value < |nodes| && !nodes[nodes[i].prev.value].Failed()
      modifies this`nodes, this`unlinked, this`candidates, this`nextSequence
      ensures Valid()
      ensures Linked(Receive(old(nodes), i, nTx), nodes)
      ensures |nodes| == |old(nodes)| && Joined(old(nodes), nodes, chain.slots, old(candidates), candidates)
      ensures Numbered(old(nodes), nodes, old(nextSequence))
      ensures old(Checked()) && !old(nodes)[i].Failed() ==> Checked()
    {
      hide Checks, Shape, WaitsBut, Entries, CountsBut, QueueOk, Candidates, ActiveClean, Linking, WellFormed, Linkable,
          Joined, Linked, Numbered, WorseThanTip;
      ghost var was, known, first := nodes, candidates, nextSequence;
      ToLocal(nodes, unlinked, nextSequence);
      Unfolded(nodes, unlinked, nextSequence, [], i);
      NoDataUnlinked(nodes, unlinked, nextSequence, i);
      ghost var base := Receive(nodes, i, nTx);
      ReceiveStarts(nodes, chain.slots, candidates, i, nTx);
      nodes := nodes[i := nodes[i].(nTx := nTx, nChainTx := 0, haveData := true).RaiseValidity(VALID_TRANSACTIONS)];
      var prev := nodes[i].prev;
      if prev.None? || nodes[prev.value].nChainTx != 0 {
        ReceiveLinks(was, unlinked, nextSequence, i, nTx);
        LinkQueued(was, base, known, first, i);
      } else {
        assert nodes[prev.value].IsValid(VALID_TREE);
        ReceiveWaits(was, unlinked, nextSequence, i, nTx);
        if nodes[prev.value].IsValid(VALID_TREE) {
          unlinked := unlinked[prev.value := Waiting(unlinked, prev.value) + [i]];
        }
      }
      ToGlobal(nodes, unlinked, nextSequence);
      LinkedGrown(was, i, nTx, nodes);
      ShapeKept(was, nodes, chain.slots, index, parentOf, bestHeader);
      NewDataChecks(was, nodes, i, nTx, chain.slots, genesis);
    }

    /** The queue: link its first entry, then queue the children that waited for it. */
    method LinkQueued(ghost was: seq<Node>, ghost base: seq<Node>, ghost known: set<nat>, ghost first: nat, i: nat)
      requires LinkingBut(nodes, unlinked, nextSequence, [i]) && ActiveClean(nodes, chain.slots)
          && Candidates(nodes, chain.slots, candidates)
      requires |was| == |nodes| == |base| && (forall k | 0 <= k < |was| :: was[k].nChainTx == base[k].nChainTx)
      requires Linked(base, nodes) && Joined(was, nodes, chain.slots, known, candidates)
      requires Numbered(was, nodes, first) && first <= nextSequence
      modifies this`nodes, this`unlinked, this`candidates, this`nextSequence
      ensures LinkingBut(nodes, unlinked, nextSequence, []) && ActiveClean(nodes, chain.slots)
          && Candidates(nodes, chain.slots, candidates)
      ensures Linked(base, nodes) && |was| == |nodes| && Joined(was, nodes, chain.slots, known, candidates)
          && Numbered(was, nodes, first)
    {
      hide WaitsBut, Entries, CountsBut, QueueOk, LinkingBut, Candidates, ActiveClean, WellFormed, Linkable, Joined,
          Linked, Numbered, WorseThanTip, Pending;
      var queue := [i];
      while queue != []
        invariant LinkingBut(nodes, unlinked, nextSequence, queue)
        invariant ActiveClean(nodes, chain.slots) && Candidates(nodes, chain.slots, candidates)
        invariant Linked(base, nodes) && |was| == |nodes| && Joined(was, nodes, chain.slots, known, candidates)
        invariant Numbered(was, nodes, first) && first <= nextSequence
        decreases |Pending(nodes)|
      {
        LinkKeeps(nodes, unlinked, nextSequence, queue);
        var q := queue[0];
        Unfolded(nodes, unlinked, nextSequence, queue, q);
        LinkedNext(base, nodes, q, nextSequence);
        NumberedNext(was, nodes, first, q, nextSequence);
        PendingShrinks(nodes, q, nextSequence);
        JoinedNext(was, nodes, chain.slots, known, candidates, q, nextSequence);
        ghost var ms := Link(nodes, q, nextSequence);
        CandidatesLinked(nodes, ms, chain.slots, candidates, q, nextSequence);
        queue := queue[1..];
        var below := if nodes[q].prev.Some? then nodes[nodes[q].prev.value].nChainTx else 0;
        nodes := nodes[q := nodes[q].(nChainTx := below + nodes[q].nTx)];
        nodes := nodes[q := nodes[q].(sequenceId := nextSequence)];
        assert nodes == ms;
        nextSequence := nextSequence + 1;
        if !WorseThanTip(nodes, chain.slots, q) {
          candidates := candidates + {q};
        }
        queue := queue + Waiting(unlinked, q);
        unlinked := unlinked - {q};
      }
    }

    /** Walk back from a candidate to the active chain; report the first block that has failed or lacks data. */
    method Inspect(top: nat) returns (t: Option<nat>)
      requires Searchable(nodes, chain.slots, candidates) && top < |nodes| && nodes[top].nChainTx != 0
      ensures t.None? ==> Usable(nodes, chain.slots, top)
      ensures t.Some? ==>
          t.value < |nodes| && OpenPath(nodes, chain.slots, top, t.value) && !Contains(nodes, chain.slots, t.value)
          && !Fine(nodes[t.value])
    {
      t := Some(top);
      while t.Some? && !Contains(nodes, chain.slots, t.value)
        invariant t.Some? ==>
            t.value < |nodes| && OpenPath(nodes, chain.slots, top, t.value) && nodes[t.value].nChainTx != 0
        invariant t.None? ==> Usable(nodes, chain.slots, top)
        decreases if t.Some? then t.value + 1 else 0
      {
        assert nodes[t.value].nChainTx != 0;
        if !Fine(nodes[t.value]) {
          return;
        }
        assert NodeOk(nodes, t.value);
        OpenPathUsable(nodes, chain.slots, top, t.value);
        if nodes[t.value].prev.Some? {
          OpenPathExtend(nodes, chain.slots, top, t.value);
        }
        t := nodes[t.value].prev;
      }
      if t.Some? {
        OpenPathUsable(nodes, chain.slots, top, t.value);
        t := None;
      }
    }

    /**
     Remove a candidate and the path down to the block `t` that spoils it: mark the path as failed, or let it wait for
     the missing data.
     */
    method Discard(top: nat, t: nat, failedChain: bool)
      requires WellFormed(nodes) && top < |nodes| && t < |nodes| && OpenPath(nodes, chain.slots, top, t)
      requires !Usable(nodes, chain.slots, t) && nodes[top].nChainTx != 0 && ParentsLinked(nodes)
      modifies this`nodes, this`unlinked, this`candidates
      ensures Marked(old(nodes), nodes, chain.slots) && Dropped(old(nodes), chain.slots, old(candidates), candidates)
      ensures top !in candidates && t !in candidates && Handled(old(nodes), chain.slots, top, t, failedChain, nodes,
          unlinked, candidates)
      ensures Requeued(old(nodes), chain.slots, old(unlinked), unlinked)
      ensures if failedChain then unlinked == old(unlinked) else nodes == old(nodes)
      ensures OnlyPath(old(nodes), chain.slots, top, t, nodes, old(candidates), candidates + {t})
    {
      hide Usable, OpenPath, WellFormed, IsBranch, Requeued, Dropped, Handled, OnlyPath;
      ghost var was := nodes;
      DiscardStarts(nodes, chain.slots, candidates, unlinked, top, t, failedChain);
      var failed := top;
      while failed != t
        invariant t <= failed <= top && OpenPath(was, chain.slots, failed, t) && OpenPath(was, chain.slots, top, failed)
            && was[failed].nChainTx != 0
        invariant Marked(was, nodes, chain.slots) && Dropped(was, chain.slots, old(candidates), candidates)
        invariant failed != top ==> top !in candidates
        invariant Handled(was, chain.slots, top, failed, failedChain, nodes, unlinked, candidates)
        invariant Requeued(was, chain.slots, old(unlinked), unlinked)
        invariant if failedChain then unlinked == old(unlinked) else nodes == was
        invariant OnlyPath(was, chain.slots, top, failed, nodes, old(candidates), candidates)
        decreases failed
      {
        DiscardStep(was, chain.slots, top, failed, t, failedChain, nodes, unlinked, candidates);
        DroppedNext(was, chain.slots, old(candidates), candidates, failed);
        OnlyPathNext(was, chain.slots, top, failed, nodes, old(candidates), candidates);
        if failedChain {
          nodes := nodes[failed := nodes[failed].(failedChild := true)];
        } else {
          var p := nodes[failed].prev.value;
          RequeuedNext(was, chain.slots, old(unlinked), unlinked, p, failed);
          unlinked := unlinked[p := Waiting(unlinked, p) + [failed]];
        }
        candidates := candidates - {failed};
        failed := nodes[failed].prev.value;
      }
      DroppedNext(was, chain.slots, old(candidates), candidates, t);
      HandledFewer(was, chain.slots, top, t, failedChain, nodes, unlinked, candidates);
      OnlyPathEnds(was, chain.slots, top, t, nodes, old(candidates), candidates);
      candidates := candidates - {t};
    }

    /** The greatest candidate in the work order. */
    method BestCandidate() returns (top: nat)
      requires candidates != {} && DistinctAddresses(nodes) && forall i | i in candidates :: i < |nodes|
      ensures top in candidates && IsGreatest(nodes, candidates, top)
    {
      ghost var m := GreatestExists(nodes, candidates);
      top :| top in candidates && forall c | c in candidates :: c == top || Worse(nodes[c], nodes[top]);
    }

    /** Give up a candidate because of the block `t` below it; if that has failed, the candidate may be the best so. */
    method GiveUp(top: nat, t: nat)
      requires WellFormed(nodes) && top < |nodes| && t < |nodes| && OpenPath(nodes, chain.slots, top, t)
      requires !Usable(nodes, chain.slots, t) && nodes[top].nChainTx != 0 && ParentsLinked(nodes)
      requires bestInvalid.Some? ==> bestInvalid.value < |nodes|
      modifies this`nodes, this`unlinked, this`candidates, this`bestInvalid
      ensures Marked(old(nodes), nodes, chain.slots) && Dropped(old(nodes), chain.slots, old(candidates), candidates)
      ensures Requeued(old(nodes), chain.slots, old(unlinked), unlinked)
      ensures top !in candidates && t !in candidates && t <= top
      ensures var failedChain := old(nodes)[t].Failed();
        && Handled(old(nodes), chain.slots, top, t, failedChain, nodes, unlinked, candidates)
        && OnlyPath(old(nodes), chain.slots, top, t, nodes, old(candidates), candidates + {t})
        && (if failedChain then unlinked == old(unlinked) else nodes == old(nodes))
        && bestInvalid == if failedChain && (old(bestInvalid).None?
            || old(nodes)[top].work > old(nodes)[old(bestInvalid).value].work) then Some(top) else old(bestInvalid)
    {
      hide Usable, OpenPath, WellFormed, Requeued, Marked, Dropped, Handled, OnlyPath;
      OpenPathUsable(nodes, chain.slots, top, t);
      var failedChain := nodes[t].Failed();
      if failedChain && (bestInvalid.None? || nodes[top].work > nodes[bestInvalid.value].work) {
        bestInvalid := Some(top);
      }
      Discard(top, t, failedChain);
    }

    /** The greatest candidate in the work order whose branch is usable. */
    method FindMostWorkChain() returns (r: Option<nat>)
      requires Searchable(nodes, chain.slots, candidates) && (bestInvalid.Some? ==> bestInvalid.value < |nodes|)
      modifies this`nodes, this`unlinked, this`candidates, this`bestInvalid
      ensures MostWork(old(nodes), chain.slots, old(candidates), r) && (r.None? ==> candidates == {})
      ensures Marked(old(nodes), nodes, chain.slots) && Dropped(old(nodes), chain.slots, old(candidates), candidates)
      ensures bestInvalid == old(bestInvalid) || (bestInvalid.Some? && bestInvalid.value in old(candidates)
          && bestInvalid.value !in candidates)
      ensures MoreWork(old(nodes), old(bestInvalid), bestInvalid)
      ensures Requeued(old(nodes), chain.slots, old(unlinked), unlinked)
      ensures Linking(old(nodes), old(unlinked), nextSequence) ==>
          && unlinked == old(unlinked)
          && Condemned(old(nodes), chain.slots, nodes, old(candidates), candidates)
          && Remembered(old(nodes), old(candidates), candidates, bestInvalid)
      ensures (old(Core()) ==> Core()) && (old(Valid()) ==> Valid()) && (old(Core()) && old(Checked()) ==> Checked())
    {
      hide Checks, Usable, OpenPath, Linking, WellFormed, IsBranch, DistinctAddresses, Requeued, Marked, Dropped,
          Searchable, MostWork, MoreWork, Handled, Shape, ActiveClean, Candidates, Condemned, Remembered, OnlyPath,
          IsGreatest, Contains, Waiting, Worse;
      ghost var was, known := nodes, candidates;
      SearchStarts(nodes, chain.slots, candidates, unlinked, bestInvalid);
      while true
        invariant Searchable(nodes, chain.slots, candidates) && Marked(was, nodes, chain.slots)
            && Dropped(was, chain.slots, known, candidates)
        invariant bestInvalid == old(bestInvalid) || (bestInvalid.Some? && bestInvalid.value in known
            && bestInvalid.value !in candidates)
        invariant MoreWork(was, old(bestInvalid), bestInvalid)
        invariant Requeued(was, chain.slots, old(unlinked), unlinked)
        invariant Linking(was, old(unlinked), nextSequence) ==>
            && unlinked == old(unlinked) && Condemned(was, chain.slots, nodes, known, candidates)
            && Remembered(was, known, candidates, bestInvalid)
        decreases |candidates|
      {
        SearchFacts(was, nodes, chain.slots, known, candidates);
        if candidates == {} {
          NothingLeft(was, chain.slots, known);
          r := None;
          break;
        }
        var top := BestCandidate();
        var t := Inspect(top);
        if t.None? {
          FoundMostWork(was, nodes, chain.slots, known, candidates, top);
          r := Some(top);
          break;
        }
        Spoils(nodes, chain.slots, top, t.value);
        MissingNever(was, nodes, old(unlinked), nextSequence, chain.slots, top, t.value);
        ghost var mid, left, waited, before := nodes, candidates, unlinked, bestInvalid;
        ghost var failedChain := nodes[t.value].Failed();
        InRange(was, nodes, chain.slots, old(bestInvalid), bestInvalid);
        GiveUp(top, t.value);
        MoreWorkNext(was, mid, chain.slots, old(bestInvalid), before, top);
        SearchGoesOn(was, mid, nodes, chain.slots, known, left, candidates, top, t.value, failedChain,
            old(unlinked), waited, unlinked, before, bestInvalid);
        ProperSubsetSize(candidates, left, top);
      }
      SearchKeeps(was, nodes, old(unlinked), nextSequence, chain.slots, known, candidates, index, parentOf, bestHeader);
      MarksKeep(was, nodes, old(unlinked), nextSequence, chain.slots, genesis);
      InRange(was, nodes, chain.slots, old(bestInvalid), bestInvalid);
    }

    /** A block turned out to be invalid while it was checked or connected; it is not part of the active chain. */
    method InvalidBlockFound(i: nat)
      requires Core() && i < |nodes| && !Contains(nodes, chain.slots, i)
      modifies this`nodes, this`candidates, this`bestInvalid
      ensures Core() && (old(Valid()) ==> Valid()) && (old(Checked()) ==> Checked())
      ensures nodes == old(nodes)[i := old(nodes)[i].(failedValid := true)] && candidates == old(candidates) - {i}
      ensures MoreWork(nodes, old(bestInvalid), bestInvalid) && bestInvalid.Some?
          && nodes[bestInvalid.value].work >= nodes[i].work
      ensures bestInvalid == if old(bestInvalid).Some? && old(bestInvalid).value < |nodes|
          && nodes[i].work <= nodes[old(bestInvalid).value].work then old(bestInvalid) else Some(i)
    {
      hide Shape, Linking, ActiveClean, Candidates, Checks;
      FailedKeeps(nodes, unlinked, nextSequence, chain.slots, candidates, i, index, parentOf, bestHeader, genesis);
      nodes := nodes[i := nodes[i].(failedValid := true)];
      candidates := candidates - {i};
      InvalidChainFound(i);
    }

    /** Remember the invalid block with the most work. */
    method InvalidChainFound(i: nat)
      requires i < |nodes| && (bestInvalid.Some? ==> bestInvalid.value < |nodes|)
      modifies this`bestInvalid
      ensures MoreWork(nodes, old(bestInvalid), bestInvalid) && bestInvalid.Some?
          && nodes[bestInvalid.value].work >= nodes[i].work
      ensures bestInvalid == if old(bestInvalid).Some? && old(bestInvalid).value < |nodes|
          && nodes[i].work <= nodes[old(bestInvalid).value].work then old(bestInvalid) else Some(i)
    {
      if bestInvalid.None? || nodes[i].work > nodes[bestInvalid.value].work {
        bestInvalid := Some(i);
      }
    }

    /** Delete all candidates that are worse than the tip, from the worst one up. */
    method PruneBlockIndexCandidates()
      requires WellFormed(nodes) && IsBranch(nodes, chain.slots) && DistinctAddresses(nodes)
          && forall i | i in candidates :: i < |nodes|
      modifies this`candidates
      ensures Pruned(nodes, chain.slots, old(candidates), candidates)
    {
      while candidates != {}
        invariant candidates <= old(candidates)
        invariant forall k | k in old(candidates) && k !in candidates :: WorseThanTip(nodes, chain.slots, k)
        decreases |candidates|
      {
        ghost var m := LeastExists(nodes, candidates);
        var worst :| worst in candidates && forall c | c in candidates :: c == worst || Worse(nodes[worst], nodes[c]);
        if !WorseThanTip(nodes, chain.slots, worst) {
          LeastStays(nodes, chain.slots, candidates, worst);
          break;
        }
        candidates := candidates - {worst};
      }
    }

    /** Take the tip off the active chain. */
    method DisconnectTip()
      requires Shape(nodes, chain.slots, index, parentOf, bestHeader) && chain.slots != []
      modifies chain
      ensures Shape(nodes, chain.slots, index, parentOf, bestHeader)
          && chain.slots == old(chain.slots)[..|old(chain.slots)| - 1]
      ensures (old(Core()) ==> Core()) && (old(Checked()) ==> Checked())
    {
      hide Shape, Linking, ActiveClean, Checks;
      ghost var was := chain.slots;
      TipBelow(nodes, was, index, parentOf, bestHeader);
      var tip := chain.slots[|chain.slots| - 1].value;
      chain.SetTip(nodes, nodes[tip].prev);
      ShorterChain(nodes, was, chain.slots, index, parentOf, bestHeader);
      ShorterChecks(nodes, was, genesis, |was| - 1);
    }

    /**
     Connect a block on top of the tip, unless it turns out to be invalid. The first block of all is taken as it is.
     */
    method ConnectTip(i: nat, valid: bool) returns (ok: bool)
      requires Core() && i < |nodes| && nodes[i].nChainTx != 0 && !nodes[i].Failed()
          && nodes[i].prev == TipOf(chain.slots)
      modifies this`nodes, this`candidates, this`bestInvalid, chain
      ensures ok == (valid || old(nodes)[i].prev.None?) && Core() && (old(Checked()) ==> Checked())
      ensures ok ==>
          chain.slots == old(chain.slots) + [Some(i)] && candidates == old(candidates)
          && bestInvalid == old(bestInvalid)
      ensures ok ==> nodes == old(nodes)[i := if old(nodes)[i].prev.None? then old(nodes)[i] else
          old(nodes)[i].RaiseValidity(VALID_SCRIPTS)]
      ensures !ok ==>
          chain.slots == old(chain.slots) && nodes == old(nodes)[i := old(nodes)[i].(failedValid := true)]
          && candidates == old(candidates) - {i} && bestInvalid.Some?
          && bestInvalid == if old(bestInvalid).Some? && old(bestInvalid).value < |nodes|
              && nodes[i].work <= nodes[old(bestInvalid).value].work then old(bestInvalid) else Some(i)
    {
      hide Shape, Linking, ActiveClean, Checks, Shows, IsBranch;
      ghost var was, c := nodes, chain.slots;
      OnTop(nodes, unlinked, nextSequence, c, i, index, parentOf, bestHeader);
      ok := valid || nodes[i].prev.None?;
      if !ok {
        InvalidBlockFound(i);
        return;
      }
      if nodes[i].prev.Some? {
        nodes := nodes[i := nodes[i].RaiseValidity(VALID_SCRIPTS)];
      }
      ConnectedKeeps(was, nodes, unlinked, nextSequence, c, i, index, parentOf, bestHeader, genesis);
      chain.SetTip(nodes, Some(i));
      OneLonger(was, nodes, c, chain.slots, i);
    }
  }

  lemma TipBelow(ns: seq<Node>, c: Slots, index: map<Hash, nat>, parentOf: Hash -> Hash, bestHeader: Option<nat>)
    requires Shape(ns, c, index, parentOf, bestHeader) && c != []
    ensures IsBranch(ns, c) && c[|c| - 1].Some? && c[|c| - 1].value < |ns|
    ensures var t := c[|c| - 1].value; NodeOk(ns, t) && ns[t].prev == TipOf(c[..|c| - 1]) && ns[t].height == |c| - 1
    ensures ns[c[|c| - 1].value].prev.Some? ==> ns[c[|c| - 1].value].prev.value < |ns|
  {
    assert BranchAt(ns, c, |c| - 1);
    assert NodeOk(ns, c[|c| - 1].value);
  }

  /** Naming the tip's parent as tip takes off the last slot. */
  lemma ShorterChain(ns: seq<Node>, c: Slots, d: Slots, index: map<Hash, nat>, parentOf: Hash -> Hash,
      bestHeader: Option<nat>)
    requires Shape(ns, c, index, parentOf, bestHeader) && c != [] && IsBranch(ns, d)
    requires c[|c| - 1].Some? && c[|c| - 1].value < |ns|
    requires var p := ns[c[|c| - 1].value].prev; if p.None? then d == [] else p.value < |ns| && Shows(ns, d, p.value)
    ensures d == c[..|c| - 1] && Shape(ns, d, index, parentOf, bestHeader)
        && (ActiveClean(ns, c) ==> ActiveClean(ns, d))
  {
    hide Indexed, Works, Skips, DistinctAddresses;
    var n := |c| - 1;
    assert BranchAt(ns, c, n);
    assert NodeOk(ns, c[n].value);
    if n > 0 {
      assert BranchAt(ns, c, n - 1);
      forall h | 0 <= h < n ensures d[h] == c[h] {
        BranchWalk(ns, c, n - 1, h);
      }
    }
    forall h | 0 <= h < |d| ensures BranchAt(ns, d, h)
        && (ActiveClean(ns, c) ==> ns[d[h].value].nChainTx != 0 && !ns[d[h].value].Failed()) {
      assert BranchAt(ns, c, h);
    }
  }

  /** A block on top of the tip is not in the chain. */
  lemma OnTop(ns: seq<Node>, u: Unlinked, next: nat, c: Slots, i: nat, index: map<Hash, nat>, parentOf: Hash -> Hash,
      bestHeader: Option<nat>)
    requires Shape(ns, c, index, parentOf, bestHeader) && i < |ns| && ns[i].prev == TipOf(c)
    ensures IsBranch(ns, c) && ns[i].height == |c| && !Contains(ns, c, i)
  {
    assert NodeOk(ns, i);
    if c != [] {
      assert BranchAt(ns, c, |c| - 1);
    }
  }

  lemma ConnectedKeeps(ns: seq<Node>, ms: seq<Node>, u: Unlinked, next: nat, c: Slots, i: nat, index: map<Hash, nat>,
      parentOf: Hash -> Hash, bestHeader: Option<nat>, genesis: Hash)
    requires Shape(ns, c, index, parentOf, bestHeader) && Linking(ns, u, next) && ActiveClean(ns, c)
    requires i < |ns| && ns[i].nChainTx != 0 && !ns[i].Failed() && ns[i].prev == TipOf(c)
    requires ms == ns[i := if ns[i].prev.None? then ns[i] else ns[i].RaiseValidity(VALID_SCRIPTS)]
    ensures var d := c + [Some(i)];
      && Shape(ms, d, index, parentOf, bestHeader) && Linking(ms, u, next) && ActiveClean(ms, d)
      && (Checks(ns, c, genesis) ==> Checks(ms, d, genesis)) && IsBranch(ms, c) && IsBranch(ms, d)
  {
    hide Linking, LinkingBut, Checks, Indexed, Works, Skips, DistinctAddresses;
    var d := c + [Some(i)];
    ShapeKept(ns, ms, c, index, parentOf, bestHeader);
    ToLocal(ns, u, next);
    FlagsLinking(ns, ms, u, next);
    ToGlobal(ms, u, next);
    OnTop(ns, u, next, c, i, index, parentOf, bestHeader);
    forall h | 0 <= h < |d| ensures BranchAt(ms, d, h) && ms[d[h].value].nChainTx != 0 && !ms[d[h].value].Failed() {
      if h < |c| {
        assert BranchAt(ns, c, h);
      }
    }
    LinkedTx(ns, u, next, i);
    ScriptedChecks(ns, c, genesis, i, d);
  }

  lemma LinkedTx(ns: seq<Node>, u: Unlinked, next: nat, i: nat)
    requires Linking(ns, u, next) && i < |ns| && ns[i].nChainTx != 0
    ensures ns[i].nTx > 0
  {
    assert DataDown(ns, i) && EntryOk(ns[i], next);
  }

  lemma OneLonger(ns: seq<Node>, ms: seq<Node>, c: Slots, d: Slots, i: nat)
    requires i < |ms| && IsBranch(ms, c + [Some(i)]) && Shows(ms, d, i)
    ensures d == c + [Some(i)]
  {
    var e := c + [Some(i)];
    BranchShows(ms, e);
    assert BranchAt(ms, e, |c|);
  }

  /** The best invalid block is replaced only by one with more work. */
  ghost predicate MoreWork(ns: seq<Node>, before: Option<nat>, after: Option<nat>) {
    && (after.Some? ==> after.value < |ns|)
    && (before.Some? && after != before ==>
        after.Some? && before.value < |ns| && ns[after.value].work > ns[before.value].work)
  }

  /** What the search returns: a usable candidate that every other usable candidate is worse than, if there is any. */
  ghost predicate MostWork(ns: seq<Node>, c: Slots, candidates: set<nat>, r: Option<nat>) {
    && WellFormed(ns) && (forall i | i in candidates :: i < |ns|)
    && (r.None? ==> forall i | i in candidates :: !Usable(ns, c, i))
    && (r.Some? ==> r.value in candidates && Usable(ns, c, r.value))
    && (r.Some? ==> forall i | i in candidates && Usable(ns, c, i) :: i == r.value || Worse(ns[i], ns[r.value]))
  }

  lemma MoreWorkNext(was: seq<Node>, ns: seq<Node>, c: Slots, before: Option<nat>, now: Option<nat>, top: nat)
    requires Marked(was, ns, c) && MoreWork(was, before, now) && top < |ns|
    ensures now.Some? ==> now.value < |ns|
    ensures now.None? || ns[top].work > ns[now.value].work ==> MoreWork(was, before, Some(top))
  {
    hide Usable;
  }

  lemma InRange(was: seq<Node>, ns: seq<Node>, c: Slots, before: Option<nat>, now: Option<nat>)
    requires Marked(was, ns, c) && MoreWork(was, before, now)
    ensures now.Some? ==> now.value < |ns|
  {
    hide Usable;
  }

  lemma SearchStarts(ns: seq<Node>, c: Slots, candidates: set<nat>, u: Unlinked, bestInvalid: Option<nat>)
    requires Searchable(ns, c, candidates) && (bestInvalid.Some? ==> bestInvalid.value < |ns|)
    ensures Marked(ns, ns, c) && Dropped(ns, c, candidates, candidates) && Requeued(ns, c, u, u)
        && MoreWork(ns, bestInvalid, bestInvalid)
    ensures Condemned(ns, c, ns, candidates, candidates) && Remembered(ns, candidates, candidates, bestInvalid)
  {
    hide Usable;
  }

  lemma SearchFacts(was: seq<Node>, ns: seq<Node>, c: Slots, known: set<nat>, now: set<nat>)
    requires Searchable(ns, c, now) && Marked(was, ns, c) && Dropped(was, c, known, now)
    ensures WellFormed(was) && WellFormed(ns) && IsBranch(ns, c) && DistinctAddresses(ns) && |ns| == |was|
        && now <= known && ParentsLinked(ns)
    ensures (forall i | i in now :: i < |ns| && ns[i].nChainTx != 0) && (forall i | i in known :: i < |ns|)
  {
    hide Usable;
  }

  lemma NothingLeft(ns: seq<Node>, c: Slots, known: set<nat>)
    requires Dropped(ns, c, known, {})
    ensures MostWork(ns, c, known, None)
  {
    hide Usable;
  }

  lemma FoundMostWork(was: seq<Node>, ns: seq<Node>, c: Slots, known: set<nat>, now: set<nat>, top: nat)
    requires Searchable(ns, c, now) && Marked(was, ns, c) && Dropped(was, c, known, now)
    requires IsGreatest(ns, now, top) && Usable(ns, c, top)
    ensures MostWork(was, c, known, Some(top))
  {
    hide Usable;
    MarkedUsable(was, ns, c, top);
    forall i | i in known ensures i < |was| {
    }
    forall i | i in known && Usable(was, c, i) ensures i == top || Worse(was[i], was[top]) {
      assert i in now;
    }
  }

  /** Only candidates that are not usable have been dropped. */
  ghost predicate Dropped(ns: seq<Node>, c: Slots, before: set<nat>, after: set<nat>) {
    WellFormed(ns) && after <= before && forall i | i in before && i !in after :: i < |ns| && !Usable(ns, c, i)
  }

  lemma DroppedTwice(ns: seq<Node>, ms: seq<Node>, ls: seq<Node>, c: Slots, first: set<nat>, second: set<nat>,
      third: set<nat>)
    requires Marked(ns, ms, c) && Marked(ms, ls, c) && Dropped(ns, c, first, second) && Dropped(ms, c, second, third)
    ensures Marked(ns, ls, c) && Dropped(ns, c, first, third) && third <= second
  {
    MarkedTwice(ns, ms, ls, c);
    forall i | i in first && i !in third ensures i < |ns| && !Usable(ns, c, i) {
      if i in second {
        MarkedUsable(ns, ms, c, i);
      }
    }
  }

  lemma SearchableMarked(ns: seq<Node>, ms: seq<Node>, c: Slots, before: set<nat>, after: set<nat>)
    requires Searchable(ns, c, before) && Marked(ns, ms, c) && after <= before
    ensures Searchable(ms, c, after)
  {
    hide Usable;
    MarkedTree(ns, ms, c);
    BranchGrown(ns, ms, c);
    forall i | 0 <= i < |ms| && ms[i].nChainTx != 0 && ms[i].prev.Some?
        ensures NodeOk(ms, i) && ms[ms[i].prev.value].nChainTx != 0 {
      assert NodeOk(ns, i) && NodeOk(ms, i);
    }
  }

  /** Entries that wait again, behind those that waited before, are not usable. */
  ghost predicate Requeued(ns: seq<Node>, c: Slots, u: Unlinked, v: Unlinked) {
    WellFormed(ns) && forall p: nat ::
        Waiting(u, p) <= Waiting(v, p) && forall k | |Waiting(u, p)| <= k < |Waiting(v, p)| ::
      Waiting(v, p)[k] < |ns| && ns[Waiting(v, p)[k]].prev == Some(p) && !Usable(ns, c, Waiting(v, p)[k])
  }

  lemma RequeuedNext(ns: seq<Node>, c: Slots, u: Unlinked, v: Unlinked, q: nat, i: nat)
    requires Requeued(ns, c, u, v) && i < |ns| && ns[i].prev == Some(q) && !Usable(ns, c, i)
    ensures Requeued(ns, c, u, v[q := Waiting(v, q) + [i]])
  {
    hide Usable;
  }

  lemma RequeuedTwice(ns: seq<Node>, ms: seq<Node>, c: Slots, u: Unlinked, v: Unlinked, w: Unlinked)
    requires Marked(ns, ms, c) && Requeued(ns, c, u, v) && Requeued(ms, c, v, w)
    ensures Requeued(ns, c, u, w)
  {
    hide Usable;
    forall p: nat
      ensures Waiting(u, p) <= Waiting(w, p) && forall k | |Waiting(u, p)| <= k < |Waiting(w, p)| ::
        Waiting(w, p)[k] < |ns| && ns[Waiting(w, p)[k]].prev == Some(p) && !Usable(ns, c, Waiting(w, p)[k])
    {
      assert Waiting(u, p) <= Waiting(v, p) && Waiting(v, p) <= Waiting(w, p);
      forall k | |Waiting(u, p)| <= k < |Waiting(w, p)|
        ensures Waiting(w, p)[k] < |ns| && ns[Waiting(w, p)[k]].prev == Some(p) && !Usable(ns, c, Waiting(w, p)[k])
      {
        if k < |Waiting(v, p)| {
          assert Waiting(w, p)[k] == Waiting(v, p)[k];
        } else {
          MarkedUsable(ns, ms, c, Waiting(w, p)[k]);
        }
      }
    }
  }

  /** Every entry above `t` on the path from `top` is no candidate any more, and is marked or waits. */
  ghost predicate Handled(was: seq<Node>, c: Slots, top: nat, t: nat, failedChain: bool, ns: seq<Node>, u: Unlinked,
      candidates: set<nat>)
    requires top < |was|
  {
    && WellFormed(was) && |ns| == |was|
    && forall x: nat | t < x <= top && OpenPath(was, c, top, x) ::
         && x !in candidates && was[x].prev.Some?
         && (if failedChain then ns[x].failedChild else x in Waiting(u, was[x].prev.value))
  }

  lemma DiscardStarts(ns: seq<Node>, c: Slots, candidates: set<nat>, u: Unlinked, top: nat, t: nat, failedChain: bool)
    requires WellFormed(ns) && top < |ns| && OpenPath(ns, c, top, t)
    ensures Marked(ns, ns, c) && Dropped(ns, c, candidates, candidates) && Requeued(ns, c, u, u)
    ensures Handled(ns, c, top, top, failedChain, ns, u, candidates) && t <= top && OpenPath(ns, c, top, top)
    ensures OnlyPath(ns, c, top, top, ns, candidates, candidates)
  {
    hide Usable;
    OpenPathUsable(ns, c, top, t);
  }

  lemma DiscardStep(was: seq<Node>, c: Slots, top: nat, x: nat, t: nat, failedChain: bool, ns: seq<Node>, u: Unlinked,
      candidates: set<nat>)
    requires WellFormed(was) && top < |was| && t < x <= top && OpenPath(was, c, x, t) && OpenPath(was, c, top, x)
        && !Usable(was, c, t)
    requires Handled(was, c, top, x, failedChain, ns, u, candidates)
    ensures was[x].prev.Some? && t <= was[x].prev.value < x && !Usable(was, c, x)
    ensures OpenPath(was, c, was[x].prev.value, t) && OpenPath(was, c, top, was[x].prev.value)
    ensures var p := was[x].prev.value;
      if failedChain then Handled(was, c, top, p, failedChain, ns[x := ns[x].(failedChild := true)], u,
          candidates - {x})
      else Handled(was, c, top, p, failedChain, ns, u[p := Waiting(u, p) + [x]], candidates - {x})
  {
    hide Usable;
    assert NodeOk(was, x);
    OpenPathUsable(was, c, x, t);
    var p := was[x].prev.value;
    OpenPathUsable(was, c, p, t);
    OpenPathExtend(was, c, top, x);
    forall y: nat | p < y <= top && OpenPath(was, c, top, y) ensures y == x || y > x {
      if y < x {
        OpenPathNext(was, c, top, x, y);
      }
    }
  }

  lemma DroppedNext(ns: seq<Node>, c: Slots, before: set<nat>, after: set<nat>, x: nat)
    requires Dropped(ns, c, before, after) && x < |ns| && !Usable(ns, c, x)
    ensures Dropped(ns, c, before, after - {x})
  {
    hide Usable;
  }

  /** Only entries above `t` on the path from `top` have been marked, or are candidates no more. */
  ghost predicate OnlyPath(was: seq<Node>, c: Slots, top: nat, t: nat, ns: seq<Node>, before: set<nat>,
      after: set<nat>)
    requires top < |was|
  {
    && WellFormed(was) && |ns| == |was|
    && (forall y: nat | y < |was| && ns[y] != was[y] :: t < y <= top && OpenPath(was, c, top, y))
    && (forall y: nat | y in before && y !in after :: t < y <= top && OpenPath(was, c, top, y))
  }

  lemma OnlyPathNext(was: seq<Node>, c: Slots, top: nat, x: nat, ns: seq<Node>, before: set<nat>, after: set<nat>)
    requires top < |was| && OnlyPath(was, c, top, x, ns, before, after) && x <= top && OpenPath(was, c, top, x)
    requires was[x].prev.Some? && was[x].prev.value < x
    ensures var p := was[x].prev.value;
      && OnlyPath(was, c, top, p, ns, before, after - {x})
      && OnlyPath(was, c, top, p, ns[x := ns[x].(failedChild := true)], before, after - {x})
  {
    hide OpenPath;
  }

  lemma OnlyPathEnds(was: seq<Node>, c: Slots, top: nat, t: nat, ns: seq<Node>, before: set<nat>, after: set<nat>)
    requires top < |was| && OnlyPath(was, c, top, t, ns, before, after)
    ensures OnlyPath(was, c, top, t, ns, before, (after - {t}) + {t})
  {
    hide OpenPath;
  }

  // ----- what a search leaves behind in a linked index

  /**
   Whatever was marked is off the chain, right above a failed block that is off the chain, and neither is a candidate;
   whoever is a candidate no more has failed.
   */
  ghost predicate Condemned(was: seq<Node>, c: Slots, ns: seq<Node>, known: set<nat>, now: set<nat>) {
    && WellFormed(was) && |ns| == |was|
    && (forall y: nat | y < |was| && ns[y].Failed() && !was[y].Failed() ::
          && y !in now && !Contains(was, c, y) && was[y].prev.Some?
          && var p := was[y].prev.value; p < y && ns[p].Failed() && p !in now && !Contains(was, c, p))
    && (forall y: nat | y in known && y !in now :: y < |was| && ns[y].Failed() && !Contains(was, c, y))
  }

  /** The best invalid block has at least as much work as every block that is a candidate no more. */
  ghost predicate Remembered(was: seq<Node>, known: set<nat>, now: set<nat>, best: Option<nat>) {
    forall k: nat | k in known && k !in now ::
      k < |was| && best.Some? && best.value < |was| && was[k].work <= was[best.value].work
  }

  /**
   So from every block marked or dropped by the search a path off the chain leads down to a block that had failed
   before, and whoever is on that path has failed and is no candidate.
   */
  lemma {:induction false} CondemnedPath(was: seq<Node>, u: Unlinked, next: nat, c: Slots, ns: seq<Node>,
      known: set<nat>, now: set<nat>, y: nat) returns (t: nat)
    requires Linking(was, u, next) && Condemned(was, c, ns, known, now) && Marked(was, ns, c)
    requires y < |was| && y !in now && ns[y].Failed() && !Contains(was, c, y)
    ensures OpenPath(was, c, y, t) && t <= y && was[t].Failed() && !Contains(was, c, t)
    ensures forall x: nat | t <= x <= y && OpenPath(was, c, y, x) :: ns[x].Failed() && x !in now
    decreases y
  {
    if was[y].Failed() {
      t := y;
    } else {
      LinkedHasData(was, u, next, y);
      t := CondemnedPath(was, u, next, c, ns, known, now, was[y].prev.value);
    }
  }

  lemma LinkedHasData(ns: seq<Node>, u: Unlinked, next: nat, i: nat)
    requires Linking(ns, u, next) && i < |ns| && ns[i].nChainTx != 0
    ensures ns[i].haveData
  {
    assert DataDown(ns, i);
  }

  /** A path is off the chain above its end. */
  lemma {:induction false} OpenPathOff(ns: seq<Node>, c: Slots, top: nat, t: nat, y: nat)
    requires WellFormed(ns) && top < |ns| && OpenPath(ns, c, top, t) && OpenPath(ns, c, top, y) && t < y <= top
    ensures !Contains(ns, c, y) && ns[y].prev.Some? && t <= ns[y].prev.value < y
    ensures OpenPath(ns, c, top, ns[y].prev.value)
    decreases top
  {
    assert NodeOk(ns, top);
    if y == top {
      OpenPathUsable(ns, c, ns[top].prev.value, t);
      assert OpenPath(ns, c, ns[top].prev.value, ns[top].prev.value);
    } else {
      OpenPathOff(ns, c, ns[top].prev.value, t, y);
    }
  }

  lemma CondemnedNext(was: seq<Node>, mid: seq<Node>, ns: seq<Node>, c: Slots, known: set<nat>, left: set<nat>,
      now: set<nat>, top: nat, t: nat, u: Unlinked)
    requires Condemned(was, c, mid, known, left) && Marked(was, mid, c) && WellFormed(mid) && top < |mid| && t < |mid|
    requires mid[t].Failed() && OpenPath(mid, c, top, t) && !Contains(mid, c, t) && t <= top
    requires Handled(mid, c, top, t, true, ns, u, now) && OnlyPath(mid, c, top, t, ns, left, now + {t})
    requires Marked(mid, ns, c) && t !in now && now <= left
    ensures Condemned(was, c, ns, known, now)
  {
    hide Usable, OpenPath;
    MarkedTree(was, mid, c);
    forall y: nat | y < |was| && ns[y].Failed() && !was[y].Failed()
      ensures y !in now && !Contains(was, c, y) && was[y].prev.Some?
      ensures var p := was[y].prev.value; p < y && ns[p].Failed() && p !in now && !Contains(was, c, p)
    {
      if !mid[y].Failed() {
        OpenPathOff(mid, c, top, t, y);
        var p := mid[y].prev.value;
        if p > t {
          OpenPathOff(mid, c, top, t, p);
        }
      }
    }
    forall y: nat | y in known && y !in now ensures y < |was| && ns[y].Failed() && !Contains(was, c, y) {
      if y in left && y != t {
        OpenPathOff(mid, c, top, t, y);
      }
    }
  }

  lemma RememberedNext(was: seq<Node>, mid: seq<Node>, c: Slots, known: set<nat>, left: set<nat>, now: set<nat>,
      top: nat, before: Option<nat>, best: Option<nat>)
    requires Remembered(was, known, left, before) && Marked(was, mid, c) && (forall k | k in left :: k < |mid|)
    requires IsGreatest(mid, left, top) && now <= left && known >= left
    requires best.Some? && best.value < |mid| && mid[best.value].work >= mid[top].work
    requires before.Some? ==> before.value < |mid| && mid[best.value].work >= mid[before.value].work
    ensures Remembered(was, known, now, best)
  {
    hide Usable;
    MarkedTree(was, mid, c);
  }

  /** One turn of the search, when the block `t` spoils the best candidate `top`. */
  lemma SearchGoesOn(was: seq<Node>, mid: seq<Node>, ns: seq<Node>, c: Slots, known: set<nat>, left: set<nat>,
      now: set<nat>, top: nat, t: nat, failedChain: bool, u: Unlinked, waited: Unlinked, v: Unlinked,
      before: Option<nat>, best: Option<nat>)
    requires Searchable(mid, c, left) && Marked(was, mid, c) && Marked(mid, ns, c) && Requeued(was, c, u, waited)
    requires Dropped(was, c, known, left) && Dropped(mid, c, left, now) && Requeued(mid, c, waited, v)
    requires top < |mid| && t < |mid| && OpenPath(mid, c, top, t) && !Contains(mid, c, t) && t !in now && t <= top
    requires (forall k | k in left :: k < |mid|) && IsGreatest(mid, left, top) && known >= left
    requires Handled(mid, c, top, t, failedChain, ns, v, now) && OnlyPath(mid, c, top, t, ns, left, now + {t})
    requires failedChain ==> mid[t].Failed() && best.Some? && best.value < |mid|
    requires failedChain ==> mid[best.value].work >= mid[top].work
    requires failedChain && before.Some? ==> before.value < |mid| && mid[best.value].work >= mid[before.value].work
    ensures Marked(was, ns, c) && Dropped(was, c, known, now) && now <= left && Searchable(ns, c, now)
        && Requeued(was, c, u, v)
    ensures failedChain && Condemned(was, c, mid, known, left) && Remembered(was, known, left, before) ==>
        Condemned(was, c, ns, known, now) && Remembered(was, known, now, best)
  {
    hide Usable, OpenPath, Condemned, Remembered, Handled, OnlyPath, Marked, Dropped, Searchable, Requeued, WellFormed,
        IsBranch, DistinctAddresses, IsGreatest;
    SearchFacts(was, mid, c, known, left);
    DroppedTwice(was, mid, ns, c, known, left, now);
    SearchableMarked(mid, ns, c, left, now);
    RequeuedTwice(was, mid, c, u, waited, v);
    if failedChain && Condemned(was, c, mid, known, left) && Remembered(was, known, left, before) {
      CondemnedNext(was, mid, ns, c, known, left, now, top, t, v);
      RememberedNext(was, mid, c, known, left, now, top, before, best);
    }
  }

  lemma HandledFewer(was: seq<Node>, c: Slots, top: nat, t: nat, failedChain: bool, ns: seq<Node>, u: Unlinked,
      candidates: set<nat>)
    requires top < |was| && Handled(was, c, top, t, failedChain, ns, u, candidates)
    ensures Handled(was, c, top, t, failedChain, ns, u, candidates - {t})
  {
    hide OpenPath;
  }

  ghost predicate Pruned(ns: seq<Node>, c: Slots, before: set<nat>, after: set<nat>) {
    (forall k | k in before :: k < |ns|) && after <= before && forall k | k in before ::
        k in after <==> !WorseThanTip(ns, c, k)
  }

  lemma LeastStays(ns: seq<Node>, c: Slots, candidates: set<nat>, worst: nat)
    requires IsBranch(ns, c) && DistinctAddresses(ns) && forall i | i in candidates :: i < |ns|
    requires IsLeast(ns, candidates, worst) && !WorseThanTip(ns, c, worst)
    ensures forall k | k in candidates :: !WorseThanTip(ns, c, k)
  {
    forall k | k in candidates ensures !WorseThanTip(ns, c, k) {
      if c != [] {
        assert BranchAt(ns, c, |c| - 1);
        WorseOrders(ns, worst, k, c[|c| - 1].value);
      }
    }
  }

  lemma FailedKeeps(ns: seq<Node>, u: Unlinked, next: nat, c: Slots, candidates: set<nat>, i: nat, index: map<Hash,
      nat>, parentOf: Hash -> Hash, bestHeader: Option<nat>, genesis: Hash)
    requires Shape(ns, c, index, parentOf, bestHeader) && Linking(ns, u, next) && ActiveClean(ns, c)
    requires i < |ns| && !Contains(ns, c, i)
    ensures var ms := ns[i := ns[i].(failedValid := true)];
      && Shape(ms, c, index, parentOf, bestHeader) && Linking(ms, u, next) && ActiveClean(ms, c)
      && (Candidates(ns, c, candidates) ==> Candidates(ms, c, candidates - {i}))
          && (Checks(ns, c, genesis) ==> Checks(ms, c, genesis))
  {
    hide Shape, Linking, LinkingBut, ActiveClean, Candidates, Checks;
    var ms := ns[i := ns[i].(failedValid := true)];
    ShapeKept(ns, ms, c, index, parentOf, bestHeader);
    ToLocal(ns, u, next);
    FlagsLinking(ns, ms, u, next);
    ToGlobal(ms, u, next);
    ActiveFailed(ns, c, i);
    FailedChecks(ns, c, genesis, i);
    if Candidates(ns, c, candidates) {
      CandidatesFailed(ns, c, candidates, i);
    }
  }

  /** A search keeps everything the index promises. */
  lemma SearchKeeps(was: seq<Node>, ns: seq<Node>, u: Unlinked, next: nat, c: Slots, known: set<nat>, now: set<nat>,
      index: map<Hash, nat>, parentOf: Hash -> Hash, bestHeader: Option<nat>)
    requires Marked(was, ns, c) && Dropped(was, c, known, now)
    ensures Linking(was, u, next) ==> Linking(ns, u, next)
    ensures Shape(was, c, index, parentOf, bestHeader) ==> Shape(ns, c, index, parentOf, bestHeader)
    ensures Linking(was, u, next) && ActiveClean(was, c) ==>
        ActiveClean(ns, c) && (Candidates(was, c, known) ==> Candidates(ns, c, now))
  {
    hide Usable, Shape, ActiveClean, Candidates, DataDown, SumTx, Skips, WellFormed;
    MarkedTree(was, ns, c);
    if Shape(was, c, index, parentOf, bestHeader) {
      ShapeKept(was, ns, c, index, parentOf, bestHeader);
    }
    if Linking(was, u, next) {
      ToLocal(was, u, next);
      FlagsLinking(was, ns, u, next);
      ToGlobal(ns, u, next);
      if ActiveClean(was, c) {
        ActiveMarked(was, ns, c);
        if Candidates(was, c, known) {
          CandidatesMarked(was, ns, c, known, now);
        }
      }
    }
  }

  lemma MarksKeep(was: seq<Node>, ns: seq<Node>, u: Unlinked, next: nat, c: Slots, genesis: Hash)
    requires Marked(was, ns, c)
    ensures Linking(was, u, next) && ActiveClean(was, c) && Checks(was, c, genesis) ==> Checks(ns, c, genesis)
  {
    hide Usable, Checks, Linking, ActiveClean;
    if Linking(was, u, next) && ActiveClean(was, c) {
      MarkedChecks(was, ns, u, next, c, genesis);
    }
  }

  lemma Spoils(ns: seq<Node>, c: Slots, top: nat, t: nat)
    requires WellFormed(ns) && top < |ns| && t < |ns| && OpenPath(ns, c, top, t) && !Contains(ns, c, t) && !Fine(ns[t])
    ensures !Usable(ns, c, t) && !Usable(ns, c, top)
  {
    OpenPathUsable(ns, c, top, t);
  }

  /** In a linked index the block that spoils a candidate has failed: it never lacks data. */
  lemma MissingNever(was: seq<Node>, ns: seq<Node>, u: Unlinked, next: nat, c: Slots, top: nat, t: nat)
    requires Marked(was, ns, c) && WellFormed(ns) && top < |ns| && ns[top].nChainTx != 0 && t < |ns|
        && OpenPath(ns, c, top, t) && !Fine(ns[t])
    ensures Linking(was, u, next) ==> ns[t].Failed()
  {
    hide Usable;
    if Linking(was, u, next) {
      ToLocal(was, u, next);
      FlagsLinking(was, ns, u, next);
      ToGlobal(ns, u, next);
      LinkedPathHasData(ns, u, next, c, top, t);
    }
  }

  lemma ReceiveStarts(ns: seq<Node>, c: Slots, candidates: set<nat>, i: nat, nTx: nat)
    requires ActiveClean(ns, c) && Candidates(ns, c, candidates) && i < |ns| && ns[i].nChainTx == 0
    ensures var ms := Receive(ns, i, nTx);
      && ActiveClean(ms, c) && Candidates(ms, c, candidates) && Joined(ns, ms, c, candidates, candidates)
      && Linked(ms, ms) && forall first: nat :: Numbered(ns, ms, first)
  {
    hide ActiveClean, Candidates;
    CandidatesReceived(ns, c, candidates, i, nTx);
  }

  lemma EmptyValid(parentOf: Hash -> Hash, genesis: Hash)
    ensures Shape([], [], map[], parentOf, None) && Linking([], map[], 1) && ActiveClean([], [])
        && Candidates([], [], {})
    ensures Checks([], [], genesis)
  {
  }

  lemma AddedChecks(ns: seq<Node>, n: Node, c: Slots, genesis: Hash, proof: nat)
    requires WellFormed(ns) && WellFormed(ns + [n]) && Grown(ns, ns + [n]) && !n.Failed() && n.nTx == 0
        && n.level < VALID_TRANSACTIONS
    requires n.prev.Some? ==> n.prev.value < |ns| && ns[n.prev.value].work + proof == n.work
    ensures Checks(ns, c, genesis) && proof > 0 && (n.prev.None? <==> n.hash == genesis) ==>
        Checks(ns + [n], c, genesis)
  {
    if proof > 0 && (n.prev.None? <==> n.hash == genesis) {
      AppendedChecks(ns, n, c, genesis);
    }
  }

  lemma AppendedKeeps(ns: seq<Node>, u: Unlinked, next: nat, n: Node, c: Slots, candidates: set<nat>)
    requires Linking(ns, u, next) && ActiveClean(ns, c) && Candidates(ns, c, candidates) && WellFormed(ns + [n])
        && Grown(ns, ns + [n])
    requires !n.haveData && n.nTx == 0 && n.nChainTx == 0 && n.sequenceId == 0 && n.level >= VALID_TREE
    ensures Linking(ns + [n], u, next) && ActiveClean(ns + [n], c) && Candidates(ns + [n], c, candidates)
  {
    hide Linking, LinkingBut, Candidates;
    ToLocal(ns, u, next);
    AppendLinking(ns, u, next, n);
    ToGlobal(ns + [n], u, next);
    ActiveAppended(ns, n, c);
    CandidatesAppended(ns, n, c, candidates);
  }

  /** The facts about one entry that its linking rests on. */
  lemma Unfolded(ns: seq<Node>, u: Unlinked, next: nat, queue: seq<nat>, i: nat)
    requires LinkingBut(ns, u, next, queue) && i < |ns|
    ensures WellFormed(ns) && Entries(ns, next) && EntryOk(ns[i], next) && NodeOk(ns, i)
    ensures ns[i].prev.Some? ==> EntryOk(ns[ns[i].prev.value], next)
    ensures queue != [] && i == queue[0] ==> ns[i].nTx > 0
  {
    assert NodeOk(ns, i);
    assert queue != [] ==> queue[0] in queue;
  }
}
