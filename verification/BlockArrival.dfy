/**
 Blocks arriving in any order, blocks called invalid by the user, and moves to the best chain in between: the
 block index stays as the consistency check wants it, and every move ends at the best block there is.
 */
module BlockArrival {
  import opened Wrappers
  import opened BlockTree
  import opened ActiveChain
  import opened BlockLinking
  import opened BestChain
  import opened BlockChecks
  import opened BlockActivation
  import opened BlockInvalidation
  import B = BlockIndex

  /** How checking a block's contents ends: accepted, against the rules, or in error without blaming the block. */
  datatype Verdict = Accepted | Invalid | Unclear

  /** What the checks of a block say: of its proof of work or stake, of its header, and of its contents. */
  datatype Outcome = Outcome(work: bool, header: bool, body: Verdict)

  /**
   What the source's callers see to: no block hashes to null or names itself, the first block has no parent, a block
   whose work was checked proves some work, and a block that was accepted has transactions.  That the work is positive
   is seen to where a new block is processed (src/main.cpp:3583): its check of the whole block includes the target of a
   proof of work.  The check of the work alone compares only approximate difficulties for early blocks.
   */
  predicate Sane(genesis: B.Hash, parentOf: B.Hash -> B.Hash, hash: B.Hash, proof: nat, nTx: nat, o: Outcome) {
    && hash != B.NULL_HASH && parentOf(hash) != hash && (hash == genesis ==> parentOf(hash) == B.NULL_HASH)
    && (hash == genesis || o.work ==> proof > 0) && (o.body.Accepted? ==> nTx > 0)
  }

  /**
   Blocks that are turned away before they are indexed: with an unknown or failed parent or wrong work, unless
   they are the first block; those indexed and failed already; and new ones with a wrong header.
   */
  ghost predicate TurnedAway(b: B.BlockIndex, hash: B.Hash, o: Outcome)
    reads b, b.chain
    requires b.Valid()
  {
    || (hash != b.genesis && (b.parentOf(hash) !in b.index || b.nodes[b.index[b.parentOf(hash)]].Failed() || !o.work))
    || (if hash in b.index then b.nodes[b.index[hash]].Failed() else !o.header)
  }

  ghost predicate HasData(b: B.BlockIndex, hash: B.Hash)
    reads b, b.chain
    requires b.Valid()
  {
    hash in b.index && b.nodes[b.index[hash]].haveData
  }

  /** Only entry `i` has changed, which may be new, apart from what linking sets in others. */
  ghost predicate OthersKept(ns: seq<Node>, ms: seq<Node>, i: nat) {
    && i < |ms| && |ms| == (if i < |ns| then |ns| else |ns| + 1)
    && forall k | 0 <= k < |ns| && k != i :: ms[k] == ns[k].(nChainTx := ms[k].nChainTx, sequenceId := ms[k].sequenceId)
  }

  /** The entry behind `was` is new, below the entry of its parent if that is indexed, with the work up to it. */
  ghost predicate NewEntry(was: seq<Node>, index: map<B.Hash, nat>, ns: seq<Node>, hash: B.Hash, parent: B.Hash,
      proof: nat)
  {
    && |ns| == |was| + 1 && ns[|was|].hash == hash
    && (parent !in index ==> ns[|was|].prev == None && ns[|was|].work == proof)
    && (parent in index ==>
        && index[parent] < |was| && ns[|was|].prev == Some(index[parent])
        && ns[|was|].work == was[index[parent]].work + proof)
  }

  lemma NewEntryGrown(was: seq<Node>, index: map<B.Hash, nat>, ns: seq<Node>, ms: seq<Node>, hash: B.Hash,
      parent: B.Hash, proof: nat)
    requires hash !in index ==> NewEntry(was, index, ns, hash, parent, proof)
    requires Grown(ns, ms) && |ms| == |ns|
    ensures hash !in index ==> NewEntry(was, index, ms, hash, parent, proof)
  {
  }

  lemma ReceivedKept(start: seq<Node>, was: seq<Node>, ns: seq<Node>, i: nat, nTx: nat)
    requires i < |was| && B.Linked(Receive(was, i, nTx), ns) && OthersKept(start, was, i) && Grown(start, was)
    ensures OthersKept(start, ns, i) && Grown(start, ns) && Grown(was, ns) && |ns| == |was| && ns[i].haveData
        && ns[i].nTx == nTx
        && ns[i].failedValid == was[i].failedValid
  {
  }

  lemma FailedKept(start: seq<Node>, was: seq<Node>, i: nat)
    requires OthersKept(start, was, i) && Grown(start, was)
    ensures var ns := was[i := was[i].(failedValid := true)];
      OthersKept(start, ns, i) && Grown(start, ns) && Grown(was, ns)
  {
  }

  lemma AddedKept(start: seq<Node>, was: seq<Node>, i: nat)
    requires i < |was| && (was == start || (was == start + [was[i]] && i == |start|))
    ensures OthersKept(start, was, i) && Grown(start, was)
  {
  }

  lemma AddedEntry(start: seq<Node>, index: map<B.Hash, nat>, was: seq<Node>, hash: B.Hash, parent: B.Hash, proof: nat,
      i: nat, c: Slots, now: map<B.Hash, nat>, parentOf: B.Hash -> B.Hash, bestHeader: Option<nat>)
    requires B.Shape(was, c, now, parentOf, bestHeader) && hash in now && now[hash] == i < |was|
    requires hash !in index ==>
        && |was| == |start| + 1 && i == |start| && was == start + [was[i]]
        && now == index[hash := i] && parent != hash
        && (parent in index ==> was[i].prev == Some(index[parent]) && was[i].work == was[now[parent]].work + proof)
        && (parent !in index ==> was[i].prev == None && was[i].work == proof)
    ensures hash !in index ==> NewEntry(start, index, was, hash, parent, proof)
  {
    if hash !in index && parent in index {
      assert NodeOk(was, i);
    }
  }

  /** The header is turned away: its entry has failed, or it is new and wrong or without a sound parent. */
  ghost predicate HeaderTurnedAway(b: B.BlockIndex, hash: B.Hash, o: Outcome)
    reads b, b.chain
    requires b.Valid()
  {
    if hash in b.index then b.nodes[b.index[hash]].Failed() else
      || !o.header
      || (hash != b.genesis
          && (b.parentOf(hash) !in b.index || b.nodes[b.index[b.parentOf(hash)]].Failed()))
  }

  /** A header arrives: it is turned away, known already, or indexed below its parent. */
  method AcceptBlockHeader(b: B.BlockIndex, hash: B.Hash, proof: nat, o: Outcome) returns (r: Option<nat>)
    requires b.Valid() && hash != B.NULL_HASH && b.parentOf(hash) != hash && proof > 0
    requires hash == b.genesis ==> b.parentOf(hash) == B.NULL_HASH
    modifies b
    ensures b.Valid() && (old(b.Checked()) ==> b.Checked())
    ensures r.None? <==> old(HeaderTurnedAway(b, hash, o))
    ensures r.None? || hash in old(b.index) ==> unchanged(b)
    ensures r.Some? ==>
        hash in b.index && b.index[hash] == r.value < |b.nodes| && !b.nodes[r.value].Failed()
        && OthersKept(old(b.nodes), b.nodes, r.value)
    ensures forall k | 0 <= k < |old(b.nodes)| :: k < |b.nodes| && b.nodes[k] == old(b.nodes)[k]
    ensures r.Some? && hash !in old(b.index) ==>
      && b.index == old(b.index)[hash := |old(b.nodes)|] && !b.nodes[r.value].haveData
      && NewEntry(old(b.nodes), old(b.index), b.nodes, hash, b.parentOf(hash), proof)
    ensures Grown(old(b.nodes), b.nodes)
  {
    hide Linking, Candidates, ActiveClean, B.Works, Skips, IsBranch, DistinctAddresses, Grown, OthersKept, NewEntry,
        Checks;
    ghost var start, index := b.nodes, b.index;
    GrownSelf(start);
    if hash in b.index {
      AddedKept(start, start, b.index[hash]);
      return if b.nodes[b.index[hash]].Failed() then None else Some(b.index[hash]);
    }
    if !o.header {
      return None;
    }
    var prevHash := b.parentOf(hash);
    if hash != b.genesis && (prevHash !in b.index || b.nodes[b.index[prevHash]].Failed()) {
      return None;
    }
    var i := b.AddToBlockIndex(hash, proof);
    AddedKept(start, b.nodes, i);
    AddedEntry(start, index, b.nodes, hash, prevHash, proof, i, b.chain.slots, b.index, b.parentOf, b.bestHeader);
    return Some(i);
  }

  /** Mark a block without data as invalid: it is no candidate and not in the chain. */
  method MarkInvalid(b: B.BlockIndex, i: nat)
    requires b.Valid() && i < |b.nodes| && !b.nodes[i].haveData
    modifies b`nodes
    ensures b.Valid() && (old(b.Checked()) ==> b.Checked())
    ensures b.nodes == old(b.nodes)[i := old(b.nodes)[i].(failedValid := true)]
  {
    hide Linking, Candidates, ActiveClean, B.Shape, Checks;
    NoDataOutside(b.nodes, b.unlinked, b.nextSequence, b.chain.slots, b.candidates, i);
    B.FailedKeeps(b.nodes, b.unlinked, b.nextSequence, b.chain.slots, b.candidates, i, b.index, b.parentOf,
        b.bestHeader, b.genesis);
    b.nodes := b.nodes[i := b.nodes[i].(failedValid := true)];
    assert b.candidates - {i} == b.candidates;
  }

  /** The parent is one that was looked up before, so it has not failed. */
  lemma ParentSound(start: seq<Node>, index: map<B.Hash, nat>, ns: seq<Node>, now: map<B.Hash, nat>, c: Slots,
      parentOf: B.Hash -> B.Hash, was: Option<nat>, bestHeader: Option<nat>, i: nat)
    requires B.Shape(start, c, index, parentOf, was) && B.Shape(ns, c, now, parentOf, bestHeader) && i < |ns|
    requires |start| <= |ns| && forall k | 0 <= k < |start| :: ns[k] == start[k]
    requires var h := parentOf(ns[i].hash); if h in index then !start[index[h]].Failed() else h == B.NULL_HASH
    ensures ns[i].prev.Some? ==> ns[i].prev.value < |ns| && !ns[ns[i].prev.value].Failed()
  {
    assert NodeOk(ns, i) && B.Named(ns, parentOf, i);
    if ns[i].prev.Some? {
      assert ns[index[parentOf(ns[i].hash)]].hash == ns[ns[i].prev.value].hash;
    }
  }

  /** A block with its data arrives: it is turned away, already there, found wanting, or stored and linked. */
  method AcceptBlock(b: B.BlockIndex, hash: B.Hash, proof: nat, nTx: nat, o: Outcome) returns (ok: bool)
    requires b.Valid() && Sane(b.genesis, b.parentOf, hash, proof, nTx, o)
    modifies b
    ensures b.Valid() && (old(b.Checked()) ==> b.Checked()) && Grown(old(b.nodes), b.nodes)
    ensures ok <==> !old(TurnedAway(b, hash, o)) && (old(HasData(b, hash)) || o.body.Accepted?)
    ensures old(TurnedAway(b, hash, o) || HasData(b, hash)) ==> unchanged(b)
    ensures !old(TurnedAway(b, hash, o) || HasData(b, hash)) ==>
      && hash in b.index && (o.body.Accepted? <==> HasData(b, hash))
      && b.nodes[b.index[hash]].failedValid == o.body.Invalid?
      && (o.body.Accepted? ==> b.nodes[b.index[hash]].nTx == nTx)
      && OthersKept(old(b.nodes), b.nodes, b.index[hash])
    ensures old(TurnedAway(b, hash, o)) || hash in old(b.index) ==>
        b.index == old(b.index) && |b.nodes| == |old(b.nodes)|
    ensures !old(TurnedAway(b, hash, o)) && hash !in old(b.index) ==>
      && b.index == old(b.index)[hash := |old(b.nodes)|]
      && NewEntry(old(b.nodes), old(b.index), b.nodes, hash, b.parentOf(hash), proof)
  {
    hide Linking, Candidates, ActiveClean, B.Works, Skips, IsBranch, DistinctAddresses, B.Joined, B.Linked, Grown,
        OthersKept, NewEntry, Checks, Receive;
    ghost var start, index, best := b.nodes, b.index, b.bestHeader;
    GrownSelf(start);
    var prevHash := b.parentOf(hash);
    if hash != b.genesis && (prevHash !in b.index || b.nodes[b.index[prevHash]].Failed()) {
      return false;
    }
    if hash != b.genesis && !o.work {
      return false;
    }
    var r := AcceptBlockHeader(b, hash, proof, o);
    if r.None? {
      return false;
    }
    var i := r.value;
    ghost var was, parent := b.nodes, b.parentOf(hash);
    ParentSound(start, index, was, b.index, b.chain.slots, b.parentOf, best, b.bestHeader, i);
    if b.nodes[i].haveData {
      return true;
    }
    if o.body != Accepted {
      if o.body == Invalid {
        FailedKept(start, b.nodes, i);
        MarkInvalid(b, i);
        NewEntryGrown(start, index, was, b.nodes, hash, parent, proof);
      }
      return false;
    }
    b.ReceivedBlockTransactions(i, nTx);
    ReceivedKept(start, was, b.nodes, i, nTx);
    NewEntryGrown(start, index, was, b.nodes, hash, parent, proof);
    return true;
  }

  lemma NoDataOutside(ns: seq<Node>, u: Unlinked, next: nat, c: Slots, candidates: set<nat>, i: nat)
    requires Linking(ns, u, next) && ActiveClean(ns, c) && Candidates(ns, c, candidates) && i < |ns| && !ns[i].haveData
    ensures i !in candidates && !Contains(ns, c, i)
  {
    assert !DataDown(ns, i);
    assert ns[i].nChainTx == 0;
  }

  // ----- the work of a branch

  /** What all blocks of the entry's branch prove together. */
  ghost function BranchProof(ns: seq<Node>, i: nat, proofOf: B.Hash -> nat): nat
    requires WellFormed(ns) && i < |ns|
    decreases i
  {
    assert NodeOk(ns, i);
    proofOf(ns[i].hash) + if ns[i].prev.Some? then BranchProof(ns, ns[i].prev.value, proofOf) else 0
  }

  /** Every entry has the work of its branch. */
  ghost predicate Summed(ns: seq<Node>, proofOf: B.Hash -> nat) {
    WellFormed(ns) && forall i | 0 <= i < |ns| :: ns[i].work == BranchProof(ns, i, proofOf)
  }

  lemma {:induction false} BranchProofGrown(ns: seq<Node>, ms: seq<Node>, i: nat, proofOf: B.Hash -> nat)
    requires WellFormed(ns) && WellFormed(ms) && Grown(ns, ms) && i < |ns|
    ensures BranchProof(ms, i, proofOf) == BranchProof(ns, i, proofOf)
    decreases i
  {
    assert NodeOk(ns, i);
    if ns[i].prev.Some? {
      BranchProofGrown(ns, ms, ns[i].prev.value, proofOf);
    }
  }

  lemma SummedKept(ns: seq<Node>, ms: seq<Node>, proofOf: B.Hash -> nat)
    requires Summed(ns, proofOf) && Grown(ns, ms) && |ms| == |ns|
    ensures Summed(ms, proofOf)
  {
    TreeUpdate(ns, ms);
    forall i | 0 <= i < |ms| ensures ms[i].work == BranchProof(ms, i, proofOf) {
      BranchProofGrown(ns, ms, i, proofOf);
    }
  }

  lemma SummedAdded(ns: seq<Node>, ms: seq<Node>, index: map<B.Hash, nat>, hash: B.Hash, parent: B.Hash,
      proofOf: B.Hash -> nat)
    requires Summed(ns, proofOf) && WellFormed(ms) && Grown(ns, ms)
    requires NewEntry(ns, index, ms, hash, parent, proofOf(hash))
    ensures Summed(ms, proofOf)
  {
    forall i | 0 <= i < |ms| ensures ms[i].work == BranchProof(ms, i, proofOf) {
      if i < |ns| {
        BranchProofGrown(ns, ms, i, proofOf);
      } else if parent in index {
        BranchProofGrown(ns, ms, index[parent], proofOf);
      }
    }
  }

  // ----- every run

  datatype Event =
    | Arrival(hash: B.Hash, nTx: nat, outcome: Outcome)
    | Rejection(hash: B.Hash)
    | Activation

  /** An event that speaks against a block. */
  predicate Blames(e: Event, hash: B.Hash) {
    match e
    case Arrival(h, _, o) => h == hash && o.body.Invalid?
    case Rejection(h) => h == hash
    case Activation => false
  }

  /** The block was found wanting, called invalid, or does not connect. */
  ghost predicate Blamed(events: seq<Event>, connects: B.Hash -> bool, hash: B.Hash) {
    !connects(hash) || exists k | 0 <= k < |events| :: Blames(events[k], hash)
  }

  /** Nobody is called invalid without a cause. */
  ghost predicate Fair(ns: seq<Node>, events: seq<Event>, connects: B.Hash -> bool) {
    forall i | 0 <= i < |ns| && ns[i].failedValid :: Blamed(events, connects, ns[i].hash)
  }

  /** Nothing speaks against the block or any block below it. */
  ghost predicate Spotless(ns: seq<Node>, i: nat, events: seq<Event>, connects: B.Hash -> bool)
    requires WellFormed(ns) && i < |ns|
    decreases i
  {
    assert NodeOk(ns, i);
    !Blamed(events, connects, ns[i].hash) && (ns[i].prev.Some? ==> Spotless(ns, ns[i].prev.value, events, connects))
  }

  lemma {:induction false} SpotlessNotInvalid(ns: seq<Node>, i: nat, events: seq<Event>, connects: B.Hash -> bool)
    requires WellFormed(ns) && Fair(ns, events, connects) && i < |ns| && Spotless(ns, i, events, connects)
    ensures !InvalidBelow(ns, i)
    decreases i
  {
    assert NodeOk(ns, i);
    if ns[i].prev.Some? {
      SpotlessNotInvalid(ns, ns[i].prev.value, events, connects);
    }
  }

  /** No linked block is forgotten: the best block is at least as good as each against which nothing speaks. */
  lemma NoneForgotten(ns: seq<Node>, c: Slots, genesis: B.Hash, r: Option<nat>, events: seq<Event>,
      connects: B.Hash -> bool, i: nat)
    requires Checks(ns, c, genesis) && Fair(ns, events, connects) && BestOf(ns, r)
    requires i < |ns| && ns[i].nChainTx != 0 && Spotless(ns, i, events, connects)
    ensures r.Some? && r.value < |ns| && (i == r.value || Worse(ns[i], ns[r.value]))
  {
    SpotlessNotInvalid(ns, i, events, connects);
    if !NotFailedDown(ns, i) {
      FailedIsInvalid(ns, i);
    }
  }

  lemma FairLater(ns: seq<Node>, ms: seq<Node>, events: seq<Event>, e: Event, connects: B.Hash -> bool)
    requires Fair(ns, events, connects) && Grown(ns, ms)
    requires forall i | 0 <= i < |ms| && ms[i].failedValid ::
        (i < |ns| && ns[i].failedValid) || Blames(e, ms[i].hash) || !connects(ms[i].hash)
    ensures Fair(ms, events + [e], connects)
  {
    var all := events + [e];
    forall i | 0 <= i < |ms| && ms[i].failedValid ensures Blamed(all, connects, ms[i].hash) {
      if i < |ns| && ns[i].failedValid && connects(ns[i].hash) {
        var k :| 0 <= k < |events| && Blames(events[k], ns[i].hash);
        assert Blames(all[k], ms[i].hash);
      } else {
        assert all[|events|] == e;
      }
    }
  }

  lemma VettedGrown(ns: seq<Node>, ms: seq<Node>, c: Slots, connects: B.Hash -> bool)
    requires ActiveVetted(ns, c, connects) && Grown(ns, ms)
    ensures ActiveVetted(ms, c, connects)
  {
  }

  lemma ArrivalFair(ns: seq<Node>, ms: seq<Node>, i: nat, events: seq<Event>, e: Event, connects: B.Hash -> bool)
    requires Fair(ns, events, connects) && Grown(ns, ms) && OthersKept(ns, ms, i)
    requires ms[i].failedValid ==> Blames(e, ms[i].hash)
    ensures Fair(ms, events + [e], connects)
  {
    FairLater(ns, ms, events, e, connects);
  }

  lemma SpoiledFair(ns: seq<Node>, ms: seq<Node>, c: Slots, n: nat, i: nat, events: seq<Event>, e: Event,
      connects: B.Hash -> bool)
    requires Fair(ns, events, connects) && i < |ns| && Blames(e, ns[i].hash) && Spoiled(ns, ms, c, n, i)
    ensures Fair(ms, events + [e], connects) && Grown(ns, ms) && |ms| == |ns| && ms[i].failedValid
  {
    FairLater(ns, ms, events, e, connects);
  }

  lemma VettedBelow(ns: seq<Node>, c: Slots, d: Slots, connects: B.Hash -> bool)
    requires ActiveVetted(ns, c, connects) && d <= c
    ensures ActiveVetted(ns, d, connects)
  {
  }

  lemma JudgedFair(ns: seq<Node>, ms: seq<Node>, events: seq<Event>, e: Event, connects: B.Hash -> bool)
    requires Fair(ns, events, connects) && Judged(ns, ms, connects)
    ensures Fair(ms, events + [e], connects) && Grown(ns, ms) && |ms| == |ns|
  {
    FairLater(ns, ms, events, e, connects);
  }

  lemma Found(ns: seq<Node>, c: Slots, index: map<B.Hash, nat>, parentOf: B.Hash -> B.Hash, bestHeader: Option<nat>,
      hash: B.Hash)
    requires B.Shape(ns, c, index, parentOf, bestHeader) && hash in index
    ensures index[hash] < |ns| && ns[index[hash]].hash == hash
  {
  }

  lemma EmptyFair(connects: B.Hash -> bool, proofOf: B.Hash -> nat)
    ensures ActiveVetted([], [], connects) && Fair([], [], connects) && Summed([], proofOf)
  {
  }

  /** One event. */
  method Happen(b: B.BlockIndex, e: Event, proofOf: B.Hash -> nat, connects: B.Hash -> bool, ghost events: seq<Event>)
    requires b.Valid() && b.Checked() && ActiveVetted(b.nodes, b.chain.slots, connects)
        && Fair(b.nodes, events, connects) && Summed(b.nodes, proofOf)
    requires e.Arrival? ==> Sane(b.genesis, b.parentOf, e.hash, proofOf(e.hash), e.nTx, e.outcome)
    modifies b, b.chain
    ensures b.Valid() && b.Checked() && ActiveVetted(b.nodes, b.chain.slots, connects)
        && Fair(b.nodes, events + [e], connects) && Summed(b.nodes, proofOf)
    ensures e.Activation? ==> BestOf(b.nodes, TipOf(b.chain.slots))
    ensures e.Arrival? && !old(TurnedAway(b, e.hash, e.outcome)) ==>
        e.hash in b.index && (old(HasData(b, e.hash)) || e.outcome.body.Accepted? <==> HasData(b, e.hash))
    ensures e.Rejection? && e.hash in old(b.index) && old(b.nodes[b.index[e.hash]]).prev.Some?
            && old(b.chain.slots) != [] ==>
        e.hash in b.index && b.index[e.hash] < |b.nodes| && b.nodes[b.index[e.hash]].failedValid
  {
    hide B.Shape, Linking, Candidates, ActiveClean, Checks, BestOf, Fair, ActiveVetted, Judged, BestVetted, B.MoreWork,
        Spoiled, TurnedAway, Grown, OthersKept, Summed, NewEntry;
    ghost var was := b.nodes;
    GrownSelf(was);
    FairLater(was, was, events, e, connects);
    match e {
      case Arrival(hash, nTx, o) =>
        ghost var c, index, idle := b.chain.slots, b.index, TurnedAway(b, hash, o) || HasData(b, hash);
        var _ := AcceptBlock(b, hash, proofOf(hash), nTx, o);
        if |b.nodes| == |was| {
          SummedKept(was, b.nodes, proofOf);
        } else {
          ShapeBranch(b.nodes, b.chain.slots, b.index, b.parentOf, b.bestHeader);
          SummedAdded(was, b.nodes, index, hash, b.parentOf(hash), proofOf);
        }
        VettedGrown(was, b.nodes, c, connects);
        if !idle {
          Found(b.nodes, b.chain.slots, b.index, b.parentOf, b.bestHeader, hash);
          ArrivalFair(was, b.nodes, b.index[hash], events, e, connects);
        }
      case Rejection(hash) =>
        if hash in b.index && b.chain.slots != [] {
          Found(b.nodes, b.chain.slots, b.index, b.parentOf, b.bestHeader, hash);
          if b.nodes[b.index[hash]].prev.Some? {
            ghost var c := b.chain.slots;
            InvalidateBlock(b, b.index[hash]);
            SpoiledFair(was, b.nodes, c, |b.chain.slots|, b.index[hash], events, e, connects);
            VettedGrown(was, b.nodes, c, connects);
            VettedBelow(b.nodes, c, b.chain.slots, connects);
            SummedKept(was, b.nodes, proofOf);
          }
        }
      case Activation =>
        ActivateBestChain(b, connects);
        JudgedFair(was, b.nodes, events, e, connects);
        SummedKept(was, b.nodes, proofOf);
    }
  }

  /** Whatever arrives and fails in whatever order, from an empty index on. */
  method Replay(genesis: B.Hash, parentOf: B.Hash -> B.Hash, proofOf: B.Hash -> nat, connects: B.Hash -> bool,
      events: seq<Event>) returns (b: B.BlockIndex)
    requires forall e | e in events && e.Arrival? :: Sane(genesis, parentOf, e.hash, proofOf(e.hash), e.nTx, e.outcome)
    ensures b.Valid() && b.Checked() && ActiveVetted(b.nodes, b.chain.slots, connects)
        && Fair(b.nodes, events, connects) && Summed(b.nodes, proofOf)
        && b.genesis == genesis && b.parentOf == parentOf
    ensures events != [] && events[|events| - 1].Activation? ==> BestOf(b.nodes, TipOf(b.chain.slots))
  {
    hide B.Shape, Linking, Candidates, ActiveClean, Checks, BestOf, Fair, ActiveVetted, Sane, Summed;
    b := new B.BlockIndex(genesis, parentOf);
    EmptyFair(connects, proofOf);
    for k := 0 to |events|
      invariant b.Valid() && b.Checked() && fresh(b) && fresh(b.chain) && b.genesis == genesis && b.parentOf == parentOf
      invariant ActiveVetted(b.nodes, b.chain.slots, connects) && Fair(b.nodes, events[..k], connects)
          && Summed(b.nodes, proofOf)
      invariant k > 0 && events[k - 1].Activation? ==> BestOf(b.nodes, TipOf(b.chain.slots))
    {
      assert events[k] in events;
      assert events[..k + 1] == events[..k] + [events[k]];
      Happen(b, events[k], proofOf, connects, events[..k]);
    }
    assert events[..|events|] == events;
  }
}
