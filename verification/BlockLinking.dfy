/**
 Linking: an entry counts as linked once it and all its ancestors have their block data.  Entries with
 data whose parent is not linked yet wait in a multimap from parent to child.
 */
module BlockLinking {
  import opened Wrappers
  import opened Collections
  import opened BlockTree

  /** The multimap of waiting entries: per parent, its waiting children in order of insertion. */
  type Unlinked = map<nat, seq<nat>>

  function Waiting(u: Unlinked, p: nat): seq<nat> {
    if p in u then u[p] else []
  }

  // ----- what linking means

  ghost predicate DataDown(ns: seq<Node>, i: nat)
    requires WellFormed(ns) && i < |ns|
    decreases i
  {
    assert NodeOk(ns, i);
    ns[i].haveData && (ns[i].prev.Some? ==> DataDown(ns, ns[i].prev.value))
  }

  ghost function SumTx(ns: seq<Node>, i: nat): nat
    requires WellFormed(ns) && i < |ns|
    decreases i
  {
    assert NodeOk(ns, i);
    ns[i].nTx + if ns[i].prev.Some? then SumTx(ns, ns[i].prev.value) else 0
  }

  /**
   The running count is the number of transactions down to the root if all their data is there, and zero otherwise.
   */
  ghost predicate Counts(ns: seq<Node>) {
    WellFormed(ns) && forall i | 0 <= i < |ns| :: ns[i].nChainTx == if DataDown(ns, i) then SumTx(ns, i) else 0
  }

  /** Exactly the entries that have data but are not linked wait, each once, under its parent. */
  ghost predicate Waits(ns: seq<Node>, u: Unlinked) {
    && WellFormed(ns)
    && (forall p: nat :: Distinct(Waiting(u, p)))
    && (forall p: nat, c: nat ::
        c in Waiting(u, p) <==> c < |ns| && ns[c].prev == Some(p) && ns[c].haveData && !DataDown(ns, c))
  }

  /** Facts about single entries; sequence numbers are handed out below `next`. */
  ghost predicate EntryOk(n: Node, next: nat) {
    && (n.haveData <==> n.nTx > 0)
    && (n.nChainTx == 0 <==> n.sequenceId == 0)
    && n.sequenceId < next && n.level >= VALID_TREE
  }

  ghost predicate Entries(ns: seq<Node>, next: nat) {
    && next > 0
    && (forall i | 0 <= i < |ns| :: EntryOk(ns[i], next))
    && (forall i, j | 0 <= i < j < |ns| && ns[i].nChainTx != 0 :: ns[i].sequenceId != ns[j].sequenceId)
  }

  ghost predicate Linking(ns: seq<Node>, u: Unlinked, next: nat) {
    Entries(ns, next) && Counts(ns) && Waits(ns, u)
  }

  // ----- the same, one parent at a time, while a queue of entries is still to be linked

  ghost function ParentTx(ns: seq<Node>, i: nat): nat
    requires WellFormed(ns) && i < |ns|
  {
    assert NodeOk(ns, i);
    if ns[i].prev.Some? then ns[ns[i].prev.value].nChainTx else 0
  }

  ghost predicate Linkable(ns: seq<Node>, i: nat)
    requires WellFormed(ns) && i < |ns|
  {
    ns[i].haveData && (ns[i].prev.Some? ==> ParentTx(ns, i) != 0)
  }

  ghost predicate CountOk(ns: seq<Node>, i: nat)
    requires WellFormed(ns) && i < |ns|
  {
    ns[i].nChainTx == if Linkable(ns, i) then ParentTx(ns, i) + ns[i].nTx else 0
  }

  ghost predicate CountsBut(ns: seq<Node>, queue: seq<nat>) {
    WellFormed(ns) && forall i | 0 <= i < |ns| && i !in queue :: CountOk(ns, i)
  }

  ghost predicate QueueOk(ns: seq<Node>, queue: seq<nat>) {
    && WellFormed(ns) && Distinct(queue)
    && forall q | q in queue :: q < |ns| && Linkable(ns, q) && ns[q].nChainTx == 0
  }

  ghost predicate WaitsFor(ns: seq<Node>, p: nat, c: nat) {
    c < |ns| && ns[c].prev == Some(p) && ns[c].haveData && ns[c].nChainTx == 0
  }

  ghost predicate WaitsBut(ns: seq<Node>, u: Unlinked, queue: seq<nat>) {
    && (forall p: nat :: Distinct(Waiting(u, p)))
    && (forall p: nat, c: nat :: c in Waiting(u, p) <==> WaitsFor(ns, p, c) && c !in queue)
  }

  ghost predicate LinkingBut(ns: seq<Node>, u: Unlinked, next: nat, queue: seq<nat>) {
    Entries(ns, next) && CountsBut(ns, queue) && QueueOk(ns, queue) && WaitsBut(ns, u, queue)
  }

  lemma {:induction false} CountsLocal(ns: seq<Node>, next: nat, i: nat)
    requires Entries(ns, next) && CountsBut(ns, []) && i < |ns|
    ensures ns[i].nChainTx == if DataDown(ns, i) then SumTx(ns, i) else 0
    ensures ns[i].nChainTx != 0 <==> DataDown(ns, i)
    decreases i
  {
    assert NodeOk(ns, i) && CountOk(ns, i) && EntryOk(ns[i], next);
    if ns[i].prev.Some? {
      CountsLocal(ns, next, ns[i].prev.value);
    }
  }

  lemma {:induction false} SumPositive(ns: seq<Node>, next: nat, i: nat)
    requires WellFormed(ns) && Entries(ns, next) && i < |ns| && DataDown(ns, i)
    ensures SumTx(ns, i) > 0
    decreases i
  {
    assert NodeOk(ns, i) && EntryOk(ns[i], next);
  }

  lemma ToLocal(ns: seq<Node>, u: Unlinked, next: nat)
    requires Linking(ns, u, next)
    ensures LinkingBut(ns, u, next, [])
  {
    forall i | 0 <= i < |ns| ensures CountOk(ns, i) && (ns[i].nChainTx != 0 <==> DataDown(ns, i)) {
      assert NodeOk(ns, i);
      if DataDown(ns, i) { SumPositive(ns, next, i); }
      if ns[i].prev.Some? && DataDown(ns, ns[i].prev.value) { SumPositive(ns, next, ns[i].prev.value); }
    }
  }

  lemma ToGlobal(ns: seq<Node>, u: Unlinked, next: nat)
    requires LinkingBut(ns, u, next, [])
    ensures Linking(ns, u, next)
  {
    forall i | 0 <= i < |ns|
      ensures ns[i].nChainTx == (if DataDown(ns, i) then SumTx(ns, i) else 0)
          && (ns[i].nChainTx != 0 <==> DataDown(ns, i))
    {
      CountsLocal(ns, next, i);
    }
  }

  // ----- one turn of the linking queue

  ghost function Link(ns: seq<Node>, q: nat, next: nat): seq<Node>
    requires WellFormed(ns) && q < |ns|
  {
    ns[q := ns[q].(nChainTx := ParentTx(ns, q) + ns[q].nTx, sequenceId := next)]
  }

  lemma TreeUpdate(ns: seq<Node>, ms: seq<Node>)
    requires WellFormed(ns) && Grown(ns, ms) && |ns| == |ms|
    ensures WellFormed(ms)
  {
    forall i | 0 <= i < |ms| ensures NodeOk(ms, i) {
      assert NodeOk(ns, i);
    }
  }

  lemma LinkEntries(ns: seq<Node>, next: nat, q: nat)
    requires WellFormed(ns) && Entries(ns, next) && q < |ns| && Linkable(ns, q)
    ensures Entries(Link(ns, q, next), next + 1)
  {
    assert EntryOk(ns[q], next);
    forall i | 0 <= i < |ns| ensures EntryOk(Link(ns, q, next)[i], next + 1) {
      assert EntryOk(ns[i], next);
    }
  }

  lemma LinkCounts(ns: seq<Node>, u: Unlinked, next: nat, queue: seq<nat>)
    requires LinkingBut(ns, u, next, queue) && queue != [] && queue[0] < |ns|
    ensures CountsBut(Link(ns, queue[0], next), queue[1..] + Waiting(u, queue[0]))
  {
    var q := queue[0];
    assert q in queue;
    var ms, tail := Link(ns, q, next), queue[1..];
    var rest := tail + Waiting(u, q);
    TreeUpdate(ns, ms);
    forall i | 0 <= i < |ms| && i !in rest ensures CountOk(ms, i) {
      assert NodeOk(ns, i) && NodeOk(ns, q);
      if i != q {
        assert i in queue ==> i in tail;
        assert CountOk(ns, i);
        if ns[i].prev == Some(q) {
          assert i in Waiting(u, q) <==> WaitsFor(ns, q, i) && i !in queue;
        }
      }
    }
  }

  lemma LinkQueue(ns: seq<Node>, u: Unlinked, next: nat, queue: seq<nat>)
    requires LinkingBut(ns, u, next, queue) && queue != [] && queue[0] < |ns|
    ensures QueueOk(Link(ns, queue[0], next), queue[1..] + Waiting(u, queue[0]))
  {
    var q := queue[0];
    assert q in queue;
    var ms, w := Link(ns, q, next), Waiting(u, q);
    var rest := queue[1..] + w;
    TreeUpdate(ns, ms);
    assert EntryOk(ns[q], next);
    forall c | c in rest ensures c < |ms| && Linkable(ms, c) && ms[c].nChainTx == 0 {
      if c in queue[1..] {
        assert c in queue && c != q;
        assert NodeOk(ns, c);
      } else {
        assert c in Waiting(u, q);
        assert WaitsFor(ns, q, c);
        assert NodeOk(ns, c);
      }
    }
    forall i, j | 0 <= i < j < |rest| ensures rest[i] != rest[j] {
      if i < |queue| - 1 {
        assert rest[i] == queue[i + 1] && rest[i] in queue;
        if j >= |queue| - 1 {
          assert rest[j] in Waiting(u, q);
        }
      }
    }
  }

  lemma LinkWaits(ns: seq<Node>, u: Unlinked, next: nat, queue: seq<nat>)
    requires LinkingBut(ns, u, next, queue) && queue != [] && queue[0] < |ns|
    ensures WaitsBut(Link(ns, queue[0], next), u - {queue[0]}, queue[1..] + Waiting(u, queue[0]))
  {
    var q := queue[0];
    assert q in queue && EntryOk(ns[q], next);
    var ms, v, rest := Link(ns, q, next), u - {q}, queue[1..] + Waiting(u, q);
    forall p: nat ensures Waiting(v, p) == (if p == q then [] else Waiting(u, p)) {
    }
    forall p: nat, c: nat ensures c in Waiting(v, p) <==> WaitsFor(ms, p, c) && c !in rest {
      assert c in Waiting(u, p) <==> WaitsFor(ns, p, c) && c !in queue;
      assert c in Waiting(u, q) <==> WaitsFor(ns, q, c) && c !in queue;
      assert c in queue <==> c == q || c in queue[1..];
    }
    forall p: nat ensures Distinct(Waiting(v, p)) {
      assert Distinct(Waiting(u, p));
    }
  }

  /** Linking the first entry of the queue and queueing the children that waited for it. */
  lemma LinkKeeps(ns: seq<Node>, u: Unlinked, next: nat, queue: seq<nat>)
    requires LinkingBut(ns, u, next, queue) && queue != []
    ensures queue[0] < |ns| && LinkingBut(Link(ns, queue[0], next), u - {queue[0]}, next + 1,
        queue[1..] + Waiting(u, queue[0]))
    ensures Linkable(ns, queue[0]) && ns[queue[0]].nChainTx == 0
  {
    hide Link, Linkable, Distinct, WaitsBut, CountsBut, Entries;
    var q := queue[0];
    assert q in queue;
    LinkEntries(ns, next, q);
    LinkCounts(ns, u, next, queue);
    LinkQueue(ns, u, next, queue);
    LinkWaits(ns, u, next, queue);
  }

  // ----- new data and new entries

  ghost function Receive(ns: seq<Node>, i: nat, nTx: nat): seq<Node>
    requires i < |ns|
  {
    ns[i := ns[i].(nTx := nTx, nChainTx := 0, haveData := true).RaiseValidity(VALID_TRANSACTIONS)]
  }

  lemma ReceiveCommon(ns: seq<Node>, u: Unlinked, next: nat, i: nat, nTx: nat)
    requires LinkingBut(ns, u, next, []) && i < |ns| && !ns[i].haveData && nTx > 0
    ensures var ms := Receive(ns, i, nTx);
      && WellFormed(ms) && Entries(ms, next) && ns[i].nChainTx == 0
      && (forall k | 0 <= k < |ms| && k != i :: CountOk(ms, k))
  {
    var ms := Receive(ns, i, nTx);
    TreeUpdate(ns, ms);
    assert CountOk(ns, i) && EntryOk(ns[i], next);
    forall k | 0 <= k < |ms| ensures EntryOk(ms[k], next) {
      assert EntryOk(ns[k], next);
    }
    forall k | 0 <= k < |ms| && k != i ensures CountOk(ms, k) {
      assert NodeOk(ns, k) && CountOk(ns, k);
    }
  }

  /** Data for an entry that can be linked at once starts the queue. */
  lemma ReceiveLinks(ns: seq<Node>, u: Unlinked, next: nat, i: nat, nTx: nat)
    requires LinkingBut(ns, u, next, []) && i < |ns| && !ns[i].haveData && nTx > 0
    requires ns[i].prev.Some? ==> ParentTx(ns, i) != 0
    ensures LinkingBut(Receive(ns, i, nTx), u, next, [i])
  {
    ReceiveCommon(ns, u, next, i, nTx);
    assert NodeOk(ns, i);
    var ms := Receive(ns, i, nTx);
    forall p: nat, c: nat ensures c in Waiting(u, p) <==> WaitsFor(ms, p, c) && c !in [i] {
      assert c in Waiting(u, p) <==> WaitsFor(ns, p, c) && c !in [];
    }
  }

  /** Data for an entry whose parent is not linked makes it wait. */
  lemma ReceiveWaits(ns: seq<Node>, u: Unlinked, next: nat, i: nat, nTx: nat)
    requires LinkingBut(ns, u, next, []) && i < |ns| && !ns[i].haveData && nTx > 0
    requires ns[i].prev.Some? && ParentTx(ns, i) == 0
    ensures LinkingBut(Receive(ns, i, nTx), u[ns[i].prev.value := Waiting(u, ns[i].prev.value) + [i]], next, [])
  {
    ReceiveCommon(ns, u, next, i, nTx);
    assert NodeOk(ns, i);
    var ms, q := Receive(ns, i, nTx), ns[i].prev.value;
    var v := u[q := Waiting(u, q) + [i]];
    assert CountOk(ms, i);
    assert i in Waiting(u, q) <==> WaitsFor(ns, q, i) && i !in [];
    forall p: nat, c: nat ensures c in Waiting(v, p) <==> WaitsFor(ms, p, c) && c !in [] {
      assert c in Waiting(u, p) <==> WaitsFor(ns, p, c) && c !in [];
    }
    forall p: nat ensures Distinct(Waiting(v, p)) {
      assert Distinct(Waiting(u, p));
    }
  }

  /** A new entry has no data yet and changes nothing about the others. */
  lemma AppendLinking(ns: seq<Node>, u: Unlinked, next: nat, n: Node)
    requires LinkingBut(ns, u, next, []) && WellFormed(ns + [n])
    requires !n.haveData && n.nTx == 0 && n.nChainTx == 0 && n.sequenceId == 0 && n.level >= VALID_TREE
    ensures LinkingBut(ns + [n], u, next, [])
  {
    var ms := ns + [n];
    forall k | 0 <= k < |ms| ensures EntryOk(ms[k], next) {
      assert k < |ns| ==> EntryOk(ns[k], next);
    }
    forall k | 0 <= k < |ms| ensures CountOk(ms, k) {
      if k < |ns| {
        assert NodeOk(ns, k) && CountOk(ns, k);
      }
    }
    forall p: nat, c: nat ensures c in Waiting(u, p) <==> WaitsFor(ms, p, c) && c !in [] {
      assert c in Waiting(u, p) <==> WaitsFor(ns, p, c) && c !in [];
    }
  }

  /** Failure flags and rising validity levels do not matter to linking. */
  lemma FlagsLinking(ns: seq<Node>, ms: seq<Node>, u: Unlinked, next: nat)
    requires LinkingBut(ns, u, next, []) && |ms| == |ns|
    requires forall i | 0 <= i < |ns| :: ms[i] == ns[i].(failedValid := ms[i].failedValid,
        failedChild := ms[i].failedChild, level := ms[i].level) && ms[i].level >= ns[i].level
    ensures LinkingBut(ms, u, next, [])
  {
    TreeUpdate(ns, ms);
    forall k | 0 <= k < |ms| ensures EntryOk(ms[k], next) && CountOk(ms, k) {
      assert NodeOk(ns, k) && CountOk(ns, k) && EntryOk(ns[k], next);
    }
    forall p: nat, c: nat ensures c in Waiting(u, p) <==> WaitsFor(ms, p, c) && c !in [] {
      assert c in Waiting(u, p) <==> WaitsFor(ns, p, c) && c !in [];
    }
  }
}
