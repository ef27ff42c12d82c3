/**
 The node's own consistency check, in loops as the source has them, and how much of the invariant it tests.
 */
module AddrCheck {
  import opened Collections
  import opened AddrBook
  import opened AddrSave
  import opened AddrMan
  import O = AddrOps

  /** Looking up a missing address in the index enters it with identifier 0. */
  predicate IndexedAs(addr: map<NetAddr, int>, ip: NetAddr, id: int) {
    if ip in addr then addr[ip] == id else id == 0
  }

  ghost predicate EntryPasses(b: Book, id: int)
    requires id in b.info
  {
    var i := b.info[id];
    && (if i.inTried then i.lastSuccess != 0 && i.refCount == 0 else 1 <= i.refCount <= NEW_BUCKETS_PER_ADDRESS)
    && IndexedAs(b.addr, i.addr.ip, id)
    && 0 <= i.randomPos < |b.random| && b.random[i.randomPos] == id
    && 0 <= i.lastTry && 0 <= i.lastSuccess
  }

  ghost predicate EntriesPass(b: Book) {
    forall id | id in b.info :: EntryPasses(b, id)
  }

  ghost predicate TriedSlotOk(env: Env, b: Book, s: Slot)
    requires s in b.tried
  {
    b.tried[s] in b.info && b.info[b.tried[s]].inTried && s == TriedSlot(env, b.key, b.info[b.tried[s]].addr)
  }

  ghost predicate RefsOk(b: Book) {
    forall id | id in b.info :: b.info[id].refCount == |SlotsOf(b.news, id)|
  }

  /** What the check tests. */
  ghost predicate Passes(env: Env, b: Book) {
    && |b.random| == b.nTried + b.nNew && EntriesPass(b)
    && b.nTried == |TriedIds(b.info)| && b.nNew == |NewIds(b.info)|
    && TriedOk(env, b) && NewOk(env, b)
    && RefsOk(b) && b.key != 0
  }

  // ----- what the numbers mean that the check returns

  ghost predicate EntryFault(b: Book, id: int, r: int)
    requires id in b.info
  {
    var i := b.info[id];
    || (r == -1 && i.inTried && i.lastSuccess == 0)
    || (r == -2 && i.inTried && i.refCount != 0)
    || (r == -3 && !i.inTried && !(0 <= i.refCount <= 8))
    || (r == -4 && !i.inTried && i.refCount == 0)
    || (r == -5 && !IndexedAs(b.addr, i.addr.ip, id))
    || (r == -14 && !(0 <= i.randomPos < |b.random| && b.random[i.randomPos] == id))
    || (r == -6 && i.lastTry < 0)
    || (r == -8 && i.lastSuccess < 0)
  }

  /** A tried slot holds what is no tried entry, or an entry that another slot holds, or one that belongs elsewhere. */
  ghost predicate TriedFault(env: Env, b: Book, s: Slot, r: int)
    requires s in b.tried
  {
    var id := b.tried[s];
    || (r == -11 && (id !in TriedIds(b.info) || exists t :: t in b.tried && t != s && b.tried[t] == id))
    || (r == -17 && id in b.info && TriedBucket(env, b.key, b.info[id].addr) != s.bucket)
    || (r == -18 && id in b.info && BucketPosition(env, b.key, false, s.bucket, b.info[id].addr) != s.pos)
  }

  /** A new slot holds what is no new entry, or one with fewer references than slots, or one that belongs elsewhere. */
  ghost predicate NewFault(env: Env, b: Book, s: Slot, r: int)
    requires s in b.news
  {
    var id := b.news[s];
    || (r == -12 && (id in NewIds(b.info) ==> b.info[id].refCount < |SlotsOf(b.news, id)|))
    || (r == -19 && id in b.info && BucketPosition(env, b.key, true, s.bucket, b.info[id].addr) != s.pos)
  }

  /** A tried entry in no slot, or a new one with more references than slots. */
  ghost predicate LeftOver(b: Book, id: int, r: int) {
    || (r == -13 && id in TriedIds(b.info) && forall s | s in b.tried :: b.tried[s] != id)
    || (r == -15 && id in NewIds(b.info) && b.info[id].refCount > |SlotsOf(b.news, id)|)
  }

  ghost predicate TableFault(env: Env, b: Book, r: int) {
    || (exists s :: s in b.tried && TriedFault(env, b, s, r))
    || (exists s :: s in b.news && NewFault(env, b, s, r))
    || (exists id :: LeftOver(b, id, r))
  }

  /** The tables do not depend on the index. */
  lemma TableFaultKept(env: Env, b: Book, addr: map<NetAddr, int>, r: int)
    requires TableFault(env, b.(addr := addr), r)
    ensures TableFault(env, b, r)
  {
    var c := b.(addr := addr);
    if s :| s in c.tried && TriedFault(env, c, s, r) {
      assert TriedFault(env, b, s, r);
    } else if s :| s in c.news && NewFault(env, c, s, r) {
      assert NewFault(env, b, s, r);
    } else {
      var id :| LeftOver(c, id, r);
      assert LeftOver(b, id, r);
    }
  }

  ghost predicate Fault(env: Env, b: Book, r: int) {
    || (exists id :: id in b.info && EntryFault(b, id, r))
    || TableFault(env, b, r)
    || (r == -7 && |b.random| != b.nTried + b.nNew)
    || (r == -9 && b.nTried != |TriedIds(b.info)|)
    || (r == -10 && b.nNew != |NewIds(b.info)|)
    || (r == -16 && b.key == 0)
  }

  /** The index after the lookups of the check. */
  function Completed(addr: map<NetAddr, int>, info: map<int, Info>): map<NetAddr, int> {
    if 0 in info && info[0].addr.ip !in addr then addr[info[0].addr.ip := 0] else addr
  }

  // ----- how much of the invariant that is

  /** Every indexed address is that of an entry. */
  ghost predicate NoStrays(b: Book) {
    forall ip | ip in b.addr :: b.addr[ip] in b.info && b.info[b.addr[ip]].addr.ip == ip
  }

  lemma {:induction false} InjectionBound(s: set<int>, r: set<int>, f: int -> int, back: int -> int)
    requires forall x | x in s :: f(x) in r && back(f(x)) == x
    ensures |s| <= |r|
    decreases |s|
  {
    if s != {} {
      var x: int := Pick(s);
      InjectionBound(s - {x}, r - {f(x)}, f, back);
    }
  }

  function Below(n: nat): (r: set<int>)
    ensures |r| == n && forall i :: i in r <==> 0 <= i < n
  {
    if n == 0 then {} else Below(n - 1) + {n - 1}
  }

  lemma EntryCount(info: map<int, Info>)
    ensures |info.Keys| == |TriedIds(info)| + |NewIds(info)|
  {
    assert info.Keys == TriedIds(info) + NewIds(info);
  }

  function PlaceOf(info: map<int, Info>, id: int): int {
    if id in info then info[id].randomPos else -1
  }

  function EntryAt(random: seq<int>, i: int): int {
    if 0 <= i < |random| then random[i] else -1
  }

  lemma AsManyPlaces(b: Book)
    requires RandomOk(b)
    ensures |b.random| == |b.info.Keys|
  {
    var place, entry := id => PlaceOf(b.info, id), i => EntryAt(b.random, i);
    InjectionBound(b.info.Keys, Below(|b.random|), place, entry);
    InjectionBound(Below(|b.random|), b.info.Keys, entry, place);
  }

  /** The random order is as long as the two counters say. */
  lemma RandomLength(env: Env, b: Book)
    requires Consistent(env, b)
    ensures |b.random| == b.nTried + b.nNew
  {
    hide RandomOk, TriedOk, NewOk, AddrOk;
    EntryCount(b.info);
    AsManyPlaces(b);
  }

  /** If every entry has its place and there are no more places than entries, every place has its entry. */
  lemma PlacesFilled(b: Book)
    requires |b.random| == |b.info.Keys|
    requires forall id | id in b.info :: 0 <= b.info[id].randomPos < |b.random| && b.random[b.info[id].randomPos] == id
    ensures RandomOk(b)
  {
    forall i | 0 <= i < |b.random| ensures b.random[i] in b.info && b.info[b.random[i]].randomPos == i {
      if !(b.random[i] in b.info && b.info[b.random[i]].randomPos == i) {
            InjectionBound(b.info.Keys, Below(|b.random|) - {i}, id => PlaceOf(b.info, id), k => EntryAt(b.random, k));
      }
    }
  }

  lemma NoNewSlots(env: Env, b: Book, id: int)
    requires NewOk(env, b) && id in b.info && b.info[id].inTried
    ensures |SlotsOf(b.news, id)| == 0
  {
    hide NewSlotAt;
    assert SlotsOf(b.news, id) == {};
  }

  lemma ConsistentEntries(env: Env, b: Book)
    requires Consistent(env, b)
    ensures EntriesPass(b)
  {
    hide TriedOk;
    forall id | id in b.info ensures EntryPasses(b, id) {
      if b.info[id].inTried {
        NoNewSlots(env, b, id);
      }
    }
  }

  lemma ConsistentPasses(env: Env, b: Book)
    requires Consistent(env, b)
    ensures Passes(env, b) && IdsOk(b) && NoStrays(b) && (0 in b.info ==> b.info[0].addr.ip in b.addr)
  {
    hide TriedOk, NewOk, EntriesPass, RandomOk;
    RandomLength(env, b);
    ConsistentEntries(env, b);
  }

  /** What the tests of single entries add up to. */
  lemma EntriesTogether(env: Env, b: Book)
    requires Passes(env, b)
    ensures RandomOk(b) && TimesOk(b) && CountsOk(b, {})
  {
    hide TriedOk, NewOk, RandomOk;
    EntryCount(b.info);
    assert forall id | id in b.info :: EntryPasses(b, id);
    PlacesFilled(b);
  }

  lemma EntriesIndexed(b: Book)
    requires EntriesPass(b) && NoStrays(b) && (0 in b.info ==> b.info[0].addr.ip in b.addr)
    ensures AddrOk(b)
  {
    forall id | id in b.info ensures b.info[id].addr.ip in b.addr && b.addr[b.info[id].addr.ip] == id {
      assert EntryPasses(b, id);
    }
  }

  /**
   A manager that passes is consistent exactly if identifiers were handed out in order, no stray address is indexed,
   and the entry with identifier 0 is indexed: the check tests none of the three.
   */
  lemma PassesExact(env: Env, b: Book)
    ensures Consistent(env, b) <==>
        Passes(env, b) && IdsOk(b) && NoStrays(b) && (0 in b.info ==> b.info[0].addr.ip in b.addr)
  {
    hide IdsOk, RandomOk, AddrOk, TimesOk, CountsOk, TriedOk, NewOk, EntriesPass, NoStrays;
    if Consistent(env, b) {
      ConsistentPasses(env, b);
    }
    if Passes(env, b) && IdsOk(b) && NoStrays(b) && (0 in b.info ==> b.info[0].addr.ip in b.addr) {
      EntriesTogether(env, b);
      EntriesIndexed(b);
    }
  }

  lemma EntriesCompleted(b: Book)
    requires EntriesPass(b)
    ensures var c := b.(addr := Completed(b.addr, b.info)); EntriesPass(c) && (NoStrays(b) ==> NoStrays(c))
  {
    var c := b.(addr := Completed(b.addr, b.info));
    forall id | id in c.info ensures EntryPasses(c, id) {
      assert EntryPasses(b, id);
      assert 0 in b.info ==> EntryPasses(b, 0);
    }
  }

  lemma TablesSame(env: Env, b: Book, addr: map<NetAddr, int>)
    ensures var c := b.(addr := addr);
        (TriedOk(env, c) <==> TriedOk(env, b)) && (NewOk(env, c) <==> NewOk(env, b)) && (RefsOk(c) <==> RefsOk(b))
    ensures forall s | s in b.tried :: TriedSlotOk(env, b.(addr := addr), s) <==> TriedSlotOk(env, b, s)
  {
    hide TriedSlot, NewSlotAt;
  }

  /** The check completes the index itself, so that of the three only two remain to be asked for. */
  lemma CompletedConsistent(env: Env, b: Book)
    requires Passes(env, b) && IdsOk(b) && NoStrays(b)
    ensures Consistent(env, b.(addr := Completed(b.addr, b.info)))
  {
    hide TriedOk, NewOk, EntriesPass, NoStrays;
    EntriesCompleted(b);
    TablesSame(env, b, Completed(b.addr, b.info));
    PassesExact(env, b.(addr := Completed(b.addr, b.info)));
  }

  /** The check notices that a cleared manager kept entries; of addresses still in the index it notices nothing. */
  lemma ClearedPasses(env: Env, b: Book, key: nat)
    requires key != 0
    ensures Passes(env, O.Clear(b, key)) <==> b.info == map[]
  {
    var c := O.Clear(b, key);
    if b.info == map[] {
      assert TriedIds(c.info) == {} && NewIds(c.info) == {};
    } else {
      var id: int := Pick(c.info.Keys);
      assert id in c.info && !EntryPasses(c, id);
    }
  }

  // ----- the loops

  ghost predicate Gathered(info: map<int, Info>, ids: seq<int>, k: nat, setTried: set<int>, mapNew: map<int, int>) {
    && k <= |ids| && (forall x | x in ids :: x in info)
    && (forall x :: x in setTried <==> x in ids[..k] && info[x].inTried)
    && (forall x :: x in mapNew <==> x in ids[..k] && !info[x].inTried)
    && (forall x | x in mapNew :: mapNew[x] == info[x].refCount)
  }

  lemma Gather(info: map<int, Info>, ids: seq<int>, k: nat, setTried: set<int>, mapNew: map<int, int>)
    requires Gathered(info, ids, k, setTried, mapNew) && k < |ids|
    ensures ids[k] in info
    ensures var i := info[ids[k]]; Gathered(info, ids, k + 1, if i.inTried then setTried + {ids[k]} else
        setTried, if i.inTried then mapNew else mapNew[ids[k] := i.refCount])
  {
    var n := ids[k];
    assert n in ids;
    assert ids[..k + 1] == ids[..k] + [n];
  }

  lemma GatheredAll(info: map<int, Info>, ids: seq<int>, setTried: set<int>, mapNew: map<int, int>)
    requires Gathered(info, ids, |ids|, setTried, mapNew) && forall x | x in info :: x in ids
    ensures setTried == TriedIds(info) && mapNew.Keys == NewIds(info) && forall x | x in mapNew ::
        mapNew[x] == info[x].refCount
  {
    assert ids[..|ids|] == ids;
    assert forall x :: x in setTried <==> x in info && info[x].inTried;
    assert forall x :: x in mapNew.Keys <==> x in info && !info[x].inTried;
  }

  /** Test one entry; a failed lookup of its address enters it in the index. */
  method CheckEntry(m: AddrMan, n: int, ghost b: Book, ghost seen: bool) returns (r: int)
    requires n in m.mapInfo && b == m.Model().(addr := b.addr) && m.mapAddr ==
        if seen then Completed(b.addr, b.info) else b.addr
    requires seen ==> 0 in b.info && IndexedAs(b.addr, b.info[0].addr.ip, 0)
    modifies m`mapAddr
    ensures r == 0 <==> EntryPasses(b, n)
    ensures r != 0 ==> EntryFault(b, n, r)
    ensures r == 0 ==> m.mapAddr == if seen || n == 0 then Completed(b.addr, b.info) else b.addr
  {
    var info := m.mapInfo[n];
    if info.inTried {
      if info.lastSuccess == 0 {
        return -1;
      }
      if info.refCount != 0 {
        return -2;
      }
    } else {
      if info.refCount < 0 || info.refCount > NEW_BUCKETS_PER_ADDRESS {
        return -3;
      }
      if info.refCount == 0 {
        return -4;
      }
    }
    if info.addr.ip !in m.mapAddr {
      m.mapAddr := m.mapAddr[info.addr.ip := 0];
    }
    if m.mapAddr[info.addr.ip] != n {
      return -5;
    }
    if info.randomPos < 0 || info.randomPos >= |m.vRandom| || m.vRandom[info.randomPos] != n {
      return -14;
    }
    if info.lastTry < 0 {
      return -6;
    }
    if info.lastSuccess < 0 {
      return -8;
    }
    return 0;
  }

  ghost predicate FirstPass(b: Book, ids: seq<int>, k: nat) {
    k <= |ids| && forall x | x in ids[..k] :: x in b.info && EntryPasses(b, x)
  }

  lemma FirstPassNext(b: Book, ids: seq<int>, k: nat)
    requires FirstPass(b, ids, k) && k < |ids| && ids[k] in b.info
    ensures EntryPasses(b, ids[k]) ==> FirstPass(b, ids, k + 1)
    ensures 0 in ids[..k + 1] <==> 0 in ids[..k] || ids[k] == 0
    ensures 0 in ids[..k] ==> 0 in b.info && IndexedAs(b.addr, b.info[0].addr.ip, 0)
  {
    assert ids[..k + 1] == ids[..k] + [ids[k]];
    assert 0 in ids[..k] ==> EntryPasses(b, 0);
  }

  lemma FirstPassAll(b: Book, ids: seq<int>)
    requires FirstPass(b, ids, |ids|) && forall x :: x in ids <==> x in b.info.Keys
    ensures EntriesPass(b) && (0 in ids[..|ids|] <==> 0 in b.info)
  {
    assert ids[..|ids|] == ids;
  }

  /** Test every entry on its own, and collect the tried ones and the reference counts of the others. */
  method CheckEntries(m: AddrMan) returns (r: int, setTried: set<int>, mapNew: map<int, int>)
    modifies m`mapAddr
    ensures r == 0 <==> EntriesPass(old(m.Model()))
    ensures r != 0 ==> exists id :: id in old(m.mapInfo) && EntryFault(old(m.Model()), id, r)
    ensures r == 0 ==>
        setTried == TriedIds(m.mapInfo) && mapNew.Keys == NewIds(m.mapInfo) && forall x | x in mapNew ::
        mapNew[x] == m.mapInfo[x].refCount
    ensures r == 0 ==> m.mapAddr == Completed(old(m.mapAddr), m.mapInfo)
  {
    hide Gathered, FirstPass, EntryPasses, EntryFault, TriedIds, NewIds;
    ghost var b := m.Model();
    setTried, mapNew := {}, map[];
    var ids := Sorted(m.mapInfo.Keys);
    NoneGathered(m.mapInfo, ids);
    NonePassed(b, ids);
    for k := 0 to |ids|
      invariant Gathered(m.mapInfo, ids, k, setTried, mapNew) && FirstPass(b, ids, k)
      invariant m.mapAddr == if 0 in ids[..k] then Completed(b.addr, b.info) else b.addr
    {
      Gather(m.mapInfo, ids, k, setTried, mapNew);
      FirstPassNext(b, ids, k);
      var n := ids[k];
      r := CheckEntry(m, n, b, 0 in ids[..k]);
      if r != 0 {
        return;
      }
      if m.mapInfo[n].inTried {
        setTried := setTried + {n};
      } else {
        mapNew := mapNew[n := m.mapInfo[n].refCount];
      }
    }
    GatheredAll(m.mapInfo, ids, setTried, mapNew);
    FirstPassAll(b, ids);
    r := 0;
  }

  lemma NonePassed(b: Book, ids: seq<int>)
    ensures FirstPass(b, ids, 0)
  {
  }

  lemma NoneGathered(info: map<int, Info>, ids: seq<int>)
    requires forall x | x in ids :: x in info
    ensures Gathered(info, ids, 0, {}, map[])
  {
  }

  // ----- the tables

  predicate Before(s: Slot, n: nat, i: nat) {
    s.bucket < n || (s.bucket == n && s.pos < i)
  }

  /** The tried slots before a place in the table are right; `rest` are the tried entries not met there. */
  ghost predicate TriedUpTo(env: Env, b: Book, n: nat, i: nat, rest: set<int>) {
    && (forall s | s in b.tried && Before(s, n, i) :: TriedSlotOk(env, b, s))
    && (forall x :: x in rest <==>
        x in TriedIds(b.info) && forall s | s in b.tried && Before(s, n, i) :: b.tried[s] != x)
  }

  lemma TriedStart(env: Env, b: Book)
    ensures TriedUpTo(env, b, 0, 0, TriedIds(b.info))
  {
  }

  lemma TriedFree(env: Env, b: Book, n: nat, i: nat, rest: set<int>)
    requires TriedUpTo(env, b, n, i, rest) && Slot(n, i) !in b.tried
    ensures TriedUpTo(env, b, n, i + 1, rest)
  {
    assert forall s | s in b.tried :: Before(s, n, i + 1) <==> Before(s, n, i);
  }

  /** A right slot holds an entry not met before, as every entry has one slot only. */
  lemma TriedTaken(env: Env, b: Book, n: nat, i: nat, rest: set<int>)
    requires TriedUpTo(env, b, n, i, rest) && Slot(n, i) in b.tried
    ensures var id := b.tried[Slot(n, i)];
      && (TriedSlotOk(env, b, Slot(n, i)) ==> id in rest && TriedUpTo(env, b, n, i + 1, rest - {id}))
      && (id in rest ==> id in b.info && b.info[id].inTried)
  {
    hide TriedSlot;
    var t := Slot(n, i);
    var id: int := b.tried[t];
    assert forall s | s in b.tried :: Before(s, n, i + 1) <==> Before(s, n, i) || s == t;
    if TriedSlotOk(env, b, t) {
      forall s | s in b.tried && Before(s, n, i) ensures b.tried[s] != id {
        assert TriedSlotOk(env, b, s);
      }
      assert id in TriedIds(b.info);
    }
    if id in rest {
      assert id in TriedIds(b.info);
    }
  }

  lemma TriedTwice(env: Env, b: Book, n: nat, i: nat, rest: set<int>)
    requires TriedUpTo(env, b, n, i, rest) && Slot(n, i) in b.tried && b.tried[Slot(n, i)] !in rest
    ensures TriedFault(env, b, Slot(n, i), -11)
  {
    var id := b.tried[Slot(n, i)];
    if id in TriedIds(b.info) {
      var s :| s in b.tried && Before(s, n, i) && b.tried[s] == id;
      assert s != Slot(n, i);
    }
  }

  lemma TriedRow(env: Env, b: Book, n: nat, rest: set<int>)
    requires TriedUpTo(env, b, n, BUCKET_SIZE, rest) && forall s | s in b.tried :: s.pos < BUCKET_SIZE
    ensures TriedUpTo(env, b, n + 1, 0, rest)
  {
    assert forall s | s in b.tried :: Before(s, n + 1, 0) <==> Before(s, n, BUCKET_SIZE);
  }

  lemma TriedEnd(env: Env, b: Book, rest: set<int>)
    requires TriedUpTo(env, b, TRIED_BUCKET_COUNT, 0, rest) && forall s | s in b.tried :: s.bucket < TRIED_BUCKET_COUNT
    ensures (forall s | s in b.tried :: TriedSlotOk(env, b, s)) && (rest == {} <==> TriedOk(env, b))
    ensures rest != {} ==> exists id :: LeftOver(b, id, -13)
  {
    hide TriedSlot;
    assert forall s | s in b.tried :: Before(s, TRIED_BUCKET_COUNT, 0) && TriedSlotOk(env, b, s);
    if rest != {} {
      var x: int := Pick(rest);
      assert forall s | s in b.tried && Before(s, TRIED_BUCKET_COUNT, 0) :: b.tried[s] != x;
      assert LeftOver(b, x, -13);
    }
    if rest == {} {
      forall id | id in b.info && b.info[id].inTried ensures var s := TriedSlot(env, b.key, b.info[id].addr);
          s in b.tried && b.tried[s] == id {
        assert id in TriedIds(b.info) && id !in rest;
      }
    }
  }

  lemma TriedSlots(env: Env, b: Book)
    requires TriedOk(env, b)
    ensures forall s | s in b.tried :: TriedSlotOk(env, b, s)
  {
  }

  /** Go through the tried table, and keep what has not been met of the tried entries. */
  method CheckTried(m: AddrMan, setTried: set<int>) returns (r: int, rest: set<int>)
    requires m.Shape() && setTried == TriedIds(m.mapInfo)
    ensures r == 0 <==> forall s | s in m.tried :: TriedSlotOk(m.env, m.Model(), s)
    ensures r == 0 ==> (rest == {} <==> TriedOk(m.env, m.Model()))
    ensures r != 0 ==> TableFault(m.env, m.Model(), r)
    ensures r == 0 && rest != {} ==> TableFault(m.env, m.Model(), -13)
  {
    hide TriedUpTo, TriedOk, TriedIds;
    ghost var b := m.Model();
    rest := setTried;
    TriedStart(m.env, b);
    for n := 0 to TRIED_BUCKET_COUNT
      invariant TriedUpTo(m.env, b, n, 0, rest)
    {
      for i := 0 to BUCKET_SIZE
        invariant TriedUpTo(m.env, b, n, i, rest)
      {
        var id := m.vvTried[n, i];
        if id != -1 {
          TriedTaken(m.env, b, n, i, rest);
          if id !in rest {
            TriedTwice(m.env, b, n, i, rest);
            return -11, rest;
          }
          if TriedBucket(m.env, m.nKey, m.mapInfo[id].addr) != n {
            return -17, rest;
          }
          if BucketPosition(m.env, m.nKey, false, n, m.mapInfo[id].addr) != i {
            return -18, rest;
          }
          rest := rest - {id};
        } else {
          TriedFree(m.env, b, n, i, rest);
        }
      }
      TriedRow(m.env, b, n, rest);
    }
    TriedEnd(m.env, b, rest);
    r := 0;
  }

  ghost function Met(news: map<Slot, int>, x: int, n: nat, i: nat): set<Slot> {
    set s | s in news && news[s] == x && Before(s, n, i)
  }

  ghost predicate NewSlotOk(env: Env, b: Book, s: Slot)
    requires s in b.news
  {
    b.news[s] in b.info && !b.info[b.news[s]].inTried && s == NewSlotAt(env, b.key, b.info[b.news[s]].addr, s.bucket)
  }

  /**
   The new slots before a place in the table are right; `rest` says how many further slots each new entry should have.
   */
  ghost predicate NewUpTo(env: Env, b: Book, n: nat, i: nat, rest: map<int, int>) {
    && (forall s | s in b.news && Before(s, n, i) :: NewSlotOk(env, b, s))
    && (forall x :: x in rest ==> x in NewIds(b.info) && rest[x] == b.info[x].refCount - |Met(b.news, x, n, i)| > 0)
    && (forall x | x in NewIds(b.info) && x !in rest :: b.info[x].refCount == |Met(b.news, x, n, i)|)
  }

  lemma NewStart(env: Env, b: Book, mapNew: map<int, int>)
    requires EntriesPass(b) && mapNew.Keys == NewIds(b.info) && forall x | x in mapNew ::
        mapNew[x] == b.info[x].refCount
    ensures NewUpTo(env, b, 0, 0, mapNew)
  {
    forall x | x in mapNew ensures x in NewIds(b.info) && |Met(b.news, x, 0, 0)| == 0 && mapNew[x] > 0 {
      assert x in mapNew.Keys;
      assert EntryPasses(b, x);
      assert Met(b.news, x, 0, 0) == {};
    }
    assert forall x | x in NewIds(b.info) :: x in mapNew.Keys;
  }

  lemma MetSame(news: map<Slot, int>, x: int, n: nat, i: nat)
    requires Slot(n, i) !in news || news[Slot(n, i)] != x
    ensures Met(news, x, n, i + 1) == Met(news, x, n, i)
  {
    assert forall s | s in news && news[s] == x :: Before(s, n, i + 1) <==> Before(s, n, i);
  }

  lemma MetOneMore(news: map<Slot, int>, x: int, n: nat, i: nat)
    requires Slot(n, i) in news && news[Slot(n, i)] == x
    ensures |Met(news, x, n, i + 1)| == |Met(news, x, n, i)| + 1
  {
    assert forall s | s in news :: Before(s, n, i + 1) <==> Before(s, n, i) || s == Slot(n, i);
    assert Met(news, x, n, i + 1) == Met(news, x, n, i) + {Slot(n, i)};
  }

  lemma NewFree(env: Env, b: Book, n: nat, i: nat, rest: map<int, int>)
    requires NewUpTo(env, b, n, i, rest) && Slot(n, i) !in b.news
    ensures NewUpTo(env, b, n, i + 1, rest)
  {
    hide Met;
    assert forall s | s in b.news :: Before(s, n, i + 1) <==> Before(s, n, i);
    forall x ensures Met(b.news, x, n, i + 1) == Met(b.news, x, n, i) {
      MetSame(b.news, x, n, i);
    }
  }

  lemma NewTaken(env: Env, b: Book, n: nat, i: nat, rest: map<int, int>)
    requires NewUpTo(env, b, n, i, rest) && Slot(n, i) in b.news
    ensures var id := b.news[Slot(n, i)]; id in rest ==> id in b.info && !b.info[id].inTried
    ensures var id := b.news[Slot(n, i)]; id in rest && NewSlotOk(env, b, Slot(n, i)) ==>
      NewUpTo(env, b, n, i + 1, if rest[id] == 1 then rest - {id} else rest[id := rest[id] - 1])
  {
    hide Met, NewSlotAt;
    var t := Slot(n, i);
    assert forall s | s in b.news :: Before(s, n, i + 1) <==> Before(s, n, i) || s == t;
    MetOneMore(b.news, b.news[t], n, i);
    forall x | x != b.news[t] ensures Met(b.news, x, n, i + 1) == Met(b.news, x, n, i) {
      MetSame(b.news, x, n, i);
    }
  }

  /**
   A slot whose entry has no slots to come belongs to an entry with too small a count, or to none in the new table.
   */
  lemma TooMany(env: Env, b: Book, n: nat, i: nat, rest: map<int, int>)
    requires NewUpTo(env, b, n, i, rest) && Slot(n, i) in b.news && b.news[Slot(n, i)] !in rest
    ensures NewFault(env, b, Slot(n, i), -12) && (NewOk(env, b) ==> !RefsOk(b))
  {
    hide NewSlotAt;
    var x := b.news[Slot(n, i)];
    var met := Met(b.news, x, n, i);
    assert met + {Slot(n, i)} <= SlotsOf(b.news, x);
    SubsetSize(met + {Slot(n, i)}, SlotsOf(b.news, x));
  }

  lemma NewRow(env: Env, b: Book, n: nat, rest: map<int, int>)
    requires NewUpTo(env, b, n, BUCKET_SIZE, rest) && forall s | s in b.news :: s.pos < BUCKET_SIZE
    ensures NewUpTo(env, b, n + 1, 0, rest)
  {
    assert forall s | s in b.news :: Before(s, n + 1, 0) <==> Before(s, n, BUCKET_SIZE);
    forall x ensures Met(b.news, x, n + 1, 0) == Met(b.news, x, n, BUCKET_SIZE) {
    }
  }

  lemma NewEnd(env: Env, b: Book, rest: map<int, int>)
    requires NewUpTo(env, b, NEW_BUCKET_COUNT, 0, rest) && (forall s | s in b.news :: s.bucket < NEW_BUCKET_COUNT)
        && EntriesPass(b)
    ensures NewOk(env, b) && (|rest| == 0 <==> RefsOk(b))
    ensures |rest| != 0 ==> exists id :: LeftOver(b, id, -15)
  {
    hide NewSlotAt;
    assert forall s | s in b.news :: Before(s, NEW_BUCKET_COUNT, 0) && NewSlotOk(env, b, s);
    forall x ensures Met(b.news, x, NEW_BUCKET_COUNT, 0) == SlotsOf(b.news, x) {
    }
    if |rest| != 0 {
      var x: int := Pick(rest.Keys);
      assert x in rest && x in b.info;
      assert b.info[x].refCount > |SlotsOf(b.news, x)|;
      assert LeftOver(b, x, -15);
    } else {
      forall id | id in b.info ensures b.info[id].refCount == |SlotsOf(b.news, id)| {
        assert EntryPasses(b, id) && id !in rest;
        if b.info[id].inTried {
          NoNewSlots(env, b, id);
        }
      }
    }
  }

  /** Go through the new table, and count the references down. */
  method CheckNew(m: AddrMan, mapNew: map<int, int>) returns (r: int, rest: map<int, int>)
    requires m.Shape() && EntriesPass(m.Model())
    requires mapNew.Keys == NewIds(m.mapInfo) && forall x | x in mapNew :: mapNew[x] == m.mapInfo[x].refCount
    ensures r == 0 && |rest| == 0 <==> NewOk(m.env, m.Model()) && RefsOk(m.Model())
    ensures r != 0 ==> TableFault(m.env, m.Model(), r)
    ensures r == 0 && |rest| != 0 ==> TableFault(m.env, m.Model(), -15)
  {
    hide NewUpTo, NewIds, EntriesPass;
    ghost var b := m.Model();
    rest := mapNew;
    NewStart(m.env, b, mapNew);
    for n := 0 to NEW_BUCKET_COUNT
      invariant NewUpTo(m.env, b, n, 0, rest)
    {
      for i := 0 to BUCKET_SIZE
        invariant NewUpTo(m.env, b, n, i, rest)
      {
        var id := m.vvNew[n, i];
        if id != -1 {
          NewTaken(m.env, b, n, i, rest);
          if id !in rest {
            TooMany(m.env, b, n, i, rest);
            return -12, rest;
          }
          if BucketPosition(m.env, m.nKey, true, n, m.mapInfo[id].addr) != i {
            return -19, rest;
          }
          ghost var left := rest;
          rest := rest[id := rest[id] - 1];
          if rest[id] == 0 {
            rest := rest - {id};
            assert rest == left - {id};
          }
        } else {
          NewFree(m.env, b, n, i, rest);
        }
      }
      NewRow(m.env, b, n, rest);
    }
    NewEnd(m.env, b, rest);
    r := 0;
  }

  /** The whole check returns zero exactly of a manager that passes; it may leave entry 0 indexed that was not. */
  method Check(m: AddrMan) returns (r: int)
    requires m.Shape()
    modifies m`mapAddr
    ensures r == 0 <==> Passes(m.env, old(m.Model()))
    ensures r != 0 ==> Fault(m.env, old(m.Model()), r)
    ensures r == 0 ==> m.mapAddr == Completed(old(m.mapAddr), m.mapInfo)
    ensures old(m.Valid()) ==> r == 0 && m.mapAddr == old(m.mapAddr)
  {
    hide EntriesPass, TriedOk, NewOk, RefsOk, EntryFault, TableFault;
    ghost var b := m.Model();
    if Consistent(m.env, b) {
      PassesExact(m.env, b);
    }
    if |m.vRandom| != m.nTried + m.nNew {
      return -7;
    }
    var setTried, mapNew;
    r, setTried, mapNew := CheckEntries(m);
    if r != 0 {
      return;
    }
    EntriesCompleted(b);
    TablesSame(m.env, b, m.mapAddr);
    if TriedOk(m.env, b) {
      TriedSlots(m.env, b);
    }
    if |setTried| != m.nTried {
      return -9;
    }
    if |mapNew| != m.nNew {
      return -10;
    }
    r, setTried := CheckTried(m, setTried);
    if r != 0 {
      TableFaultKept(m.env, b, m.mapAddr, r);
      return;
    }
    r, mapNew := CheckNew(m, mapNew);
    if r != 0 {
      TableFaultKept(m.env, b, m.mapAddr, r);
      return;
    }
    if |setTried| != 0 {
      TableFaultKept(m.env, b, m.mapAddr, -13);
      return -13;
    }
    if |mapNew| != 0 {
      TableFaultKept(m.env, b, m.mapAddr, -15);
      return -15;
    }
    if m.nKey == 0 {
      return -16;
    }
    r := 0;
  }
}
