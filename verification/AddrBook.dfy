/**
 The value of an address manager and the effect of each of its operations on that value.

 `Book` collects the fields of the manager.  The two bucket tables are finite maps from slots to
 identifiers; a slot outside the domain is the source's -1.  Hashing, address grouping and
 routability are outside this model and enter as functions in `Env`.
 */
module AddrBook {

  const TRIED_BUCKET_COUNT: nat := 256
  const NEW_BUCKET_COUNT: nat := 1024
  const BUCKET_SIZE: nat := 64
  const TRIED_BUCKETS_PER_GROUP: nat := 8
  const NEW_BUCKETS_PER_SOURCE_GROUP: nat := 64
  const NEW_BUCKETS_PER_ADDRESS: nat := 8
  const HORIZON_DAYS := 30
  const RETRIES := 3
  const MAX_FAILURES := 10
  const MIN_FAIL_DAYS := 7
  const DAY := 24 * 60 * 60
  const UINT32 := 0x1_0000_0000

  type NetAddr = nat

  /** A network address with its port (CService). */
  datatype Service = Service(ip: NetAddr, port: nat)

  /** What the four bucket hashes digest. */
  datatype HashInput =
    | TriedAddress(key: nat, addr: Service)
    | TriedGroup(key: nat, group: nat, choice: nat)
    | NewGroup(key: nat, group: nat, sourceGroup: nat)
    | NewSource(key: nat, sourceGroup: nat, choice: nat)
    | Position(key: nat, isNew: bool, bucket: nat, addr: Service)

  datatype Env = Env(hash: HashInput -> nat, group: NetAddr -> nat, routable: NetAddr -> bool)

  datatype Info = Info(
    addr: Service, services: bv64, time: int, source: NetAddr, lastSuccess: int, lastTry: int,
    attempts: int, refCount: int, inTried: bool, randomPos: int)

  datatype Slot = Slot(bucket: nat, pos: nat)

  datatype Book = Book(
    key: nat, idCount: int, info: map<int, Info>, addr: map<NetAddr, int>, random: seq<int>,
    nTried: int, tried: map<Slot, int>, nNew: int, news: map<Slot, int>)

  // ----- where an entry belongs

  function TriedBucket(env: Env, key: nat, a: Service): nat {
    var hash1 := env.hash(TriedAddress(key, a));
    env.hash(TriedGroup(key, env.group(a.ip), hash1 % TRIED_BUCKETS_PER_GROUP)) % TRIED_BUCKET_COUNT
  }

  function NewBucket(env: Env, key: nat, a: Service, source: NetAddr): nat {
    var sourceGroup := env.group(source);
    var hash1 := env.hash(NewGroup(key, env.group(a.ip), sourceGroup));
    env.hash(NewSource(key, sourceGroup, hash1 % NEW_BUCKETS_PER_SOURCE_GROUP)) % NEW_BUCKET_COUNT
  }

  function BucketPosition(env: Env, key: nat, isNew: bool, bucket: nat, a: Service): nat {
    env.hash(Position(key, isNew, bucket, a)) % BUCKET_SIZE
  }

  function NewSlotAt(env: Env, key: nat, a: Service, bucket: nat): Slot {
    Slot(bucket, BucketPosition(env, key, true, bucket, a))
  }

  function NewSlot(env: Env, key: nat, a: Service, source: NetAddr): Slot {
    NewSlotAt(env, key, a, NewBucket(env, key, a, source))
  }

  function TriedSlot(env: Env, key: nat, a: Service): Slot {
    var bucket := TriedBucket(env, key, a);
    Slot(bucket, BucketPosition(env, key, false, bucket, a))
  }

  predicate IsTerrible(i: Info, now: int) {
    if i.lastTry != 0 && i.lastTry >= now - 60 then false
    else if i.time > now + 10 * 60 then true
    else if i.time == 0 || now - i.time > HORIZON_DAYS * DAY then true
    else if i.lastSuccess == 0 && i.attempts >= RETRIES then true
    else now - i.lastSuccess > MIN_FAIL_DAYS * DAY && i.attempts >= MAX_FAILURES
  }

  // ----- the invariant: everything the consistency check demands, and what it leaves to its callers

  function SlotsOf(table: map<Slot, int>, id: int): set<Slot> {
    set s | s in table && table[s] == id
  }

  ghost function TriedIds(info: map<int, Info>): set<int> {
    set id | id in info && info[id].inTried
  }

  ghost function NewIds(info: map<int, Info>): set<int> {
    set id | id in info && !info[id].inTried
  }

  ghost predicate IdsOk(b: Book) {
    0 <= b.idCount && forall id | id in b.info :: 0 <= id < b.idCount
  }

  ghost predicate RandomOk(b: Book) {
    && (forall i | 0 <= i < |b.random| :: b.random[i] in b.info && b.info[b.random[i]].randomPos == i)
    && (forall id | id in b.info :: 0 <= b.info[id].randomPos < |b.random| && b.random[b.info[id].randomPos] == id)
  }

  ghost predicate AddrOk(b: Book) {
    && (forall id | id in b.info :: b.info[id].addr.ip in b.addr && b.addr[b.info[id].addr.ip] == id)
    && (forall ip | ip in b.addr :: b.addr[ip] in b.info && b.info[b.addr[ip]].addr.ip == ip)
  }

  ghost predicate NewOk(env: Env, b: Book) {
    forall s | s in b.news ::
      && b.news[s] in b.info
      && !b.info[b.news[s]].inTried
      && s.bucket < NEW_BUCKET_COUNT
      && s == NewSlotAt(env, b.key, b.info[b.news[s]].addr, s.bucket)
  }

  ghost predicate TriedOk(env: Env, b: Book) {
    && (forall s | s in b.tried ::
          && b.tried[s] in b.info
          && b.info[b.tried[s]].inTried
          && s == TriedSlot(env, b.key, b.info[b.tried[s]].addr))
    && (forall id | id in b.info && b.info[id].inTried ::
          var s := TriedSlot(env, b.key, b.info[id].addr); s in b.tried && b.tried[s] == id)
  }

  /** Entries in `pending` may have no reference yet: they are between creation and placement. */
  ghost predicate CountsOk(b: Book, pending: set<int>) {
    && b.nTried == |TriedIds(b.info)|
    && b.nNew == |NewIds(b.info)|
    && (forall id | id in b.info ::
          && b.info[id].refCount == |SlotsOf(b.news, id)| <= NEW_BUCKETS_PER_ADDRESS
          && (!b.info[id].inTried && id !in pending ==> 1 <= b.info[id].refCount))
  }

  ghost predicate TimesOk(b: Book) {
    forall id | id in b.info ::
      && 0 <= b.info[id].lastTry
      && 0 <= b.info[id].lastSuccess
      && (b.info[id].inTried ==> b.info[id].lastSuccess != 0)
  }

  ghost predicate Almost(env: Env, b: Book, pending: set<int>) {
    && b.key != 0
    && IdsOk(b) && RandomOk(b) && AddrOk(b) && NewOk(env, b) && TriedOk(env, b)
    && CountsOk(b, pending) && TimesOk(b)
  }

  ghost predicate Consistent(env: Env, b: Book) {
    Almost(env, b, {})
  }

  // ----- elementary operations

  function SwapRandom(b: Book, i: int, j: int): Book
    requires 0 <= i < |b.random| && 0 <= j < |b.random|
    requires b.random[i] in b.info && b.random[j] in b.info
  {
    if i == j then b else
      var id1, id2 := b.random[i], b.random[j];
      var info1 := b.info[id1 := b.info[id1].(randomPos := j)];
      b.(info := info1[id2 := info1[id2].(randomPos := i)], random := b.random[i := id2][j := id1])
  }

  function Create(b: Book, a: Service, services: bv64, time: int, source: NetAddr): Book {
    var id := b.idCount;
    b.(idCount := id + 1,
       info := b.info[id := Info(a, services, time, source, 0, 0, 0, 0, false, |b.random|)],
       addr := b.addr[a.ip := id],
       random := b.random + [id])
  }

  /** The three assertions guarding deletion are preconditions here. */
  function Delete(b: Book, id: int): Book
    requires RandomOk(b)
    requires id in b.info && !b.info[id].inTried && b.info[id].refCount == 0
  {
    var last := |b.random| - 1;
    var b1 := SwapRandom(b, b.info[id].randomPos, last);
    b1.(random := b1.random[..last], addr := b1.addr - {b.info[id].addr.ip}, info := b1.info - {id},
        nNew := b1.nNew - 1)
  }

  function Unref(b: Book, s: Slot): Book
    requires s in b.news && b.news[s] in b.info
  {
    var id := b.news[s];
    b.(info := b.info[id := b.info[id].(refCount := b.info[id].refCount - 1)], news := b.news - {s})
  }

  function ClearNew(b: Book, s: Slot): Book
    requires RandomOk(b)
    requires s in b.news ==> b.news[s] in b.info && !b.info[b.news[s]].inTried && b.info[b.news[s]].refCount > 0
  {
    if s !in b.news then b else
      var b1 := Unref(b, s);
      if b1.info[b.news[s]].refCount == 0 then Delete(b1, b.news[s]) else b1
  }

  function Ref(b: Book, s: Slot, id: int): Book
    requires id in b.info
  {
    b.(info := b.info[id := b.info[id].(refCount := b.info[id].refCount + 1)], news := b.news[s := id])
  }

  // ----- lemmas: sets of slots and of entries

  lemma SlotsAfterInsert(table: map<Slot, int>, s: Slot, id: int, other: int)
    requires s !in table
    ensures |SlotsOf(table[s := id], other)| == |SlotsOf(table, other)| + if other == id then 1 else 0
  {
    if other == id {
      assert SlotsOf(table[s := id], other) == SlotsOf(table, other) + {s};
    } else {
      assert SlotsOf(table[s := id], other) == SlotsOf(table, other);
    }
  }

  lemma SlotsAfterRemove(table: map<Slot, int>, s: Slot, other: int)
    requires s in table
    ensures |SlotsOf(table - {s}, other)| == |SlotsOf(table, other)| - if other == table[s] then 1 else 0
  {
    if other == table[s] {
      assert SlotsOf(table - {s}, other) == SlotsOf(table, other) - {s};
    } else {
      assert SlotsOf(table - {s}, other) == SlotsOf(table, other);
    }
  }

  /** Equal entries except for their position in the random order. */
  ghost predicate SameButPosition(m: map<int, Info>, n: map<int, Info>) {
    m.Keys == n.Keys && forall id | id in m :: n[id] == m[id].(randomPos := n[id].randomPos)
  }

  lemma RepositionCounts(b: Book, c: Book, pending: set<int>)
    requires CountsOk(b, pending) && TimesOk(b)
    requires SameButPosition(b.info, c.info)
    requires c == b.(info := c.info, random := c.random)
    ensures CountsOk(c, pending) && TimesOk(c)
  {
    assert forall id | id in c.info :: id in b.info && c.info[id].inTried == b.info[id].inTried;
    assert TriedIds(c.info) == TriedIds(b.info);
    assert NewIds(c.info) == NewIds(b.info);
  }

  lemma RepositionTables(env: Env, b: Book, c: Book)
    requires NewOk(env, b) && TriedOk(env, b)
    requires SameButPosition(b.info, c.info)
    requires c == b.(info := c.info, random := c.random)
    ensures NewOk(env, c) && TriedOk(env, c)
  {
    hide TriedSlot, NewSlotAt;
    assert forall id | id in c.info :: c.info[id].addr == b.info[id].addr && c.info[id].inTried == b.info[id].inTried;
  }

  lemma RepositionIndex(b: Book, c: Book)
    requires IdsOk(b) && AddrOk(b)
    requires SameButPosition(b.info, c.info)
    requires c == b.(info := c.info, random := c.random)
    ensures IdsOk(c) && AddrOk(c)
  {
  }

  lemma RepositionKeeps(env: Env, b: Book, c: Book, pending: set<int>)
    requires Almost(env, b, pending)
    requires SameButPosition(b.info, c.info) && RandomOk(c)
    requires c == b.(info := c.info, random := c.random)
    ensures Almost(env, c, pending)
  {
    RepositionIndex(b, c);
    RepositionTables(env, b, c);
    RepositionCounts(b, c, pending);
  }

  lemma SwapRandomOrder(b: Book, i: int, j: int)
    requires RandomOk(b)
    requires 0 <= i < |b.random| && 0 <= j < |b.random|
    ensures RandomOk(SwapRandom(b, i, j)) && SameButPosition(b.info, SwapRandom(b, i, j).info)
  {
    if i != j {
      assert b.random[i] != b.random[j];
    }
  }

  lemma SwapKeeps(env: Env, b: Book, i: int, j: int, pending: set<int>)
    requires Almost(env, b, pending)
    requires 0 <= i < |b.random| && 0 <= j < |b.random|
    ensures Almost(env, SwapRandom(b, i, j), pending)
  {
    SwapRandomOrder(b, i, j);
    RepositionKeeps(env, b, SwapRandom(b, i, j), pending);
  }

  lemma DropLastRandom(b: Book, id: int)
    requires RandomOk(b) && id in b.info && b.info[id].randomPos == |b.random| - 1
    ensures RandomOk(b.(random := b.random[..|b.random| - 1], info := b.info - {id}))
  {
  }

  lemma DropCounts(b: Book, c: Book, id: int, pending: set<int>)
    requires CountsOk(b, pending)
    requires id in b.info && !b.info[id].inTried
    requires c == b.(random := c.random, addr := c.addr, info := b.info - {id}, nNew := b.nNew - 1)
    ensures CountsOk(c, pending - {id})
  {
    assert TriedIds(c.info) == TriedIds(b.info);
    assert NewIds(c.info) == NewIds(b.info) - {id};
  }

  lemma Unreferenced(b: Book, id: int, pending: set<int>)
    requires CountsOk(b, pending) && id in b.info && b.info[id].refCount == 0
    ensures forall s | s in b.news :: b.news[s] != id
  {
    assert forall s | s in b.news && b.news[s] == id :: s in SlotsOf(b.news, id);
  }

  lemma DropTables(env: Env, b: Book, c: Book, id: int)
    requires NewOk(env, b) && TriedOk(env, b)
    requires id in b.info && !b.info[id].inTried
    requires forall s | s in b.news :: b.news[s] != id
    requires c == b.(random := c.random, addr := c.addr, info := b.info - {id}, nNew := b.nNew - 1)
    ensures NewOk(env, c) && TriedOk(env, c)
  {
    hide TriedSlot, NewSlotAt;
  }

  lemma DropIndex(b: Book, c: Book, id: int)
    requires IdsOk(b) && AddrOk(b) && TimesOk(b) && id in b.info
    requires c == b.(random := c.random, addr := b.addr - {b.info[id].addr.ip}, info := b.info - {id},
        nNew := b.nNew - 1)
    ensures IdsOk(c) && AddrOk(c) && TimesOk(c)
  {
  }

  lemma DropEntry(env: Env, b: Book, c: Book, id: int, pending: set<int>)
    requires Almost(env, b, pending)
    requires id in b.info && !b.info[id].inTried && b.info[id].refCount == 0
    requires c == b.(random := c.random, addr := b.addr - {b.info[id].addr.ip}, info := b.info - {id},
        nNew := b.nNew - 1)
    requires RandomOk(c)
    ensures Almost(env, c, pending - {id})
  {
    DropCounts(b, c, id, pending);
    Unreferenced(b, id, pending);
    DropTables(env, b, c, id);
    DropIndex(b, c, id);
  }

  lemma SwapToEnd(b: Book, id: int) returns (last: int, m: Book)
    requires RandomOk(b) && id in b.info
    ensures 0 <= b.info[id].randomPos <= last == |b.random| - 1
    ensures b.random[b.info[id].randomPos] in b.info && b.random[last] in b.info
    ensures m == SwapRandom(b, b.info[id].randomPos, last) && RandomOk(m) && |m.random| == |b.random|
    ensures id in m.info && m.info[id] == b.info[id].(randomPos := last)
  {
    last := |b.random| - 1;
    m := SwapRandom(b, b.info[id].randomPos, last);
    SwapRandomOrder(b, b.info[id].randomPos, last);
  }

  /** Deleting is swapping the entry to the end of the random order and dropping it there. */
  lemma DeleteSplit(b: Book, id: int) returns (last: int, m: Book)
    requires RandomOk(b)
    requires id in b.info && !b.info[id].inTried && b.info[id].refCount == 0
    ensures 0 <= b.info[id].randomPos <= last == |b.random| - 1
    ensures b.random[b.info[id].randomPos] in b.info && b.random[last] in b.info
    ensures m == SwapRandom(b, b.info[id].randomPos, last)
    ensures id in m.info && !m.info[id].inTried && m.info[id].refCount == 0
    ensures Delete(b, id) == m.(random := m.random[..last], addr := m.addr - {m.info[id].addr.ip},
        info := m.info - {id}, nNew := m.nNew - 1)
    ensures RandomOk(Delete(b, id))
  {
    hide RandomOk;
    last, m := SwapToEnd(b, id);
    DropLastRandom(m, id);
    SameOrder(m.(random := m.random[..last], info := m.info - {id}), Delete(b, id));
  }

  lemma SameOrder(b: Book, c: Book)
    requires RandomOk(b) && c.random == b.random && c.info == b.info
    ensures RandomOk(c)
  {
  }

  lemma DeleteKeeps(env: Env, b: Book, id: int, pending: set<int>)
    requires Almost(env, b, pending)
    requires id in b.info && !b.info[id].inTried && b.info[id].refCount == 0
    ensures Almost(env, Delete(b, id), pending - {id})
  {
    var last, m := DeleteSplit(b, id);
    assert Almost(env, m, pending) by { SwapKeeps(env, b, b.info[id].randomPos, last, pending); }
    DropEntry(env, m, Delete(b, id), id, pending);
  }

  // ----- releasing and taking a slot

  /** Changes to the bookkeeping fields of one entry that neither the index nor the order can see. */
  ghost predicate Relabelled(i: Info, j: Info) {
    j.addr == i.addr && j.randomPos == i.randomPos
  }

  lemma RelabelIndex(b: Book, c: Book, id: int)
    requires IdsOk(b) && RandomOk(b) && AddrOk(b)
    requires id in b.info && id in c.info && Relabelled(b.info[id], c.info[id])
    requires c.info == b.info[id := c.info[id]]
    requires c.idCount == b.idCount && c.addr == b.addr && c.random == b.random
    ensures IdsOk(c) && RandomOk(c) && AddrOk(c)
  {
    assert forall i | i in c.info :: i in b.info && Relabelled(b.info[i], c.info[i]);
  }

  /** An update of one entry that leaves it in the same table, with the slot tables untouched. */
  lemma RelabelTables(env: Env, b: Book, c: Book, id: int)
    requires NewOk(env, b) && TriedOk(env, b)
    requires id in b.info && id in c.info
    requires Relabelled(b.info[id], c.info[id]) && c.info[id].inTried == b.info[id].inTried
    requires c.info == b.info[id := c.info[id]]
    requires c.key == b.key && c.tried == b.tried && c.news == b.news
    ensures NewOk(env, c) && TriedOk(env, c)
  {
    hide TriedSlot, NewSlotAt;
    assert forall i | i in c.info ::
        i in b.info && c.info[i].addr == b.info[i].addr && c.info[i].inTried == b.info[i].inTried;
  }

  lemma RelabelIds(m: map<int, Info>, n: map<int, Info>, id: int)
    requires id in m && id in n && n == m[id := n[id]] && n[id].inTried == m[id].inTried
    ensures TriedIds(n) == TriedIds(m) && NewIds(n) == NewIds(m)
  {
  }

  lemma UnrefCounts(b: Book, s: Slot, pending: set<int>)
    requires CountsOk(b, pending) && s in b.news && b.news[s] in b.info
    ensures CountsOk(Unref(b, s), pending + {b.news[s]})
  {
    var c := Unref(b, s);
    RelabelIds(b.info, c.info, b.news[s]);
    forall id | id in c.info ensures c.info[id].refCount == |SlotsOf(c.news, id)| {
      SlotsAfterRemove(b.news, s, id);
    }
  }

  lemma UnrefKeeps(env: Env, b: Book, s: Slot, pending: set<int>)
    requires Almost(env, b, pending) && s in b.news
    ensures Almost(env, Unref(b, s), pending + {b.news[s]})
  {
    var c := Unref(b, s);
    UnrefCounts(b, s, pending);
    RelabelIndex(b, c, b.news[s]);
    RelabelTables(env, b, c.(news := b.news), b.news[s]);
    UnrefTimes(b, s);
    SubTable(env, c.(news := b.news), c);
  }

  lemma UnrefTimes(b: Book, s: Slot)
    requires TimesOk(b) && s in b.news && b.news[s] in b.info
    ensures TimesOk(Unref(b, s))
  {
  }

  lemma SubTable(env: Env, b: Book, c: Book)
    requires NewOk(env, b) && TriedOk(env, b)
    requires c == b.(news := c.news, nNew := c.nNew) && forall s | s in c.news :: s in b.news && c.news[s] == b.news[s]
    ensures NewOk(env, c) && TriedOk(env, c)
  {
    hide TriedSlot, NewSlotAt;
  }

  /** Emptying a slot keeps the book consistent, deleting the entry that loses its last reference. */
  lemma ClearNewKeeps(env: Env, b: Book, s: Slot, pending: set<int>)
    requires Almost(env, b, pending)
    requires s in b.news ==> b.news[s] !in pending
    ensures s in b.news ==> b.news[s] in b.info && !b.info[b.news[s]].inTried && b.info[b.news[s]].refCount > 0
    ensures Almost(env, ClearNew(b, s), pending)
    ensures s !in ClearNew(b, s).news
  {
    if s in b.news {
      var id := b.news[s];
      UnrefKeeps(env, b, s, pending);
      var c := Unref(b, s);
      if c.info[id].refCount == 0 {
        DeleteKeeps(env, c, id, pending + {id});
        assert pending + {id} - {id} == pending;
      } else {
        Settle(env, c, id, pending);
      }
    }
  }

  /** A referenced entry needs no exemption. */
  lemma Settle(env: Env, b: Book, id: int, pending: set<int>)
    requires Almost(env, b, pending + {id})
    requires id in b.info && b.info[id].refCount > 0
    ensures Almost(env, b, pending)
  {
  }

  lemma RefCounts(b: Book, s: Slot, id: int, pending: set<int>)
    requires CountsOk(b, pending) && id in b.info && s !in b.news
    requires b.info[id].refCount < NEW_BUCKETS_PER_ADDRESS
    ensures CountsOk(Ref(b, s, id), pending - {id})
  {
    var c := Ref(b, s, id);
    RelabelIds(b.info, c.info, id);
    forall i | i in c.info ensures c.info[i].refCount == |SlotsOf(c.news, i)| {
      SlotsAfterInsert(b.news, s, id, i);
    }
  }

  lemma RefTables(env: Env, b: Book, s: Slot, id: int)
    requires NewOk(env, b) && TriedOk(env, b)
    requires id in b.info && !b.info[id].inTried && s !in b.news
    requires s.bucket < NEW_BUCKET_COUNT && s == NewSlotAt(env, b.key, b.info[id].addr, s.bucket)
    ensures NewOk(env, Ref(b, s, id)) && TriedOk(env, Ref(b, s, id))
  {
    hide TriedSlot, NewSlotAt;
    var c := Ref(b, s, id);
    RelabelTables(env, b, c.(news := b.news), id);
  }

  /** Placing an entry into a free slot of its own settles it. */
  lemma RefKeeps(env: Env, b: Book, s: Slot, id: int, pending: set<int>)
    requires Almost(env, b, pending)
    requires id in b.info && !b.info[id].inTried && b.info[id].refCount < NEW_BUCKETS_PER_ADDRESS
    requires s !in b.news && s.bucket < NEW_BUCKET_COUNT && s == NewSlotAt(env, b.key, b.info[id].addr, s.bucket)
    ensures Almost(env, Ref(b, s, id), pending - {id})
  {
    var c := Ref(b, s, id);
    RefCounts(b, s, id, pending);
    RefTables(env, b, s, id);
    RelabelIndex(b, c, id);
    RelabelTimes(b, c, id);
  }

  lemma RelabelTimes(b: Book, c: Book, id: int)
    requires TimesOk(b) && id in b.info && id in c.info && c.info == b.info[id := c.info[id]]
    requires 0 <= c.info[id].lastTry && 0 <= c.info[id].lastSuccess
    requires c.info[id].inTried ==> c.info[id].lastSuccess != 0
    ensures TimesOk(c)
  {
  }

  // ----- creating an entry

  /** A created entry, counted as new and waiting for a slot. */
  function Enrol(b: Book, a: Service, services: bv64, time: int, source: NetAddr): Book {
    Create(b, a, services, time, source).(nNew := b.nNew + 1)
  }

  lemma EnrolIndex(b: Book, a: Service, services: bv64, time: int, source: NetAddr)
    requires IdsOk(b) && RandomOk(b) && AddrOk(b) && TimesOk(b) && a.ip !in b.addr
    ensures var c := Enrol(b, a, services, time, source); IdsOk(c) && RandomOk(c) && AddrOk(c) && TimesOk(c)
  {
  }

  lemma EnrolTables(env: Env, b: Book, a: Service, services: bv64, time: int, source: NetAddr)
    requires IdsOk(b) && NewOk(env, b) && TriedOk(env, b)
    ensures var c := Enrol(b, a, services, time, source); NewOk(env, c) && TriedOk(env, c)
  {
    hide TriedSlot, NewSlotAt;
  }

  lemma EnrolCounts(env: Env, b: Book, a: Service, services: bv64, time: int, source: NetAddr, pending: set<int>)
    requires IdsOk(b) && NewOk(env, b) && CountsOk(b, pending)
    ensures CountsOk(Enrol(b, a, services, time, source), pending + {b.idCount})
  {
    var c := Enrol(b, a, services, time, source);
    assert TriedIds(c.info) == TriedIds(b.info);
    assert NewIds(c.info) == NewIds(b.info) + {b.idCount};
    assert SlotsOf(b.news, b.idCount) == {};
  }

  lemma EnrolKeeps(env: Env, b: Book, a: Service, services: bv64, time: int, source: NetAddr, pending: set<int>)
    requires Almost(env, b, pending) && a.ip !in b.addr
    ensures Almost(env, Enrol(b, a, services, time, source), pending + {b.idCount})
  {
    EnrolIndex(b, a, services, time, source);
    EnrolTables(env, b, a, services, time, source);
    EnrolCounts(env, b, a, services, time, source, pending);
  }

  // ----- promotion to the tried table

  /** The entry leaves every new bucket. */
  function Strip(b: Book, id: int): Book
    requires id in b.info
  {
    b.(info := b.info[id := b.info[id].(refCount := 0)], news := b.news - SlotsOf(b.news, id))
  }

  /** The occupant of a tried slot leaves it and counts as new. */
  function Demote(b: Book, s: Slot): Book
    requires s in b.tried && b.tried[s] in b.info
  {
    var id := b.tried[s];
    b.(info := b.info[id := b.info[id].(inTried := false)], tried := b.tried - {s}, nTried := b.nTried - 1,
        nNew := b.nNew + 1)
  }

  function Promote(b: Book, s: Slot, id: int): Book
    requires id in b.info
  {
    b.(info := b.info[id := b.info[id].(inTried := true)], tried := b.tried[s := id], nTried := b.nTried + 1,
        nNew := b.nNew - 1)
  }

  lemma StripCounts(b: Book, id: int, pending: set<int>)
    requires CountsOk(b, pending) && id in b.info
    ensures CountsOk(Strip(b, id), pending + {id})
  {
    var c := Strip(b, id);
    RelabelIds(b.info, c.info, id);
    assert SlotsOf(c.news, id) == {};
    forall i | i in c.info && i != id ensures SlotsOf(c.news, i) == SlotsOf(b.news, i) {
    }
  }

  lemma StripKeeps(env: Env, b: Book, id: int, pending: set<int>)
    requires Almost(env, b, pending) && id in b.info
    ensures Almost(env, Strip(b, id), pending + {id})
  {
    var c := Strip(b, id);
    StripCounts(b, id, pending);
    RelabelIndex(b, c, id);
    RelabelTables(env, b, c.(news := b.news), id);
    SubTable(env, c.(news := b.news), c);
    RelabelTimes(b, c, id);
  }

  lemma DemoteCounts(env: Env, b: Book, s: Slot, pending: set<int>)
    requires CountsOk(b, pending) && TriedOk(env, b) && s in b.tried
    ensures CountsOk(Demote(b, s), pending + {b.tried[s]})
  {
    var c, id := Demote(b, s), b.tried[s];
    assert TriedIds(c.info) == TriedIds(b.info) - {id};
    assert NewIds(c.info) == NewIds(b.info) + {id};
  }

  lemma DemoteNew(env: Env, b: Book, s: Slot)
    requires NewOk(env, b) && s in b.tried && b.tried[s] in b.info
    ensures NewOk(env, Demote(b, s))
  {
    hide NewSlotAt;
  }

  lemma DemoteTried(env: Env, b: Book, s: Slot)
    requires TriedOk(env, b) && s in b.tried
    ensures TriedOk(env, Demote(b, s))
  {
    hide TriedSlot;
    var c, id := Demote(b, s), b.tried[s];
    assert forall i | i in c.info && i != id :: c.info[i] == b.info[i];
  }

  lemma DemoteKeeps(env: Env, b: Book, s: Slot, pending: set<int>)
    requires Almost(env, b, pending) && s in b.tried
    ensures Almost(env, Demote(b, s), pending + {b.tried[s]})
  {
    var c, id := Demote(b, s), b.tried[s];
    DemoteCounts(env, b, s, pending);
    DemoteNew(env, b, s);
    DemoteTried(env, b, s);
    RelabelIndex(b, c, id);
    RelabelTimes(b, c, id);
  }

  lemma PromoteCounts(b: Book, s: Slot, id: int, pending: set<int>)
    requires CountsOk(b, pending) && id in b.info && !b.info[id].inTried && b.info[id].refCount == 0
    ensures CountsOk(Promote(b, s, id), pending - {id})
  {
    var c := Promote(b, s, id);
    assert TriedIds(c.info) == TriedIds(b.info) + {id};
    assert NewIds(c.info) == NewIds(b.info) - {id};
  }

  lemma PromoteNew(env: Env, b: Book, s: Slot, id: int)
    requires NewOk(env, b) && id in b.info && forall t | t in b.news :: b.news[t] != id
    ensures NewOk(env, Promote(b, s, id))
  {
    hide NewSlotAt;
  }

  lemma PromoteTried(env: Env, b: Book, s: Slot, id: int)
    requires TriedOk(env, b) && id in b.info && !b.info[id].inTried
    requires s == TriedSlot(env, b.key, b.info[id].addr) && s !in b.tried
    ensures TriedOk(env, Promote(b, s, id))
  {
    hide TriedSlot;
    var c := Promote(b, s, id);
    assert forall i | i in c.info && i != id :: c.info[i] == b.info[i];
  }

  lemma PromoteKeeps(env: Env, b: Book, s: Slot, id: int, pending: set<int>)
    requires Almost(env, b, pending)
    requires id in b.info && !b.info[id].inTried && b.info[id].refCount == 0 && b.info[id].lastSuccess != 0
    requires s == TriedSlot(env, b.key, b.info[id].addr) && s !in b.tried
    ensures Almost(env, Promote(b, s, id), pending - {id})
  {
    var c := Promote(b, s, id);
    Unreferenced(b, id, pending);
    PromoteCounts(b, s, id, pending);
    PromoteNew(env, b, s, id);
    PromoteTried(env, b, s, id);
    RelabelIndex(b, c, id);
    RelabelTimes(b, c, id);
  }

  // ----- frames: what an operation leaves alone

  /** The entry survives with every field but its place in the random order. */
  ghost predicate Untouched(b: Book, c: Book, id: int) {
    id in b.info && id in c.info && c.info[id] == b.info[id].(randomPos := c.info[id].randomPos)
  }

  /** Clearing a slot touches nothing but its occupant, which goes exactly when that was its last reference. */
  lemma ClearNewFrame(b: Book, s: Slot)
    requires RandomOk(b)
    requires s in b.news ==> b.news[s] in b.info && !b.info[b.news[s]].inTried && b.info[b.news[s]].refCount > 0
    ensures var c := ClearNew(b, s);
      && c.news == b.news - {s} && c.tried == b.tried && c.nTried == b.nTried && c.key == b.key
          && c.idCount == b.idCount
      && (forall id | id in b.info && (s in b.news ==> id != b.news[s]) :: Untouched(b, c, id))
      && c.info.Keys == b.info.Keys - (if s in b.news && b.info[b.news[s]].refCount == 1 then {b.news[s]} else {})
  {
    if s in b.news {
      var d, id := Unref(b, s), b.news[s];
      if d.info[id].refCount == 0 {
        RelabelRandom(b, d, id);
        SwapRandomOrder(d, d.info[id].randomPos, |d.random| - 1);
      }
    }
  }

  lemma RelabelRandom(b: Book, c: Book, id: int)
    requires RandomOk(b) && c.random == b.random
    requires id in b.info && id in c.info && c.info == b.info[id := c.info[id]]
        && c.info[id].randomPos == b.info[id].randomPos
    ensures RandomOk(c)
  {
  }

  // ----- marking an entry good

  lemma TriedUnreferenced(env: Env, b: Book, id: int, pending: set<int>)
    requires NewOk(env, b) && CountsOk(b, pending) && id in b.info && b.info[id].inTried
    ensures b.info[id].refCount == 0 && forall t | t in b.news :: b.news[t] != id
  {
    assert SlotsOf(b.news, id) == {};
  }

  lemma OccupantCounted(env: Env, b: Book, t: Slot, pending: set<int>)
    requires NewOk(env, b) && CountsOk(b, pending) && t in b.news
    ensures b.news[t] in b.info && !b.info[b.news[t]].inTried && b.info[b.news[t]].refCount > 0
  {
    assert t in SlotsOf(b.news, b.news[t]);
  }

  /** The slot of an entry under the source it was first heard from. */
  function HomeSlot(env: Env, b: Book, id: int): Slot
    requires id in b.info
  {
    NewSlot(env, b.key, b.info[id].addr, b.info[id].source)
  }

  /**
   What must hold before the evicted entry is re-entered into a new bucket: its slot can be cleared without losing it.
   */
  lemma EvictReady(env: Env, b: Book, s: Slot, pending: set<int>)
    requires Almost(env, b, pending) && s in b.tried
    ensures b.tried[s] in b.info && b.info[b.tried[s]].refCount == 0
    ensures var id, c := b.tried[s], Demote(b, s);
      && Almost(env, c, pending + {id})
      && var t := HomeSlot(env, b, id);
      && (t in c.news ==>
          c.news[t] != id && c.news[t] in c.info && !c.info[c.news[t]].inTried && c.info[c.news[t]].refCount > 0)
      && Untouched(c, ClearNew(c, t), id)
  {
    var id, c := b.tried[s], Demote(b, s);
    DemoteKeeps(env, b, s, pending);
    TriedUnreferenced(env, b, id, pending);
    var t := HomeSlot(env, b, id);
    if t in c.news {
      OccupantCounted(env, c, t, pending + {id});
    }
    ClearNewFrame(c, t);
  }

  /** Free a tried slot by moving its occupant back to a new bucket. */
  function Evict(env: Env, b: Book, s: Slot, ghost pending: set<int>): Book
    requires Almost(env, b, pending)
  {
    if s !in b.tried then b else
      EvictReady(env, b, s, pending);
      var id, t := b.tried[s], HomeSlot(env, b, b.tried[s]);
      Ref(ClearNew(Demote(b, s), t), t, id)
  }

  lemma EvictKeeps(env: Env, b: Book, s: Slot, pending: set<int>)
    requires Almost(env, b, pending) && forall t | t in b.news :: b.news[t] !in pending
    requires forall id | id in pending && id in b.info :: !b.info[id].inTried
    ensures Almost(env, Evict(env, b, s, pending), pending)
    ensures s !in Evict(env, b, s, pending).tried
  {
    if s in b.tried {
      EvictReady(env, b, s, pending);
      var id, c := b.tried[s], Demote(b, s);
      var t := HomeSlot(env, b, id);
      ClearNewKeeps(env, c, t, pending + {id});
      ClearNewFrame(c, t);
      var d := ClearNew(c, t);
      RefKeeps(env, d, t, id, pending + {id});
      assert pending + {id} - {id} == pending;
    }
  }

}
