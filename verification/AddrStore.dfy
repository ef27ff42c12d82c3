/**
 Writing an address manager to a stream and rebuilding one from it, loop by loop as the source does,
 proved against `Save` and `Load`.
 */
module AddrStore {
  import opened AddrBook
  import opened AddrSave
  import opened AddrRoundTrip
  import opened AddrMan

  lemma {:induction false} RecordsAppend(info: map<int, Info>, ids: seq<int>, id: int)
    requires (forall x | x in ids :: x in info) && id in info
    ensures Records(info, ids + [id]) == Records(info, ids) + [TInfo(ToRecord(info[id]))]
  {
    if ids != [] {
      RecordsAppend(info, ids[1..], id);
      assert (ids + [id])[1..] == ids[1..] + [id];
    }
  }

  /** One more identifier is chosen, or not. */
  lemma ChosenNext(info: map<int, Info>, ids: seq<int>, wantNew: bool, k: nat)
    requires (forall x | x in ids :: x in info) && k < |ids|
    ensures ids[k] in info
    ensures var take := if wantNew then info[ids[k]].refCount != 0 else info[ids[k]].inTried;
      var front, next := Chosen(info, ids[..k], wantNew), Chosen(info, ids[..k + 1], wantNew);
      && next == (if take then front + [ids[k]] else front)
      && Records(info, next) == (if take then Records(info, front) + [TInfo(ToRecord(info[ids[k]]))] else
          Records(info, front))
      && (take ==> |front| < |Chosen(info, ids, wantNew)|)
  {
    var id := ids[k];
    assert id in ids;
    assert ids[..k + 1][..k] == ids[..k];
    ChosenSplit(info, ids, wantNew, k);
    RecordsAppend(info, Chosen(info, ids[..k], wantNew), id);
  }

  lemma NoneChosen(info: map<int, Info>, ids: seq<int>, wantNew: bool)
    requires forall x | x in ids :: x in info
    ensures Chosen(info, ids[..0], wantNew) == [] && Records(info, []) == []
    ensures ids[..|ids|] == ids
  {
  }

  ghost predicate Indexed(info: map<int, Info>, ids: seq<int>, k: nat, unkIds: map<int, nat>)
    requires (forall x | x in ids :: x in info) && k <= |ids|
  {
    forall j | 0 <= j < k :: ids[j] in unkIds && unkIds[ids[j]] == |Chosen(info, ids[..j], true)|
  }

  lemma IndexedNext(info: map<int, Info>, ids: seq<int>, k: nat, unkIds: map<int, nat>, n: nat)
    requires (forall x | x in ids :: x in info) && Ascending(ids) && k < |ids| && Indexed(info, ids, k, unkIds)
    requires n == |Chosen(info, ids[..k], true)|
    ensures Indexed(info, ids, k + 1, unkIds[ids[k] := n])
  {
  }

  lemma IndexedAll(info: map<int, Info>, ids: seq<int>, unkIds: map<int, nat>)
    requires (forall x | x in ids :: x in info) && Indexed(info, ids, |ids|, unkIds)
    ensures forall id | id in ids :: id in unkIds && unkIds[id] == Index(info, ids, id)
  {
    forall id | id in ids ensures id in unkIds && unkIds[id] == Index(info, ids, id) {
      var k := PositionOf(ids, id);
    }
  }

  /** The new entries in ascending order of identifier, and the index each identifier will be referred to by. */
  method WriteNew(info: map<int, Info>, ids: seq<int>, nNew: int) returns (s: seq<Token>, unkIds: map<int, nat>)
    requires (forall x | x in ids :: x in info) && Ascending(ids)
    requires nNew == |Chosen(info, ids, true)|
    ensures s == Records(info, Chosen(info, ids, true))
    ensures forall id | id in ids :: id in unkIds && unkIds[id] == Index(info, ids, id)
  {
    hide Chosen, Records, Indexed, Ascending, Index;
    s, unkIds := [], map[];
    var nIds := 0;
    var k := 0;
    NoneChosen(info, ids, true);
    NoneIndexed(info, ids);
    while k < |ids|
      invariant k <= |ids| && nIds == |Chosen(info, ids[..k], true)|
      invariant s == Records(info, Chosen(info, ids[..k], true))
      invariant Indexed(info, ids, k, unkIds)
    {
      ChosenNext(info, ids, true, k);
      IndexedNext(info, ids, k, unkIds, nIds);
      var id := ids[k];
      unkIds := unkIds[id := nIds];
      if info[id].refCount != 0 {
        assert nIds != nNew;
        s := s + [TInfo(ToRecord(info[id]))];
        nIds := nIds + 1;
      }
      k := k + 1;
    }
    IndexedAll(info, ids, unkIds);
  }

  lemma NoneIndexed(info: map<int, Info>, ids: seq<int>)
    requires forall x | x in ids :: x in info
    ensures Indexed(info, ids, 0, map[])
  {
  }

  /** The tried entries in ascending order of identifier. */
  method WriteTried(info: map<int, Info>, ids: seq<int>, nTried: int) returns (s: seq<Token>)
    requires forall x | x in ids :: x in info
    requires nTried == |Chosen(info, ids, false)|
    ensures s == Records(info, Chosen(info, ids, false))
  {
    hide Chosen, Records;
    s := [];
    var nIds := 0;
    var k := 0;
    NoneChosen(info, ids, false);
    while k < |ids|
      invariant k <= |ids| && nIds == |Chosen(info, ids[..k], false)|
      invariant s == Records(info, Chosen(info, ids[..k], false))
    {
      ChosenNext(info, ids, false, k);
      var id := ids[k];
      if info[id].inTried {
        assert nIds != nTried;
        s := s + [TInfo(ToRecord(info[id]))];
        nIds := nIds + 1;
      }
      k := k + 1;
    }
  }

  /** One bucket: its size, then the index of each of its occupants. */
  method WriteBucket(m: AddrMan, bucket: nat, ids: seq<int>, unkIds: map<int, nat>) returns (s: seq<Token>)
    requires m.Shape() && bucket < NEW_BUCKET_COUNT && (forall id | id in ids :: id in m.mapInfo)
    requires forall id | id in ids :: id in unkIds && unkIds[id] == Index(m.mapInfo, ids, id)
    requires forall t | t in m.news :: m.news[t] in ids
    ensures s == [TInt(Occupied(m.news, bucket, 0))] + Indexes(m.Model(), ids, bucket, 0)
  {
    hide Index;
    var nSize, i := 0, 0;
    while i < BUCKET_SIZE
      invariant i <= BUCKET_SIZE && nSize + Occupied(m.news, bucket, i) == Occupied(m.news, bucket, 0)
    {
      if m.vvNew[bucket, i] != -1 {
        nSize := nSize + 1;
      }
      i := i + 1;
    }
    s := [TInt(nSize)];
    i := 0;
    while i < BUCKET_SIZE
      invariant i <= BUCKET_SIZE && s + Indexes(m.Model(), ids, bucket, i) == [TInt(nSize)]
          + Indexes(m.Model(), ids, bucket, 0)
    {
      var id := m.vvNew[bucket, i];
      if id != -1 {
        s := s + [TInt(unkIds[id])];
      }
      i := i + 1;
    }
  }

  method WriteBuckets(m: AddrMan, ids: seq<int>, unkIds: map<int, nat>) returns (s: seq<Token>)
    requires m.Shape() && forall id | id in ids :: id in m.mapInfo
    requires forall id | id in ids :: id in unkIds && unkIds[id] == Index(m.mapInfo, ids, id)
    requires forall t | t in m.news :: m.news[t] in ids
    ensures s == Buckets(m.Model(), ids, 0)
  {
    hide m.Shows, Index, Indexes, Occupied;
    s := [];
    var bucket := 0;
    while bucket < NEW_BUCKET_COUNT
      invariant bucket <= NEW_BUCKET_COUNT && s + Buckets(m.Model(), ids, bucket) == Buckets(m.Model(), ids, 0)
    {
      var part := WriteBucket(m, bucket, ids, unkIds);
      ghost var rest := Buckets(m.Model(), ids, bucket + 1);
      assert s + (part + rest) == (s + part) + rest;
      s := s + part;
      bucket := bucket + 1;
    }
  }

  /** Serialize: the stream is the value `Save` gives, for every consistent manager. */
  method Serialize(m: AddrMan) returns (s: seq<Token>)
    requires m.Valid()
    ensures s == Save(m.Model())
  {
    hide IdsOk, RandomOk, AddrOk, NewOk, TriedOk, CountsOk, TimesOk, m.Shows, Index, Chosen, Records, Buckets, Sorted,
        Order, Ordered;
    ghost var b := m.Model();
    var ids := Sorted(m.mapInfo.Keys);
    SortedAscends(m.mapInfo.Keys);
    OrderIsOrdered(m.env, b);
    OccupantsListed(m.env, b);
    s := [TByte(1), TByte(32), TKey(m.nKey), TInt(m.nNew), TInt(m.nTried), TInt(NEW_BUCKET_COUNT + BUCKET_MARK)];
    var news, unkIds := WriteNew(m.mapInfo, ids, m.nNew);
    var tried := WriteTried(m.mapInfo, ids, m.nTried);
    var buckets := WriteBuckets(m, ids, unkIds);
    s := s + (news + (tried + buckets));
  }

  lemma OccupantsListed(env: Env, b: Book)
    requires Consistent(env, b)
    ensures forall t | t in b.news :: b.news[t] in Sorted(b.info.Keys)
  {
  }

  // ----- reading

  method ReadNewRecord(m: AddrMan, r: Record, n: nat, usable: bool)
    requires m.Shape()
    modifies m, m.vvNew
    ensures m.Shape() && m.Model() == EnterNew(m.env, old(m.Model()), r, n, usable)
  {
    m.mapInfo := m.mapInfo[n := FromRecord(r, false, |m.vRandom|)];
    m.mapAddr := m.mapAddr[r.addr.ip := n];
    m.vRandom := m.vRandom + [n];
    if !usable {
      var s := NewSlot(m.env, m.nKey, r.addr, r.source);
      if m.vvNew[s.bucket, s.pos] == -1 {
        m.SetNew(s, n);
        m.mapInfo := m.mapInfo[n := m.mapInfo[n].(refCount := m.mapInfo[n].refCount + 1)];
      }
    }
  }

  method ReadNew(m: AddrMan, s: seq<Token>, usable: bool) returns (ok: bool, rest: seq<Token>)
    requires m.Shape()
    modifies m, m.vvNew
    ensures m.Shape()
    ensures var r := LoadNew(m.env, old(m.Model()), s, 0, usable); if ok then r == Read(m.Model(), rest) else r.Failed?
  {
    hide m.Shows, EnterNew;
    ghost var all := LoadNew(m.env, m.Model(), s, 0, usable);
    rest := s;
    var n := 0;
    while n < m.nNew
      invariant 0 <= n && m.Shape() && LoadNew(m.env, m.Model(), rest, n, usable) == all
      decreases m.nNew - n
    {
      if rest == [] || !rest[0].TInfo? {
        return false, rest;
      }
      ghost var before := m.Model();
      ReadNewRecord(m, rest[0].rec, n, usable);
      NewCountSame(m.env, before, rest[0].rec, n, usable);
      rest := rest[1..];
      n := n + 1;
    }
    ok := true;
  }

  lemma NewCountSame(env: Env, b: Book, r: Record, n: int, usable: bool)
    ensures EnterNew(env, b, r, n, usable).nNew == b.nNew
  {
  }

  lemma TriedCell(m: AddrMan, s: Slot)
    requires m.Shape() && s.bucket < TRIED_BUCKET_COUNT && s.pos < BUCKET_SIZE
    ensures s.bucket < m.vvTried.Length0 && s.pos < m.vvTried.Length1
        && (m.vvTried[s.bucket, s.pos] != -1 <==> s in m.tried)
  {
  }

  lemma TriedSlotRange(env: Env, key: nat, a: Service)
    ensures TriedSlot(env, key, a).bucket < TRIED_BUCKET_COUNT && TriedSlot(env, key, a).pos < BUCKET_SIZE
  {
  }

  method ReadTriedRecord(m: AddrMan, r: Record) returns (lost: bool)
    requires m.Shape()
    modifies m, m.vvTried
    ensures m.Shape()
    ensures m.Model().(nTried := m.nTried - if lost then 1 else 0) == EnterTried(m.env, old(m.Model()), r)
  {
    hide m.Shows, TriedSlot;
    var s := TriedSlot(m.env, m.nKey, r.addr);
    TriedSlotRange(m.env, m.nKey, r.addr);
    TriedCell(m, s);
    lost := m.vvTried[s.bucket, s.pos] != -1;
    if !lost {
      m.mapInfo := m.mapInfo[m.nIdCount := FromRecord(r, true, |m.vRandom|)];
      m.mapAddr := m.mapAddr[r.addr.ip := m.nIdCount];
      m.vRandom := m.vRandom + [m.nIdCount];
      m.SetTried(s, m.nIdCount);
      m.nIdCount := m.nIdCount + 1;
    }
  }

  /** The number of tried entries plays no part in loading one. */
  lemma TriedShift(env: Env, b: Book, r: Record, k: int)
    ensures EnterTried(env, b.(nTried := b.nTried + k), r) ==
        EnterTried(env, b, r).(nTried := EnterTried(env, b, r).nTried + k)
  {
  }

  method ReadTried(m: AddrMan, s: seq<Token>) returns (ok: bool, rest: seq<Token>)
    requires m.Shape()
    modifies m, m.vvTried
    ensures m.Shape()
    ensures var r := LoadTried(m.env, old(m.Model()), s, old(m.nTried));
        if ok then r == Read(m.Model(), rest) else r.Failed?
  {
    hide m.Shows, EnterTried;
    ghost var all := LoadTried(m.env, m.Model(), s, m.nTried);
    rest := s;
    var nLost, n, total := 0, 0, m.nTried;
    assert m.Model() == m.Model().(nTried := m.nTried - nLost);
    while n < total
      invariant 0 <= n && m.Shape() && LoadTried(m.env, m.Model().(nTried := m.nTried - nLost), rest, total - n) == all
    {
      if rest == [] || !rest[0].TInfo? {
        return false, rest;
      }
      TriedShift(m.env, m.Model(), rest[0].rec, -nLost);
      var lost := ReadTriedRecord(m, rest[0].rec);
      if lost {
        nLost := nLost + 1;
      }
      rest := rest[1..];
      n := n + 1;
    }
    m.nTried := m.nTried - nLost;
    ok := true;
  }

  method ReadSlot(m: AddrMan, bucket: nat, index: int, usable: bool)
    requires m.Shape() && (usable ==> bucket < NEW_BUCKET_COUNT)
    modifies m, m.vvNew
    ensures m.Shape() && m.Model() == EnterSlot(m.env, old(m.Model()), bucket, index, usable)
  {
    if 0 <= index < m.nNew && index in m.mapInfo {
      var s := NewSlotAt(m.env, m.nKey, m.mapInfo[index].addr, bucket);
      if usable && m.vvNew[bucket, s.pos] == -1 && m.mapInfo[index].refCount < NEW_BUCKETS_PER_ADDRESS {
        m.mapInfo := m.mapInfo[index := m.mapInfo[index].(refCount := m.mapInfo[index].refCount + 1)];
        m.SetNew(s, index);
      }
    }
  }

  method ReadBucket(m: AddrMan, s: seq<Token>, bucket: nat, size: int, usable: bool)
      returns (ok: bool, rest: seq<Token>)
    requires m.Shape() && (usable ==> bucket < NEW_BUCKET_COUNT)
    modifies m, m.vvNew
    ensures m.Shape()
    ensures var r := LoadSlots(m.env, old(m.Model()), s, bucket, size, usable);
        if ok then r == Read(m.Model(), rest) else r.Failed?
  {
    hide m.Shows, EnterSlot;
    ghost var all := LoadSlots(m.env, m.Model(), s, bucket, size, usable);
    rest := s;
    var n := 0;
    while n < size
      invariant 0 <= n && m.Shape() && LoadSlots(m.env, m.Model(), rest, bucket, size - n, usable) == all
    {
      if rest == [] || !rest[0].TInt? {
        return false, rest;
      }
      ReadSlot(m, bucket, rest[0].n, usable);
      rest := rest[1..];
      n := n + 1;
    }
    ok := true;
  }

  method ReadBuckets(m: AddrMan, s: seq<Token>, buckets: int, usable: bool) returns (ok: bool, rest: seq<Token>)
    requires m.Shape() && (usable ==> buckets == NEW_BUCKET_COUNT)
    modifies m, m.vvNew
    ensures m.Shape()
    ensures var r := LoadBuckets(m.env, old(m.Model()), s, 0, buckets, usable);
        if ok then r == Read(m.Model(), rest) else r.Failed?
  {
    hide m.Shows, LoadSlots;
    ghost var all := LoadBuckets(m.env, m.Model(), s, 0, buckets, usable);
    rest := s;
    var bucket := 0;
    while bucket < buckets
      invariant 0 <= bucket && m.Shape() && LoadBuckets(m.env, m.Model(), rest, bucket, buckets, usable) == all
    {
      if rest == [] || !rest[0].TInt? {
        return false, rest;
      }
      ok, rest := ReadBucket(m, rest[1..], bucket, rest[0].n, usable);
      if !ok {
        return;
      }
      bucket := bucket + 1;
    }
    ok := true;
  }

  method DropStrays(m: AddrMan)
    requires m.Shape() && RandomOk(m.Model())
    modifies m
    ensures m.Shape() && m.Model() == Prune(old(m.Model()), Sorted(old(m.mapInfo).Keys))
  {
    hide m.Shows, RandomOk, Delete;
    var ids := Sorted(m.mapInfo.Keys);
    ghost var all := Prune(m.Model(), ids);
    var k := 0;
    assert ids[0..] == ids;
    while k < |ids|
      invariant k <= |ids| && m.Shape() && RandomOk(m.Model()) && Prune(m.Model(), ids[k..]) == all
    {
      assert ids[k..][1..] == ids[k + 1..];
      var id := ids[k];
      if id in m.mapInfo && !m.mapInfo[id].inTried && m.mapInfo[id].refCount == 0 {
        DeleteOrder(m.Model(), id);
        m.Delete(id);
      }
      k := k + 1;
    }
  }

  /** Unserialize into a manager that holds nothing yet; on failure what was read so far stays. */
  method Unserialize(m: AddrMan, s: seq<Token>) returns (ok: bool)
    requires m.Shape() && m.mapInfo == map[] && m.mapAddr == map[] && m.vRandom == [] && m.tried == map[]
        && m.news == map[]
    modifies m, m.vvTried, m.vvNew
    ensures ok <==> Load(m.env, s).Read?
    ensures ok ==> m.Shape() && m.Model() == Load(m.env, s).book
  {
    hide m.Shows, RandomOk, LoadNew, LoadTried, LoadBuckets, Prune, Sorted;
    if !GoodHeader(s) {
      return false;
    }
    m.nKey, m.nNew, m.nTried, m.nIdCount := s[2].key, s[3].n, s[4].n, 0;
    var buckets := if s[0].b != 0 then FlipMark(s[5].n) else s[5].n;
    var usable := s[0].b == 1 && buckets == NEW_BUCKET_COUNT;
    ghost var b0 := m.Model();
    assert b0 == Blank(b0.key, b0.nNew, b0.nTried);
    var rest;
    ok, rest := ReadNew(m, s[6..], usable);
    if !ok { return; }
    BlankOrder(m.env, s[6..], b0, usable);
    ghost var b1, s1 := m.Model(), rest;
    m.nIdCount := m.nNew;
    LoadTriedOrder(m.env, m.Model(), rest, m.nTried);
    ok, rest := ReadTried(m, rest);
    if !ok { return; }
    LoadBucketsOrder(m.env, m.Model(), rest, 0, buckets, usable);
    ok, rest := ReadBuckets(m, rest, buckets, usable);
    if !ok { return; }
    DropStrays(m);
  }

  lemma BlankOrder(env: Env, s: seq<Token>, b0: Book, usable: bool)
    requires b0 == Blank(b0.key, b0.nNew, b0.nTried)
    ensures var r := LoadNew(env, b0, s, 0, usable);
      r.Read? ==> RandomOk(r.book.(idCount := r.book.nNew)) && forall id | id in r.book.info :: id < r.book.nNew
  {
    LoadNewOrder(env, b0, s, 0, usable);
  }

  /** Saving a consistent manager and loading the stream into an empty one gives the same manager up to renaming. */
  method SaveAndLoad(m: AddrMan, target: AddrMan) returns (ok: bool)
    requires m.Valid() && target.env == m.env && target != m
    requires target.vvNew != m.vvNew && target.vvNew != m.vvTried && target.vvTried != m.vvNew
        && target.vvTried != m.vvTried
    requires target.Shape() && target.mapInfo == map[] && target.mapAddr == map[] && target.vRandom == []
        && target.tried == map[] && target.news == map[]
    modifies target, target.vvTried, target.vvNew
    ensures ok && target.Valid() && Renamed(m.Model(), target.Model(), Order(m.Model()))
  {
    hide IdsOk, RandomOk, AddrOk, NewOk, TriedOk, CountsOk, TimesOk, m.Shows, Renamed, Order, Load, Save;
    var s := Serialize(m);
    RoundTrip(m.env, m.Model());
    ok := Unserialize(target, s);
  }
}
