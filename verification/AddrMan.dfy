/**
 The address manager itself: the fields it keeps, its two bucket tables as fixed arrays in which -1
 marks a free slot, and its methods with their loops, each proved against its function on `Book`.
 */
module AddrMan {
  import opened Arithmetic
  import opened Collections
  import opened AddrBook
  import B = AddrBook
  import O = AddrOps

  class AddrMan {
    const env: Env
    var nKey: nat
    var nIdCount: int
    var mapInfo: map<int, Info>
    var mapAddr: map<NetAddr, int>
    var vRandom: seq<int>
    var nTried: int
    var nNew: int
    const vvTried: array2<int>
    const vvNew: array2<int>

    // the two tables as finite maps, leaving out the free slots
    ghost var tried: map<Slot, int>
    ghost var news: map<Slot, int>

    /** A table as an array of slots and as a finite map. */
    static ghost predicate Shows(a: array2<int>, table: map<Slot, int>)
      reads a
    {
      && (forall s | s in table :: s.bucket < a.Length0 && s.pos < a.Length1 && table[s] != -1)
      && (forall b: nat, p: nat | b < a.Length0 && p < a.Length1 ::
            a[b, p] == if Slot(b, p) in table then table[Slot(b, p)] else -1)
    }

    ghost predicate Shape()
      reads this, vvTried, vvNew
    {
      && vvTried.Length0 == TRIED_BUCKET_COUNT && vvTried.Length1 == BUCKET_SIZE
      && vvNew.Length0 == NEW_BUCKET_COUNT && vvNew.Length1 == BUCKET_SIZE
      && vvTried != vvNew
      && Shows(vvTried, tried) && Shows(vvNew, news)
    }

    ghost function Model(): Book
      reads this
    {
      Book(nKey, nIdCount, mapInfo, mapAddr, vRandom, nTried, tried, nNew, news)
    }

    ghost predicate Valid()
      reads this, vvTried, vvNew
    {
      Shape() && Consistent(env, Model())
    }

    /** A fresh manager with a random key. */
    constructor (env: Env, key: nat)
      requires key != 0
      ensures Valid() && fresh(vvTried) && fresh(vvNew)
      ensures this.env == env
      ensures Model() == Book(key, 0, map[], map[], [], 0, map[], 0, map[])
    {
      this.env := env;
      nKey, nIdCount, mapInfo, mapAddr, vRandom, nTried, nNew := key, 0, map[], map[], [], 0, 0;
      tried, news := map[], map[];
      vvTried := new int[TRIED_BUCKET_COUNT, BUCKET_SIZE]((b, p) => -1);
      vvNew := new int[NEW_BUCKET_COUNT, BUCKET_SIZE]((b, p) => -1);
      new;
      assert TriedIds(mapInfo) == {} && NewIds(mapInfo) == {};
    }

    method SetNew(s: Slot, id: int)
      requires Shape() && s.bucket < NEW_BUCKET_COUNT && s.pos < BUCKET_SIZE
      modifies this`news, vvNew
      ensures Shape()
      ensures news == if id == -1 then old(news) - {s} else old(news)[s := id]
    {
      vvNew[s.bucket, s.pos] := id;
      news := if id == -1 then news - {s} else news[s := id];
    }

    method SetTried(s: Slot, id: int)
      requires Shape() && s.bucket < TRIED_BUCKET_COUNT && s.pos < BUCKET_SIZE
      modifies this`tried, vvTried
      ensures Shape()
      ensures tried == if id == -1 then old(tried) - {s} else old(tried)[s := id]
    {
      vvTried[s.bucket, s.pos] := id;
      tried := if id == -1 then tried - {s} else tried[s := id];
    }

    /** The entry stored for the address, whatever its port. */
    method Find(a: Service) returns (found: bool, id: int)
      ensures found == O.Known(Model(), a)
      ensures found ==> id == mapAddr[a.ip]
    {
      found, id := false, -1;
      if a.ip in mapAddr {
        id := mapAddr[a.ip];
        found := id in mapInfo;
      }
    }

    method Create(a: Service, services: bv64, time: int, source: NetAddr) returns (id: int)
      modifies this
      ensures id == old(nIdCount)
      ensures Model() == B.Create(old(Model()), a, services, time, source)
    {
      id := nIdCount;
      nIdCount := nIdCount + 1;
      mapInfo := mapInfo[id := Info(a, services, time, source, 0, 0, 0, 0, false, -1)];
      mapAddr := mapAddr[a.ip := id];
      mapInfo := mapInfo[id := mapInfo[id].(randomPos := |vRandom|)];
      vRandom := vRandom + [id];
      assert mapInfo == B.Create(old(Model()), a, services, time, source).info;
    }

    method SwapRandom(i: nat, j: nat)
      requires i < |vRandom| && j < |vRandom| && vRandom[i] in mapInfo && vRandom[j] in mapInfo
      modifies this
      ensures Model() == B.SwapRandom(old(Model()), i, j)
    {
      if i == j {
        return;
      }
      var id1, id2 := vRandom[i], vRandom[j];
      mapInfo := mapInfo[id1 := mapInfo[id1].(randomPos := j)];
      mapInfo := mapInfo[id2 := mapInfo[id2].(randomPos := i)];
      vRandom := vRandom[i := id2];
      vRandom := vRandom[j := id1];
    }

    method Delete(id: int)
      requires RandomOk(Model())
      requires id in mapInfo && !mapInfo[id].inTried && mapInfo[id].refCount == 0
      modifies this
      ensures Model() == B.Delete(old(Model()), id) && tried == old(tried) && news == old(news)
    {
      ghost var b := Model();
      ghost var last, m := DeleteSplit(b, id);
      var ip := mapInfo[id].addr.ip;
      SwapRandom(mapInfo[id].randomPos, |vRandom| - 1);
      assert Model() == m;
      vRandom := vRandom[..|vRandom| - 1];
      mapAddr := mapAddr - {ip};
      mapInfo := mapInfo - {id};
      nNew := nNew - 1;
    }

    method ClearNew(s: Slot)
      requires Shape() && s.bucket < NEW_BUCKET_COUNT && s.pos < BUCKET_SIZE
      requires RandomOk(Model())
      requires var b := Model(); s in b.news ==>
          b.news[s] in b.info && !b.info[b.news[s]].inTried && b.info[b.news[s]].refCount > 0
      modifies this, vvNew
      ensures Shape() && Model() == B.ClearNew(old(Model()), s)
    {
      ghost var b := Model();
      if vvNew[s.bucket, s.pos] != -1 {
        var id := vvNew[s.bucket, s.pos];
        mapInfo := mapInfo[id := mapInfo[id].(refCount := mapInfo[id].refCount - 1)];
        SetNew(s, -1);
        assert Model() == B.Unref(b, s);
        if mapInfo[id].refCount == 0 {
          RelabelRandom(b, Model(), id);
          Delete(id);
        }
      }
    }

    /** The entry has left the new buckets below `k` and its reference count says how many are left. */
    static ghost function PartlyStripped(b: Book, id: int, k: nat): Book
      requires id in b.info
    {
      var news := b.news - (set s | s in b.news && b.news[s] == id && s.bucket < k);
      b.(news := news, info := b.info[id := b.info[id].(refCount := |SlotsOf(news, id)|)])
    }

    static lemma StripStep(env: Env, b: Book, id: int, k: nat)
      requires NewOk(env, b) && id in b.info && k < NEW_BUCKET_COUNT
      ensures var c, d, s := PartlyStripped(b, id, k), PartlyStripped(b, id, k + 1),
          NewSlotAt(env, b.key, b.info[id].addr, k);
        && (s in c.news && c.news[s] == id ==> d == B.Unref(c, s))
        && (!(s in c.news && c.news[s] == id) ==> d == c)
    {
      var c, d, s := PartlyStripped(b, id, k), PartlyStripped(b, id, k + 1), NewSlotAt(env, b.key, b.info[id].addr, k);
      if s in c.news && c.news[s] == id {
        assert d.news == c.news - {s};
        SlotsAfterRemove(c.news, s, id);
      } else {
        assert d.news == c.news;
      }
    }

    static lemma StripEnds(env: Env, b: Book, id: int)
      requires NewOk(env, b) && id in b.info && b.info[id].refCount == |SlotsOf(b.news, id)|
      ensures PartlyStripped(b, id, 0) == b
      ensures PartlyStripped(b, id, NEW_BUCKET_COUNT) == Strip(b, id)
    {
      assert PartlyStripped(b, id, 0).news == b.news;
      var d := PartlyStripped(b, id, NEW_BUCKET_COUNT);
      assert d.news == Strip(b, id).news;
      assert SlotsOf(d.news, id) == {};
    }

    /** Give up a slot if the entry holds it. */
    method Release(s: Slot, id: int)
      requires Shape() && s.bucket < NEW_BUCKET_COUNT && s.pos < BUCKET_SIZE && 0 <= id && id in mapInfo
      modifies this`mapInfo, this`news, vvNew
      ensures Shape()
      ensures Model() == if s in old(news) && old(news)[s] == id then B.Unref(old(Model()), s) else old(Model())
    {
      if vvNew[s.bucket, s.pos] == id {
        SetNew(s, -1);
        mapInfo := mapInfo[id := mapInfo[id].(refCount := mapInfo[id].refCount - 1)];
      }
    }

    /** The first loop of a promotion: one probe per bucket finds every slot of the entry. */
    method StripEntry(id: int)
      requires Shape() && NewOk(env, Model())
      requires 0 <= id && id in mapInfo && mapInfo[id].refCount == |SlotsOf(news, id)|
      modifies this, vvNew
      ensures Shape() && Model() == Strip(old(Model()), id)
    {
      ghost var b := Model();
      StripEnds(env, b, id);
      var bucket := 0;
      while bucket < NEW_BUCKET_COUNT
        invariant bucket <= NEW_BUCKET_COUNT
        invariant Shape() && Model() == PartlyStripped(b, id, bucket)
      {
        StripStep(env, b, id, bucket);
        Release(NewSlotAt(env, nKey, mapInfo[id].addr, bucket), id);
        bucket := bucket + 1;
      }
    }

    /** Remove the occupant of a tried slot from the tried set. */
    method TakeOut(s: Slot) returns (idEvict: int)
      requires Shape() && s in tried && tried[s] in mapInfo
      modifies this, vvTried
      ensures Shape() && idEvict == old(tried)[s] && Model() == Demote(old(Model()), s)
    {
      idEvict := vvTried[s.bucket, s.pos];
      mapInfo := mapInfo[idEvict := mapInfo[idEvict].(inTried := false)];
      SetTried(s, -1);
      nTried := nTried - 1;
      nNew := nNew + 1;
    }

    /** Enter an unreferenced entry into a new slot, clearing whatever is there. */
    method EnterNew(t: Slot, id: int)
      requires Shape() && RandomOk(Model()) && t.bucket < NEW_BUCKET_COUNT && t.pos < BUCKET_SIZE
      requires 0 <= id && id in mapInfo
      requires t in news ==>
          news[t] != id && news[t] in mapInfo && !mapInfo[news[t]].inTried && mapInfo[news[t]].refCount > 0
      modifies this, vvNew
      ensures Shape() && id in B.ClearNew(old(Model()), t).info
      ensures Model() == Ref(B.ClearNew(old(Model()), t), t, id)
    {
      ClearNewFrame(Model(), t);
      ClearNew(t);
      mapInfo := mapInfo[id := mapInfo[id].(refCount := mapInfo[id].refCount + 1)];
      SetNew(t, id);
    }

    /** The middle of a promotion: a tried slot is freed, its occupant going back to a new bucket. */
    method EvictFrom(s: Slot, ghost pending: set<int>)
      requires Shape() && Almost(env, Model(), pending)
      requires s.bucket < TRIED_BUCKET_COUNT && s.pos < BUCKET_SIZE
      modifies this, vvTried, vvNew
      ensures Shape() && Model() == Evict(env, old(Model()), s, pending)
    {
      if vvTried[s.bucket, s.pos] != -1 {
        EvictReady(env, Model(), s, pending);
        var idEvict := TakeOut(s);
        EnterNew(NewSlot(env, nKey, mapInfo[idEvict].addr, mapInfo[idEvict].source), idEvict);
      }
    }

    method EnterTried(s: Slot, id: int)
      requires Shape() && s.bucket < TRIED_BUCKET_COUNT && s.pos < BUCKET_SIZE && 0 <= id && id in mapInfo
      modifies this, vvTried
      ensures Shape() && Model() == Promote(old(Model()), s, id)
    {
      SetTried(s, id);
      nTried := nTried + 1;
      nNew := nNew - 1;
      mapInfo := mapInfo[id := mapInfo[id].(inTried := true)];
    }

    method MakeTried(id: int)
      requires Valid() && id in mapInfo && !mapInfo[id].inTried && mapInfo[id].lastSuccess != 0
      modifies this, vvTried, vvNew
      ensures Valid() && Model() == O.MakeTried(env, old(Model()), id)
    {
      ghost var b := Model();
      O.MakeTriedKeeps(env, b, id);
      O.StripReady(env, b, id);
      StripEntry(id);
      var s := TriedSlot(env, nKey, mapInfo[id].addr);
      EvictFrom(s, {id});
      EnterTried(s, id);
    }

    /**
     Look for a new bucket holding the entry, starting from a random one.  A consistent manager always
     has one, so the source's early exit for "no bucket found" is never taken.
     */
    method FindNewBucket(id: int, start: nat) returns (bucket: nat)
      requires Valid() && id in mapInfo && !mapInfo[id].inTried && start < NEW_BUCKET_COUNT
      ensures bucket < NEW_BUCKET_COUNT
      ensures var s := NewSlotAt(env, nKey, mapInfo[id].addr, bucket); s in news && news[s] == id
    {
      var n := 0;
      while n < NEW_BUCKET_COUNT
        invariant n <= NEW_BUCKET_COUNT
        invariant forall m: nat | m < n :: !HoldsIn(env, Model(), Probe(m, start), id)
      {
        bucket := Probe(n, start);
        var pos := BucketPosition(env, nKey, true, bucket, mapInfo[id].addr);
        if vvNew[bucket, pos] == id {
          return;
        }
        n := n + 1;
      }
      SomeBucketHolds(env, Model(), id, start);
      assert false;
    }

    static function Probe(n: nat, start: nat): (bucket: nat)
      ensures bucket < NEW_BUCKET_COUNT
    {
      (n + start) % NEW_BUCKET_COUNT
    }

    static ghost predicate HoldsIn(env: Env, b: Book, bucket: nat, id: int)
      requires id in b.info
    {
      var s := NewSlotAt(env, b.key, b.info[id].addr, bucket);
      s in b.news && b.news[s] == id
    }

    static lemma SomeBucketHolds(env: Env, b: Book, id: int, start: nat)
      requires NewOk(env, b) && CountsOk(b, {}) && id in b.info && !b.info[id].inTried && start < NEW_BUCKET_COUNT
      ensures exists m: nat | m < NEW_BUCKET_COUNT :: HoldsIn(env, b, Probe(m, start), id)
    {
      assert |SlotsOf(b.news, id)| > 0;
      var s :| s in SlotsOf(b.news, id);
      var m := if s.bucket >= start then s.bucket - start else s.bucket + NEW_BUCKET_COUNT - start;
      assert HoldsIn(env, b, s.bucket, id);
      assert Probe(m, start) == s.bucket;
    }

    /** Change the statistics of an entry. */
    method UpdateInfo(id: int, i: Info)
      requires Valid() && id in mapInfo
      requires Relabelled(mapInfo[id], i) && i.inTried == mapInfo[id].inTried && i.refCount == mapInfo[id].refCount
      requires 0 <= i.lastTry && 0 <= i.lastSuccess && (i.inTried ==> i.lastSuccess != 0)
      modifies this`mapInfo
      ensures Valid() && Model() == O.SetInfo(old(Model()), id, i)
    {
      hide IdsOk, RandomOk, AddrOk, NewOk, TriedOk, CountsOk, TimesOk, Shows;
      O.SetInfoKeeps(env, Model(), id, i);
      mapInfo := mapInfo[id := i];
    }

    static lemma TimesAt(env: Env, b: Book, id: int)
      requires Consistent(env, b) && id in b.info
      ensures 0 <= b.info[id].lastTry && 0 <= b.info[id].lastSuccess
          && (b.info[id].inTried ==> b.info[id].lastSuccess != 0)
      ensures 0 <= b.info[id].refCount <= NEW_BUCKETS_PER_ADDRESS
    {
    }

    /** Mark an address good, moving its entry to the tried table if it is not there. */
    method Good(a: Service, time: int, start: nat)
      requires Valid() && 0 < time && start < NEW_BUCKET_COUNT
      modifies this, vvTried, vvNew
      ensures Valid() && Model() == O.Good(env, old(Model()), a, time)
    {
      var found, id := Find(a);
      if !found || mapInfo[id].addr != a {
        return;
      }
      var i := mapInfo[id].(lastSuccess := time, lastTry := time, attempts := 0);
      UpdateInfo(id, i);
      if i.inTried {
        return;
      }
      var bucket := FindNewBucket(id, start);
      MakeTried(id);
    }

    method Attempt(a: Service, time: int)
      requires Valid() && 0 <= time
      modifies this
      ensures Valid() && Model() == O.Attempt(old(Model()), a, time)
    {
      hide IdsOk, RandomOk, AddrOk, NewOk, TriedOk, CountsOk, TimesOk, Shows;
      var found, id := Find(a);
      if !found || mapInfo[id].addr != a {
        return;
      }
      TimesAt(env, Model(), id);
      UpdateInfo(id, mapInfo[id].(lastTry := time, attempts := mapInfo[id].attempts + 1));
    }

    method Connected(a: Service, time: int)
      requires Valid()
      modifies this
      ensures Valid() && Model() == O.Connected(old(Model()), a, time)
    {
      hide IdsOk, RandomOk, AddrOk, NewOk, TriedOk, CountsOk, TimesOk, Shows;
      var found, id := Find(a);
      if !found || mapInfo[id].addr != a {
        return;
      }
      TimesAt(env, Model(), id);
      if time - mapInfo[id].time > 20 * 60 {
        UpdateInfo(id, mapInfo[id].(time := time % UINT32));
      }
    }

    /** The stochastic test: each reference already held halves the chance of getting one more. */
    method Lucky(refs: nat, dice: nat) returns (ok: bool)
      ensures Pow(2, refs) > 0 && (ok <==> dice % Pow(2, refs) == 0)
    {
      PowPositive(2, refs);
      var factor := 1;
      var n := 0;
      while n < refs
        invariant n <= refs && factor == Pow(2, n)
      {
        factor := factor * 2;
        n := n + 1;
      }
      ok := !(factor > 1 && dice % factor != 0);
    }

    /** The last part of an addition: compete for the slot of the entry under this source. */
    method Place(id: int, source: NetAddr, now: int, ghost pending: set<int>)
      requires Shape() && Almost(env, Model(), pending)
      requires id in mapInfo && !mapInfo[id].inTried
      modifies this, vvNew
      ensures Shape() && Model() == O.Place(env, old(Model()), id, source, now, pending)
    {
      ghost var b := Model();
      var s := NewSlot(env, nKey, mapInfo[id].addr, source);
      O.PlaceReady(env, b, id, s, pending);
      var occupant := vvNew[s.bucket, s.pos];
      if occupant != id {
        var insert := occupant == -1;
        if !insert {
          insert := IsTerrible(mapInfo[occupant], now) || (mapInfo[occupant].refCount > 1 && mapInfo[id].refCount == 0);
        }
        if insert {
          EnterNew(s, id);
        } else if mapInfo[id].refCount == 0 {
          Delete(id);
        }
      }
    }

    /** Hear again about a known address. */
    method AddKnown(a: Service, services: bv64, time: int, source: NetAddr, penalty: int, now: int, dice: nat)
      requires Valid() && env.routable(a.ip) && O.Known(Model(), a)
      modifies this, vvNew
      ensures Valid() && (Model(), false) == O.Add(env, old(Model()), a, services, time, source, penalty, now, dice)
    {
      hide IdsOk, RandomOk, AddrOk, NewOk, TriedOk, CountsOk, TimesOk, Shows;
      ghost var b := Model();
      O.AddKeeps(env, b, a, services, time, source, penalty, now, dice);
      var id := mapAddr[a.ip];
      var i := O.Refresh(mapInfo[id], services, time, penalty, now);
      TimesAt(env, b, id);
      UpdateInfo(id, i);
      if time == 0 || (i.time != 0 && time <= i.time) { return; }
      if i.inTried { return; }
      if i.refCount == NEW_BUCKETS_PER_ADDRESS { return; }
      var lucky := Lucky(i.refCount, dice);
      if !lucky { return; }
      Place(id, source, now, {});
    }

    /** Hear about a new address. */
    method AddUnknown(a: Service, services: bv64, time: int, source: NetAddr, penalty: int, now: int)
      requires Valid() && env.routable(a.ip) && !O.Known(Model(), a)
      modifies this, vvNew
      ensures Valid() && (Model(), true) == O.Add(env, old(Model()), a, services, time, source, penalty, now, 0)
    {
      hide IdsOk, RandomOk, AddrOk, NewOk, TriedOk, CountsOk, TimesOk, Shows;
      ghost var b := Model();
      O.AddKeeps(env, b, a, services, time, source, penalty, now, 0);
      O.UnknownIsFree(env, b, a);
      EnrolKeeps(env, b, a, services, Max(0, time - penalty) % UINT32, source, {});
      var id := Create(a, services, time, source);
      mapInfo := mapInfo[id := mapInfo[id].(time := Max(0, time - penalty) % UINT32)];
      nNew := nNew + 1;
      assert Model() == Enrol(b, a, services, Max(0, time - penalty) % UINT32, source);
      assert {} + {id} == {id};
      Place(id, source, now, {id});
    }

    /** Hear about an address; the result says whether it was unknown. */
    method Add(a: Service, services: bv64, time: int, source: NetAddr, penalty: int, now: int, dice: nat)
        returns (isNew: bool)
      requires Valid()
      modifies this, vvNew
      ensures Valid() && (Model(), isNew) == O.Add(env, old(Model()), a, services, time, source, penalty, now, dice)
    {
      hide IdsOk, RandomOk, AddrOk, NewOk, TriedOk, CountsOk, TimesOk, Shows, O.Place, Enrol;
      isNew := false;
      if !env.routable(a.ip) {
        return;
      }
      var found, id := Find(a);
      if found {
        AddKnown(a, services, time, source, penalty, now, dice);
      } else {
        isNew := true;
        AddUnknown(a, services, time, source, penalty, now);
      }
    }

    /** Bring a random later entry to place `n` of the random order. */
    method Draw(n: nat, roll: nat)
      requires Valid() && n < |vRandom|
      modifies this
      ensures Valid() && O.Reshuffled(old(Model()), Model())
      ensures |vRandom| == |old(vRandom)| && vRandom[..n] == old(vRandom)[..n] && vRandom[n] in mapInfo
    {
      hide IdsOk, AddrOk, NewOk, TriedOk, CountsOk, TimesOk, Shows, RandomOk;
      var pos := roll % (|vRandom| - n) + n;
      OrderSound(Model());
      O.SwapReshuffles(Model(), n, pos);
      SwapKeeps(env, Model(), n, pos, {});
      SwapRandom(n, pos);
      OrderSound(Model());
    }

    /**
     Pick random addresses to hand out.  `rnd(n)` is the random number drawn in round n.
     Nobody is handed out twice, nobody terrible at all, never more than the quota; and if the quota
     was not filled then everybody fit to be handed out was.
     */
    method GetAddr(rnd: nat -> nat, now: int) returns (vAddr: seq<O.Address>, ghost picked: seq<int>)
      requires Valid()
      modifies this
      ensures Valid() && O.Reshuffled(old(Model()), Model())
      ensures |vAddr| <= O.Quota(|vRandom|) && O.HandedOut(mapInfo, picked, vAddr)
      ensures forall id | id in picked :: id in mapInfo && !IsTerrible(mapInfo[id], now)
      ensures Distinct(picked)
      ensures |vAddr| < O.Quota(|vRandom|) ==>
          forall id | id in mapInfo && !IsTerrible(mapInfo[id], now) :: id in picked
    {
      hide IdsOk, AddrOk, NewOk, TriedOk, CountsOk, TimesOk, Shows, RandomOk, Consistent, SameButPosition, O.Drawn;
      ghost var b := Model();
      var nNodes := O.Quota(|vRandom|);
      vAddr, picked := [], [];
      var n := 0;
      NoneDrawn(b.info, now);
      O.ReshuffledSelf(b);
      while n < |vRandom|
        invariant Valid() && O.Reshuffled(b, Model())
        invariant n <= |vRandom| == |b.random| && |vAddr| <= nNodes
        invariant O.Drawn(mapInfo, vRandom[..n], now, picked, vAddr)
      {
        if |vAddr| >= nNodes {
          break;
        }
        ghost var before := Model();
        Draw(n, rnd(n));
        O.ReshufflesCompose(b, before, Model());
        O.DrawnSame(before.info, mapInfo, vRandom[..n], now, picked, vAddr);
        O.DrawnMore(mapInfo, vRandom[..n], vRandom[n], now, picked, vAddr);
        assert vRandom[..n + 1] == vRandom[..n] + [vRandom[n]];
        if !IsTerrible(mapInfo[vRandom[n]], now) {
          vAddr := vAddr + [O.AddressOf(mapInfo[vRandom[n]])];
          picked := picked + [vRandom[n]];
        }
        n := n + 1;
      }
      DrawnResult(env, Model(), n, now, picked, vAddr);
    }

    static lemma NoneDrawn(info: map<int, Info>, now: int)
      ensures O.Drawn(info, [], now, [], [])
    {
    }

    static lemma DrawnResult(env: Env, b: Book, n: nat, now: int, picked: seq<int>, out: seq<O.Address>)
      requires Consistent(env, b) && n <= |b.random| && O.Drawn(b.info, b.random[..n], now, picked, out)
      ensures O.HandedOut(b.info, picked, out)
      ensures forall id | id in picked :: id in b.info && !IsTerrible(b.info[id], now)
      ensures Distinct(picked)
      ensures n == |b.random| ==> forall id | id in b.info && !IsTerrible(b.info[id], now) :: id in picked
    {
      hide IdsOk, AddrOk, NewOk, TriedOk, CountsOk, TimesOk, RandomOk;
      OrderSound(b);
      O.HealthyDistinct(b.info, b.random[..n], now);
      assert n == |b.random| ==> b.random[..n] == b.random;
    }

    static lemma OrderSound(b: Book)
      requires RandomOk(b)
      ensures forall i | 0 <= i < |b.random| :: b.random[i] in b.info
      ensures forall i, j | 0 <= i < j < |b.random| :: b.random[i] != b.random[j]
      ensures forall id | id in b.info :: id in b.random
    {
    }
  }
}
