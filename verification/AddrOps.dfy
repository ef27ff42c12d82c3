/**
 The public operations of the address manager as functions on `Book`, the proof that each keeps the
 book consistent, and what each does to the entries it names and to all others.
 */
module AddrOps {
  import opened Arithmetic
  import opened Collections
  import opened AddrBook

  /** Looking up an address finds an entry whatever its port. */
  predicate Known(b: Book, a: Service) {
    a.ip in b.addr && b.addr[a.ip] in b.info
  }

  /** The entry found has exactly this address and port. */
  predicate KnownExactly(b: Book, a: Service) {
    Known(b, a) && b.info[b.addr[a.ip]].addr == a
  }

  lemma UnknownIsFree(env: Env, b: Book, a: Service)
    requires Consistent(env, b) && !Known(b, a)
    ensures a.ip !in b.addr
  {
  }

  function SetInfo(b: Book, id: int, i: Info): Book {
    b.(info := b.info[id := i])
  }

  /** Statistics of an entry may change freely within the sign conditions. */
  lemma SetInfoKeeps(env: Env, b: Book, id: int, i: Info)
    requires Consistent(env, b) && id in b.info
    requires Relabelled(b.info[id], i) && i.inTried == b.info[id].inTried && i.refCount == b.info[id].refCount
    requires 0 <= i.lastTry && 0 <= i.lastSuccess && (i.inTried ==> i.lastSuccess != 0)
    ensures Consistent(env, SetInfo(b, id, i))
  {
    var c := SetInfo(b, id, i);
    RelabelIndex(b, c, id);
    RelabelTables(env, b, c, id);
    RelabelTimes(b, c, id);
    RelabelIds(b.info, c.info, id);
    SameCounts(b, c, id, {});
  }

  lemma SameCounts(b: Book, c: Book, id: int, pending: set<int>)
    requires CountsOk(b, pending) && id in b.info && id in c.info && c == SetInfo(b, id, c.info[id])
    requires c.info[id].inTried == b.info[id].inTried && c.info[id].refCount == b.info[id].refCount
    ensures CountsOk(c, pending)
  {
    RelabelIds(b.info, c.info, id);
  }

  // ----- Attempt_ and Connected_

  function Attempt(b: Book, a: Service, time: int): Book {
    if !KnownExactly(b, a) then b else
      var id := b.addr[a.ip];
      SetInfo(b, id, b.info[id].(lastTry := time, attempts := b.info[id].attempts + 1))
  }

  lemma AttemptKeeps(env: Env, b: Book, a: Service, time: int)
    requires Consistent(env, b) && 0 <= time
    ensures Consistent(env, Attempt(b, a, time))
  {
    if KnownExactly(b, a) {
      var id := b.addr[a.ip];
      SetInfoKeeps(env, b, id, Attempt(b, a, time).info[id]);
    }
  }

  function Connected(b: Book, a: Service, time: int): Book {
    if !KnownExactly(b, a) then b else
      var id := b.addr[a.ip];
      if time - b.info[id].time > 20 * 60 then SetInfo(b, id, b.info[id].(time := time % UINT32)) else b
  }

  lemma ConnectedKeeps(env: Env, b: Book, a: Service, time: int)
    requires Consistent(env, b)
    ensures Consistent(env, Connected(b, a, time))
  {
    if KnownExactly(b, a) {
      var id := b.addr[a.ip];
      SetInfoKeeps(env, b, id, Connected(b, a, time).info[id]);
    }
  }

  // ----- Good_

  function MakeTried(env: Env, b: Book, id: int): Book
    requires Consistent(env, b) && id in b.info && !b.info[id].inTried
  {
    StripReady(env, b, id);
    var s := TriedSlot(env, b.key, b.info[id].addr);
    Promote(Evict(env, Strip(b, id), s, {id}), s, id)
  }

  /** After stripping, freeing the tried slot does not disturb the entry on its way there. */
  lemma StripReady(env: Env, b: Book, id: int)
    requires Consistent(env, b) && id in b.info && !b.info[id].inTried
    ensures var c := Strip(b, id);
      && Almost(env, c, {id}) && (forall t | t in c.news :: c.news[t] != id)
      && forall s :: Untouched(c, Evict(env, c, s, {id}), id)
  {
    StripKeeps(env, b, id, {});
    assert {} + {id} == {id};
    var c := Strip(b, id);
    forall s ensures Untouched(c, Evict(env, c, s, {id}), id) {
      EvictFrame(env, c, s, {id}, id);
    }
  }

  /** Eviction touches only the evicted entry and the occupant of the new slot it goes to. */
  lemma EvictFrame(env: Env, b: Book, s: Slot, pending: set<int>, id: int)
    requires Almost(env, b, pending) && id in b.info
    requires s in b.tried ==> id != b.tried[s] && b.tried[s] in b.info
    requires s in b.tried ==> var t := HomeSlot(env, b, b.tried[s]); t in b.news ==> id != b.news[t]
    ensures Untouched(b, Evict(env, b, s, pending), id)
  {
    if s in b.tried {
      EvictReady(env, b, s, pending);
      var c := Demote(b, s);
      ClearNewFrame(c, HomeSlot(env, b, b.tried[s]));
      assert Untouched(c, ClearNew(c, HomeSlot(env, b, b.tried[s])), id);
    }
  }

  /** Promotion keeps the book consistent: in particular the entry's reference count has reached zero by then. */
  lemma MakeTriedKeeps(env: Env, b: Book, id: int)
    requires Consistent(env, b) && id in b.info && !b.info[id].inTried && b.info[id].lastSuccess != 0
    ensures Consistent(env, MakeTried(env, b, id))
  {
    StripReady(env, b, id);
    var s, c := TriedSlot(env, b.key, b.info[id].addr), Strip(b, id);
    EvictKeeps(env, c, s, {id});
    var d := Evict(env, c, s, {id});
    assert Untouched(c, d, id);
    assert d.key == b.key by { if s in c.tried { EvictReady(env, c, s, {id});
        ClearNewFrame(Demote(c, s), HomeSlot(env, c, c.tried[s])); } }
    PromoteKeeps(env, d, s, id, {id});
    assert {id} - {id} == {};
  }

  function Good(env: Env, b: Book, a: Service, time: int): Book
    requires Consistent(env, b) && 0 < time
  {
    if !KnownExactly(b, a) then b else
      var id := b.addr[a.ip];
      var i := b.info[id].(lastSuccess := time, lastTry := time, attempts := 0);
      SetInfoKeeps(env, b, id, i);
      if i.inTried then SetInfo(b, id, i) else MakeTried(env, SetInfo(b, id, i), id)
  }

  lemma GoodKeeps(env: Env, b: Book, a: Service, time: int)
    requires Consistent(env, b) && 0 < time
    ensures Consistent(env, Good(env, b, a, time))
  {
    if KnownExactly(b, a) {
      var id := b.addr[a.ip];
      var i := b.info[id].(lastSuccess := time, lastTry := time, attempts := 0);
      SetInfoKeeps(env, b, id, i);
      if !i.inTried {
        MakeTriedKeeps(env, SetInfo(b, id, i), id);
      }
    }
  }

  /**
   Book `c` is `b` with the occupant of tried slot `s` back in the new table: it sits in its home slot
   with one reference, whoever was in that slot loses one reference (and is gone if it was the last),
   and every other entry is as before.
   */
  ghost predicate Evicted(env: Env, b: Book, s: Slot, c: Book)
    requires s in b.tried && b.tried[s] in b.info
  {
    var e := b.tried[s];
    var t := HomeSlot(env, b, e);
    && c.key == b.key && c.idCount == b.idCount
    && c.tried == b.tried - {s} && c.news == b.news[t := e]
    && e in c.info && c.info[e] == b.info[e].(refCount := 1, inTried := false, randomPos := c.info[e].randomPos)
    && (forall o | o in b.info && o != e && (t in b.news ==> o != b.news[t]) :: Untouched(b, c, o))
    && c.info.Keys == b.info.Keys - LastReference(b, t)
  }

  /** The entry whose only slot is `t`, if there is one. */
  ghost function LastReference(b: Book, t: Slot): set<int> {
    if t in b.news && b.news[t] in b.info && b.info[b.news[t]].refCount == 1 then {b.news[t]} else {}
  }

  lemma ReentryEffect(env: Env, b: Book, s: Slot, t: Slot)
    requires s in b.tried && b.tried[s] in b.info && b.info[b.tried[s]].refCount == 0 && RandomOk(Demote(b, s))
    requires t == HomeSlot(env, b, b.tried[s])
    requires t in b.news ==>
        b.news[t] != b.tried[s] && b.news[t] in b.info && !b.info[b.news[t]].inTried && b.info[b.news[t]].refCount > 0
    ensures var c := ClearNew(Demote(b, s), t); b.tried[s] in c.info && Evicted(env, b, s, Ref(c, t, b.tried[s]))
  {
    var e, d := b.tried[s], Demote(b, s);
    ClearNewFrame(d, t);
    var m := ClearNew(d, t);
    assert Untouched(d, m, e);
    var c := Ref(m, t, e);
    forall o | o in b.info && o != e && (t in b.news ==> o != b.news[t]) ensures Untouched(b, c, o) {
      assert Untouched(d, m, o);
    }
  }

  lemma EvictEffect(env: Env, b: Book, s: Slot, pending: set<int>)
    requires Almost(env, b, pending) && s in b.tried
    ensures b.tried[s] in b.info && Evicted(env, b, s, Evict(env, b, s, pending))
  {
    EvictReady(env, b, s, pending);
    ReentryEffect(env, b, s, HomeSlot(env, b, b.tried[s]));
  }

  /** What promotion does: strip the entry from the new table, free its tried slot, and put it there. */
  lemma MakeTriedEffect(env: Env, b: Book, id: int) returns (s: Slot, d: Book)
    requires Consistent(env, b) && id in b.info && !b.info[id].inTried
    ensures s == TriedSlot(env, b.key, b.info[id].addr)
    ensures s !in b.tried ==> d == Strip(b, id)
    ensures s in b.tried ==> b.tried[s] in b.info && Evicted(env, Strip(b, id), s, d)
    ensures Untouched(Strip(b, id), d, id) && d.tried == b.tried - {s}
    ensures MakeTried(env, b, id) == Promote(d, s, id)
  {
    StripReady(env, b, id);
    s, d := TriedSlot(env, b.key, b.info[id].addr), Evict(env, Strip(b, id), TriedSlot(env, b.key, b.info[id].addr),
        {id});
    if s in b.tried {
      EvictEffect(env, Strip(b, id), s, {id});
    }
  }

  ghost predicate InTriedSlot(b: Book, id: int, s: Slot, c: Book)
    requires id in b.info
  {
    && id in c.info && c.info[id] == b.info[id].(refCount := 0, inTried := true, randomPos := c.info[id].randomPos)
    && c.tried == b.tried[s := id]
  }

  lemma PromotedEntry(b: Book, id: int, s: Slot, d: Book)
    requires id in b.info && Untouched(Strip(b, id), d, id) && d.tried == b.tried - {s}
    ensures InTriedSlot(b, id, s, Promote(d, s, id))
  {
  }

  /** Marking an exactly known address good leaves it in its tried slot, counted as tried, with fresh statistics. */
  lemma GoodEffect(env: Env, b: Book, a: Service, time: int)
    requires Consistent(env, b) && 0 < time && KnownExactly(b, a)
    ensures var c, id := Good(env, b, a, time), b.addr[a.ip];
      && id in c.info
      && c.info[id] == b.info[id].(lastSuccess := time, lastTry := time, attempts := 0, refCount := 0, inTried := true,
          randomPos := c.info[id].randomPos)
      && c.tried == b.tried[TriedSlot(env, b.key, a) := id]
  {
    var id := b.addr[a.ip];
    var i := b.info[id].(lastSuccess := time, lastTry := time, attempts := 0);
    SetInfoKeeps(env, b, id, i);
    if i.inTried {
      TriedUnreferenced(env, b, id, {});
    } else {
      var s, d := MakeTriedEffect(env, SetInfo(b, id, i), id);
      PromotedEntry(SetInfo(b, id, i), id, s, d);
    }
  }

  // ----- Add_

  /** The entry with its time brought up to date, if what was heard is newer by the interval. */
  function Updated(i: Info, time: int, penalty: int, now: int): Info {
    var interval := if now - time < DAY then 60 * 60 else DAY;
    if time != 0 && (i.time == 0 || i.time < time - interval - penalty)
    then i.(time := Max(0, time - penalty) % UINT32) else i
  }

  /** Refreshing a known entry with what was just heard about its address. */
  function Refresh(i: Info, services: bv64, time: int, penalty: int, now: int): Info {
    var j := Updated(i, time, penalty, now);
    j.(services := j.services | services)
  }

  /** Whether a refreshed entry goes on to compete for one more slot. */
  predicate WantsSlot(i: Info, time: int, dice: nat)
    requires 0 <= i.refCount
  {
    PowPositive(2, i.refCount);
    && !(time == 0 || (i.time != 0 && time <= i.time))
    && !i.inTried
    && i.refCount != NEW_BUCKETS_PER_ADDRESS
    && dice % Pow(2, i.refCount) == 0
  }

  /** Whether entry `id` may take slot `s`, held by someone else or free. */
  predicate Yields(b: Book, s: Slot, id: int, now: int)
    requires id in b.info && (s in b.news ==> b.news[s] in b.info)
  {
    s !in b.news || IsTerrible(b.info[b.news[s]], now) || (b.info[b.news[s]].refCount > 1 && b.info[id].refCount == 0)
  }

  lemma PlaceReady(env: Env, b: Book, id: int, s: Slot, pending: set<int>)
    requires Almost(env, b, pending) && id in b.info
    ensures s in b.news ==> b.news[s] in b.info && !b.info[b.news[s]].inTried && b.info[b.news[s]].refCount > 0
    ensures (s in b.news ==> b.news[s] != id) ==> Untouched(b, ClearNew(b, s), id)
  {
    if s in b.news {
      OccupantCounted(env, b, s, pending);
    }
    ClearNewFrame(b, s);
  }

  function Place(env: Env, b: Book, id: int, source: NetAddr, now: int, ghost pending: set<int>): Book
    requires Almost(env, b, pending) && id in b.info && !b.info[id].inTried
  {
    var s := NewSlot(env, b.key, b.info[id].addr, source);
    PlaceReady(env, b, id, s, pending);
    if s in b.news && b.news[s] == id then b
    else if Yields(b, s, id, now) then Ref(ClearNew(b, s), s, id)
    else if b.info[id].refCount == 0 then Delete(b, id)
    else b
  }

  lemma PlaceKeeps(env: Env, b: Book, id: int, source: NetAddr, now: int, pending: set<int>)
    requires Almost(env, b, pending) && id in b.info && !b.info[id].inTried
    requires b.info[id].refCount < NEW_BUCKETS_PER_ADDRESS && pending <= {id}
    requires pending == {} || b.info[id].refCount == 0
    ensures Consistent(env, Place(env, b, id, source, now, pending))
  {
    var s := NewSlot(env, b.key, b.info[id].addr, source);
    PlaceReady(env, b, id, s, pending);
    if s in b.news && b.news[s] == id {
      assert pending == {};
    } else if Yields(b, s, id, now) {
      ClearNewKeeps(env, b, s, pending);
      ClearNewFrame(b, s);
      RefKeeps(env, ClearNew(b, s), s, id, pending);
      assert pending - {id} == {};
    } else if b.info[id].refCount == 0 {
      DeleteKeeps(env, b, id, pending);
      assert pending - {id} == {};
    } else {
      assert pending == {};
    }
  }

  /** The manager after hearing about an address, and whether the address was unknown. */
  function Add(env: Env, b: Book, a: Service, services: bv64, time: int, source: NetAddr, penalty: int, now: int,
      dice: nat): (Book, bool)
    requires Consistent(env, b)
  {
    if !env.routable(a.ip) then (b, false)
    else if Known(b, a) then
      var id := b.addr[a.ip];
      var i := Refresh(b.info[id], services, time, penalty, now);
      SetInfoKeeps(env, b, id, i);
      var c := SetInfo(b, id, i);
      if WantsSlot(i, time, dice) then (Place(env, c, id, source, now, {}), false) else (c, false)
    else
      EnrolKeeps(env, b, a, services, Max(0, time - penalty) % UINT32, source, {});
      var c := Enrol(b, a, services, Max(0, time - penalty) % UINT32, source);
      (Place(env, c, b.idCount, source, now, {b.idCount}), true)
  }

  lemma AddKeeps(env: Env, b: Book, a: Service, services: bv64, time: int, source: NetAddr, penalty: int, now: int,
      dice: nat)
    requires Consistent(env, b)
    ensures Consistent(env, Add(env, b, a, services, time, source, penalty, now, dice).0)
  {
    if env.routable(a.ip) {
      if Known(b, a) {
        var id := b.addr[a.ip];
        var i := Refresh(b.info[id], services, time, penalty, now);
        SetInfoKeeps(env, b, id, i);
        if WantsSlot(i, time, dice) {
          PlaceKeeps(env, SetInfo(b, id, i), id, source, now, {});
        }
      } else {
        EnrolKeeps(env, b, a, services, Max(0, time - penalty) % UINT32, source, {});
        PlaceKeeps(env, Enrol(b, a, services, Max(0, time - penalty) % UINT32, source), b.idCount, source, now,
            {b.idCount});
      }
    }
  }

  /** Every entry of `c` is one of `b`, at the same address. */
  ghost predicate Inherits(b: Book, c: Book) {
    forall o | o in c.info :: o in b.info && c.info[o].addr == b.info[o].addr
  }

  lemma DeleteInherits(b: Book, id: int)
    requires RandomOk(b) && id in b.info && !b.info[id].inTried && b.info[id].refCount == 0
    ensures Inherits(b, Delete(b, id))
  {
    SwapRandomOrder(b, b.info[id].randomPos, |b.random| - 1);
  }

  lemma ClearNewInherits(b: Book, s: Slot)
    requires RandomOk(b)
    requires s in b.news ==> b.news[s] in b.info && !b.info[b.news[s]].inTried && b.info[b.news[s]].refCount > 0
    ensures Inherits(b, ClearNew(b, s))
  {
    if s in b.news {
      var d, id := Unref(b, s), b.news[s];
      if d.info[id].refCount == 0 {
        RelabelRandom(b, d, id);
        DeleteInherits(d, id);
      }
    }
  }

  lemma PlaceInherits(env: Env, b: Book, id: int, source: NetAddr, now: int, pending: set<int>)
    requires Almost(env, b, pending) && id in b.info && !b.info[id].inTried
    ensures Inherits(b, Place(env, b, id, source, now, pending))
  {
    var s := NewSlot(env, b.key, b.info[id].addr, source);
    PlaceReady(env, b, id, s, pending);
    ClearNewInherits(b, s);
    if b.info[id].refCount == 0 {
      DeleteInherits(b, id);
    }
  }

  /** Competing for a slot: who ends up in it, who may be disturbed, and when the competitor is dropped. */
  lemma PlaceEffect(env: Env, b: Book, id: int, s: Slot, source: NetAddr, now: int, pending: set<int>)
    requires Almost(env, b, pending) && id in b.info && !b.info[id].inTried
    requires s == NewSlot(env, b.key, b.info[id].addr, source)
    ensures s in b.news ==> b.news[s] in b.info
    ensures var c := Place(env, b, id, source, now, pending);
      && c.tried == b.tried && c.key == b.key
      && c.news == (if Yields(b, s, id, now) then b.news[s := id] else b.news)
      && (id in c.info <==> b.info[id].refCount > 0 || Yields(b, s, id, now))
      && (forall o | o in b.info && o != id && (s in b.news ==> o != b.news[s]) :: Untouched(b, c, o))
  {
    PlaceReady(env, b, id, s, pending);
    if s in b.news && b.news[s] == id {
      OccupantCounted(env, b, s, pending);
    } else if Yields(b, s, id, now) {
      ClearNewFrame(b, s);
      TakenSlot(b, s, id);
    } else if b.info[id].refCount == 0 {
      DeleteFrame(b, id);
    }
  }

  lemma TakenSlot(b: Book, s: Slot, id: int)
    requires RandomOk(b) && id in b.info
    requires s in b.news ==>
        b.news[s] != id && b.news[s] in b.info && !b.info[b.news[s]].inTried && b.info[b.news[s]].refCount > 0
    ensures id in ClearNew(b, s).info
    ensures var c := Ref(ClearNew(b, s), s, id);
      && id in c.info && c.news == b.news[s := id] && c.tried == b.tried && c.key == b.key
      && (forall o | o in b.info && o != id && (s in b.news ==> o != b.news[s]) :: Untouched(b, c, o))
  {
    ClearNewFrame(b, s);
    var m := ClearNew(b, s);
    assert Untouched(b, m, id);
    var c := Ref(m, s, id);
    forall o | o in b.info && o != id && (s in b.news ==> o != b.news[s]) ensures Untouched(b, c, o) {
      assert Untouched(b, m, o);
    }
  }

  lemma DeleteFrame(b: Book, id: int)
    requires RandomOk(b) && id in b.info && !b.info[id].inTried && b.info[id].refCount == 0
    ensures var c := Delete(b, id);
      && c.tried == b.tried && c.news == b.news && c.key == b.key && id !in c.info
      && forall o | o in b.info && o != id :: Untouched(b, c, o)
  {
    hide RandomOk;
    var last, m := DeleteSplit(b, id);
    SwapSame(b, b.info[id].randomPos, last);
  }

  lemma SwapSame(b: Book, i: int, j: int)
    requires RandomOk(b) && 0 <= i < |b.random| && 0 <= j < |b.random|
    ensures var m := SwapRandom(b, i, j);
      && m.tried == b.tried && m.news == b.news && m.key == b.key && m.info.Keys == b.info.Keys
      && forall o | o in b.info :: Untouched(b, m, o)
  {
    SwapRandomOrder(b, i, j);
  }

  /**
   Adding an unknown routable address: it is kept exactly when its slot is free or the occupant is
   terrible or has another slot to live in; nobody but that occupant is disturbed.
   */
  lemma AddUnknownEffect(env: Env, b: Book, a: Service, services: bv64, time: int, source: NetAddr, penalty: int,
      now: int, dice: nat)
    requires Consistent(env, b) && env.routable(a.ip) && !Known(b, a)
    ensures var (c, isNew) := Add(env, b, a, services, time, source, penalty, now, dice);
      var s := NewSlot(env, b.key, a, source);
      && isNew && c.tried == b.tried
      && (s in b.news ==> b.news[s] in b.info)
      && (Known(c, a) <==> s !in b.news || IsTerrible(b.info[b.news[s]], now) || b.info[b.news[s]].refCount > 1)
      && c.news == (if Known(c, a) then b.news[s := b.idCount] else b.news)
      && (forall o | o in b.info && (s in b.news ==> o != b.news[s]) :: Untouched(b, c, o))
  {
    hide RandomOk, TriedOk, CountsOk, TimesOk, NewOk;
    assert {} + {b.idCount} == {b.idCount};
    var e := Enrol(b, a, services, Max(0, time - penalty) % UINT32, source);
    EnrolKeeps(env, b, a, services, Max(0, time - penalty) % UINT32, source, {});
    var s := NewSlot(env, b.key, a, source);
    var id := b.idCount;
    PlaceEffect(env, e, id, s, source, now, {id});
    var c := Place(env, e, id, source, now, {id});
    NewOccupantOld(env, b, s);
    PlaceKeeps(env, e, id, source, now, {id});
    PlaceInherits(env, e, id, source, now, {id});
    KnownById(e, c, a);
    forall o | o in b.info && (s in b.news ==> o != b.news[s]) ensures Untouched(b, c, o) {
      assert Untouched(e, c, o);
    }
  }

  lemma NewOccupantOld(env: Env, b: Book, s: Slot)
    requires Consistent(env, b)
    ensures s in b.news ==> b.news[s] in b.info && b.news[s] != b.idCount
  {
  }

  /** An address is known exactly when the identifier it once had is still in use. */
  lemma KnownById(b: Book, c: Book, a: Service)
    requires AddrOk(b) && AddrOk(c) && Inherits(b, c) && Known(b, a) && b.info[b.addr[a.ip]].addr == a
    ensures Known(c, a) <==> b.addr[a.ip] in c.info
  {
    var id := b.addr[a.ip];
    if Known(c, a) {
      var o := c.addr[a.ip];
      assert b.info[o].addr.ip == a.ip;
    }
    if id in c.info {
      assert b.info[id].addr == a;
      assert c.info[id].addr.ip == a.ip;
    }
  }

  // ----- GetAddr_

  const GETADDR_MAX_PCT: nat := 23
  const GETADDR_MAX: nat := 2500

  /** An address as handed out to peers (CAddress). */
  datatype Address = Address(addr: Service, services: bv64, time: int)

  function AddressOf(i: Info): Address {
    Address(i.addr, i.services, i.time)
  }

  /** How many addresses may be handed out at most. */
  function Quota(size: nat): nat {
    var n := GETADDR_MAX_PCT * size / 100;
    if n > GETADDR_MAX then GETADDR_MAX else n
  }

  /** The identifiers among `ids`, in order, whose entries are not terrible. */
  function Healthy(info: map<int, Info>, ids: seq<int>, now: int): (r: seq<int>)
    requires forall id | id in ids :: id in info
    ensures forall id :: id in r <==> id in ids && !IsTerrible(info[id], now)
  {
    if ids == [] then [] else
      var last := ids[|ids| - 1];
      var rest := Healthy(info, ids[..|ids| - 1], now);
      if IsTerrible(info[last], now) then rest else rest + [last]
  }

  lemma {:induction false} HealthyDistinct(info: map<int, Info>, ids: seq<int>, now: int)
    requires forall id | id in ids :: id in info
    requires Distinct(ids)
    ensures Distinct(Healthy(info, ids, now))
  {
    if ids != [] {
      var last, prefix := ids[|ids| - 1], ids[..|ids| - 1];
      HealthyDistinct(info, prefix, now);
      assert last !in prefix;
      var r, rest := Healthy(info, ids, now), Healthy(info, prefix, now);
      assert last !in rest;
      assert r == if IsTerrible(info[last], now) then rest else rest + [last];
    }
  }

  /** The position of an entry in the random order does not affect its health. */
  lemma {:induction false} HealthySame(m: map<int, Info>, n: map<int, Info>, ids: seq<int>, now: int)
    requires SameButPosition(m, n)
    requires forall id | id in ids :: id in m
    ensures forall id | id in ids :: id in n
    ensures Healthy(n, ids, now) == Healthy(m, ids, now)
  {
    if ids != [] {
      HealthySame(m, n, ids[..|ids| - 1], now);
      assert ids[|ids| - 1] in ids;
    }
  }

  /** A book whose random order was shuffled and nothing else. */
  ghost predicate Reshuffled(b: Book, c: Book) {
    c == b.(info := c.info, random := c.random) && SameButPosition(b.info, c.info)
        && multiset(c.random) == multiset(b.random)
  }

  lemma SwapReshuffles(b: Book, i: int, j: int)
    requires RandomOk(b) && 0 <= i < |b.random| && 0 <= j < |b.random|
    ensures Reshuffled(b, SwapRandom(b, i, j)) && RandomOk(SwapRandom(b, i, j))
    ensures forall k | 0 <= k < i && k < j :: SwapRandom(b, i, j).random[k] == b.random[k]
  {
    SwapRandomOrder(b, i, j);
  }

  lemma ReshuffledSelf(b: Book)
    ensures Reshuffled(b, b)
  {
  }

  lemma ReshufflesCompose(b: Book, c: Book, d: Book)
    requires Reshuffled(b, c) && Reshuffled(c, d)
    ensures Reshuffled(b, d)
  {
  }

  /** The addresses in `out` are those of the entries `picked`. */
  ghost predicate HandedOut(info: map<int, Info>, picked: seq<int>, out: seq<Address>) {
    && |picked| == |out|
    && forall i | 0 <= i < |picked| ::
        && picked[i] in info
        && out[i].addr == info[picked[i]].addr && out[i].services == info[picked[i]].services
        && out[i].time == info[picked[i]].time
  }

  lemma HandedOutSame(m: map<int, Info>, n: map<int, Info>, picked: seq<int>, out: seq<Address>)
    requires SameButPosition(m, n) && HandedOut(m, picked, out)
    ensures HandedOut(n, picked, out)
  {
    assert forall id | id in m :: n[id] == m[id].(randomPos := n[id].randomPos);
  }

  /** The loop state of handing out addresses: the healthy entries among those drawn so far, in order. */
  ghost predicate Drawn(info: map<int, Info>, drawn: seq<int>, now: int, picked: seq<int>, out: seq<Address>) {
    && (forall id | id in drawn :: id in info)
    && picked == Healthy(info, drawn, now) && HandedOut(info, picked, out)
  }

  lemma DrawnSame(m: map<int, Info>, n: map<int, Info>, drawn: seq<int>, now: int, picked: seq<int>, out: seq<Address>)
    requires SameButPosition(m, n) && Drawn(m, drawn, now, picked, out)
    ensures Drawn(n, drawn, now, picked, out)
  {
    HealthySame(m, n, drawn, now);
    HandedOutSame(m, n, picked, out);
  }

  lemma DrawnMore(info: map<int, Info>, drawn: seq<int>, id: int, now: int, picked: seq<int>, out: seq<Address>)
    requires Drawn(info, drawn, now, picked, out) && id in info
    ensures if IsTerrible(info[id], now) then Drawn(info, drawn + [id], now, picked, out)
            else Drawn(info, drawn + [id], now, picked + [id], out + [AddressOf(info[id])])
  {
    assert (drawn + [id])[..|drawn|] == drawn;
  }

  // ----- whole runs

  datatype Op =
    | Adding(a: Service, services: bv64, time: int, source: NetAddr, penalty: int, now: int, dice: nat)
    | MarkingGood(a: Service, time: int)
    | Attempting(a: Service, time: int)
    | Connecting(a: Service, time: int)
    | Shuffling(i: nat, j: nat)

  /** Callers pass positive times; a shuffle of the random order stays within it. */
  predicate Legal(b: Book, op: Op) {
    match op
    case MarkingGood(_, time) => 0 < time
    case Attempting(_, time) => 0 <= time
    case Shuffling(i, j) => i < |b.random| && j < |b.random|
    case _ => true
  }

  function Step(env: Env, b: Book, op: Op): (c: Book)
    requires Consistent(env, b)
  {
    if !Legal(b, op) then b else
      match op
      case Adding(a, services, time, source, penalty, now, dice) =>
          Add(env, b, a, services, time, source, penalty, now, dice).0
      case MarkingGood(a, time) => Good(env, b, a, time)
      case Attempting(a, time) => Attempt(b, a, time)
      case Connecting(a, time) => Connected(b, a, time)
      case Shuffling(i, j) => SwapRandom(b, i, j)
  }

  lemma StepKeeps(env: Env, b: Book, op: Op)
    requires Consistent(env, b)
    ensures Consistent(env, Step(env, b, op))
  {
    hide IdsOk, AddrOk, NewOk, TriedOk, CountsOk, TimesOk;
    if Legal(b, op) {
      match op
      case Adding(a, services, time, source, penalty, now, dice) =>
          AddKeeps(env, b, a, services, time, source, penalty, now, dice);
      case MarkingGood(a, time) => GoodKeeps(env, b, a, time);
      case Attempting(a, time) => AttemptKeeps(env, b, a, time);
      case Connecting(a, time) => ConnectedKeeps(env, b, a, time);
      case Shuffling(i, j) => SwapKeeps(env, b, i, j, {});
    }
  }

  const NO_BOOK := Book(0, 0, map[], map[], [], 0, map[], 0, map[])

  ghost predicate IsRun(env: Env, key: nat, ops: seq<Op>, states: seq<Book>) {
    && |states| == |ops| + 1
    && states[0] == NO_BOOK.(key := key)
    && forall k | 0 <= k < |ops| :: Consistent(env, states[k]) ==> states[k + 1] == Step(env, states[k], ops[k])
  }

  /** Every state of every run from an empty manager passes the consistency check. */
  lemma {:induction false} EveryRunConsistent(env: Env, key: nat, ops: seq<Op>, states: seq<Book>, k: nat)
    requires key != 0 && IsRun(env, key, ops, states) && k <= |ops|
    ensures Consistent(env, states[k])
  {
    hide IdsOk, RandomOk, AddrOk, NewOk, TriedOk, CountsOk, TimesOk;
    if k == 0 {
      EmptyConsistent(env, key);
    } else {
      EveryRunConsistent(env, key, ops, states, k - 1);
      StepKeeps(env, states[k - 1], ops[k - 1]);
    }
  }

  lemma EmptyConsistent(env: Env, key: nat)
    requires key != 0
    ensures Consistent(env, NO_BOOK.(key := key))
  {
    var b := NO_BOOK.(key := key);
    assert TriedIds(b.info) == {} && NewIds(b.info) == {};
  }

  // ----- Clear

  /** Clearing empties the tables, the order and the counters, but neither the entries nor the address index. */
  function Clear(b: Book, key: nat): Book {
    b.(key := key, idCount := 0, random := [], nTried := 0, tried := map[], nNew := 0, news := map[])
  }

  /** So a cleared manager is consistent exactly when it held nothing: loading must start from a fresh one. */
  lemma ClearConsistent(env: Env, b: Book, key: nat)
    requires key != 0
    ensures Consistent(env, Clear(b, key)) <==> b.info == map[] && b.addr == map[]
  {
    var c := Clear(b, key);
    if b.info == map[] && b.addr == map[] {
      EmptyConsistent(env, key);
      assert c == NO_BOOK.(key := key);
    }
    if Consistent(env, c) {
      assert b.info.Keys == {};
      assert b.addr.Keys == {};
    }
  }

  /**
   Clearing a manager that has heard of one routable address, whatever the hashes and keys, leaves it inconsistent.
   */
  lemma ClearLeavesEntries(env: Env, key: nat, newKey: nat, a: Service, services: bv64, time: int, source: NetAddr,
      penalty: int, now: int, dice: nat)
    requires key != 0 && newKey != 0 && env.routable(a.ip)
    ensures Consistent(env, NO_BOOK.(key := key))
    ensures var b := Step(env, NO_BOOK.(key := key), Adding(a, services, time, source, penalty, now, dice));
      Consistent(env, b) && Known(b, a) && !Consistent(env, Clear(b, newKey)) && Known(Clear(b, newKey), a)
  {
    hide IdsOk, RandomOk, AddrOk, NewOk, TriedOk, CountsOk, TimesOk, Add;
    var empty, op := NO_BOOK.(key := key), Adding(a, services, time, source, penalty, now, dice);
    EmptyConsistent(env, key);
    StepKeeps(env, empty, op);
    AddUnknownEffect(env, empty, a, services, time, source, penalty, now, dice);
    ClearConsistent(env, Step(env, empty, op), newKey);
  }
}
