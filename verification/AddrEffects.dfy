/**
 What the operations of the address manager come to in plain numbers: times, services and statistics of the entry
 named, the slot it may win, who else is touched, who counts as terrible, and over how many buckets a group spreads.
 */
module AddrEffects {
  import opened Arithmetic
  import opened Collections
  import opened AddrBook
  import opened AddrOps

  /** Terrible: not tried within the last minute, and stale, out of time, or failing too often. */
  lemma TerribleExact(i: Info, now: int)
    ensures IsTerrible(i, now) <==>
      && (i.lastTry == 0 || now - i.lastTry > 60)
      && (|| i.time > now + 600 || i.time == 0 || now - i.time > 2_592_000
          || (i.lastSuccess == 0 && i.attempts >= 3)
          || (now - i.lastSuccess > 604_800 && i.attempts >= 10))
  {
  }

  /** At most 23 percent of the entries are handed out, and never more than 2500. */
  lemma QuotaExact(size: nat)
    ensures 100 * Quota(size) <= 23 * size && Quota(size) <= 2500
    ensures Quota(size) < 2500 ==> 23 * size < 100 * (Quota(size) + 1)
  {
  }

  lemma AttemptEffect(b: Book, a: Service, time: int)
    ensures !KnownExactly(b, a) ==> Attempt(b, a, time) == b
    ensures KnownExactly(b, a) ==>
      var id, c := b.addr[a.ip], Attempt(b, a, time);
      && id in c.info && c == b.(info := b.info[id := c.info[id]])
      && c.info[id].lastTry == time && c.info[id].attempts == b.info[id].attempts + 1
      && c.info[id] == b.info[id].(lastTry := c.info[id].lastTry, attempts := c.info[id].attempts)
  {
  }

  /** The time of an entry is raised on a connection only if it is more than twenty minutes old. */
  lemma ConnectedEffect(b: Book, a: Service, time: int)
    ensures !KnownExactly(b, a) ==> Connected(b, a, time) == b
    ensures KnownExactly(b, a) ==>
      var id, c := b.addr[a.ip], Connected(b, a, time);
      && id in c.info && c == b.(info := b.info[id := c.info[id]])
      && c.info[id] == b.info[id].(time := c.info[id].time)
      && c.info[id].time == if b.info[id].time + 1200 < time then time % 0x1_0000_0000 else b.info[id].time
  {
  }

  // ----- hearing about a known address

  /** The time an entry has after its address was heard of again: only what is newer by an hour or a day counts. */
  function HeardTime(known: int, time: int, penalty: int, now: int): int {
    if time != 0 && (known == 0 || known + (if now - time < 86400 then 3600 else 86400) + penalty < time) then
      Max(0, time - penalty) % 0x1_0000_0000
    else known
  }

  /** Whether the entry competes for another slot: the news is new, and its references leave it the luck. */
  predicate Competes(i: Info, time: int, penalty: int, now: int, dice: nat) {
    && time != 0 && (HeardTime(i.time, time, penalty, now) == 0 || HeardTime(i.time, time, penalty, now) < time)
    && !i.inTried && 0 <= i.refCount < 8 && Pow(2, i.refCount) > 0 && dice % Pow(2, i.refCount) == 0
  }

  /** Whether an entry with references gets the slot `s` on top of those it has. */
  predicate Wins(b: Book, s: Slot, id: int, now: int) {
    s !in b.news || (b.news[s] in b.info && b.news[s] != id && IsTerrible(b.info[b.news[s]], now))
  }

  /** Book `c` is `b` with entry `id` renewed to `i`, and in slot `s` as well if it won that. */
  ghost predicate Renewed(b: Book, c: Book, id: int, i: Info, s: Slot, won: bool) {
    && id in b.info && id in c.info && c.key == b.key && c.tried == b.tried
    && c.info[id] == i.(refCount := i.refCount + if won then 1 else 0, randomPos := c.info[id].randomPos)
    && c.news == (if won then b.news[s := id] else b.news)
    && (forall o | o in b.info && o != id && !(won && s in b.news && o == b.news[s]) :: Untouched(b, c, o))
    && c.info.Keys == b.info.Keys - if won then LastReference(b, s) else {}
  }

  lemma PlaceRenews(env: Env, b: Book, id: int, source: NetAddr, now: int)
    requires Consistent(env, b) && id in b.info && !b.info[id].inTried && b.info[id].refCount < 8
    ensures var s := NewSlot(env, b.key, b.info[id].addr, source);
      Renewed(b, Place(env, b, id, source, now, {}), id, b.info[id], s, Wins(b, s, id, now))
  {
    var s := NewSlot(env, b.key, b.info[id].addr, source);
    PlaceReady(env, b, id, s, {});
    PlaceEffect(env, b, id, s, source, now, {});
    assert b.info[id].refCount > 0;
    ClearNewFrame(b, s);
  }

  /** What is done to a renewed entry is done to the entry. */
  lemma RenewedFrom(b: Book, c: Book, id: int, i: Info, s: Slot, now: int)
    requires id in b.info && Relabelled(b.info[id], i) && i.refCount == b.info[id].refCount
    requires Renewed(SetInfo(b, id, i), c, id, i, s, Wins(SetInfo(b, id, i), s, id, now))
    ensures Renewed(b, c, id, i, s, Wins(b, s, id, now))
  {
    var d := SetInfo(b, id, i);
    forall o | o in b.info && o != id && Untouched(d, c, o) ensures Untouched(b, c, o) {
    }
    assert d.info.Keys == b.info.Keys;
  }

  lemma OnlyRenewed(b: Book, id: int, i: Info, s: Slot)
    requires id in b.info && Relabelled(b.info[id], i)
    ensures Renewed(b, SetInfo(b, id, i), id, i, s, false)
  {
    var d := SetInfo(b, id, i);
    forall o | o in b.info && o != id ensures Untouched(b, d, o) {
    }
  }

  lemma UpdatedExact(i: Info, time: int, penalty: int, now: int)
    ensures Updated(i, time, penalty, now) == i.(time := HeardTime(i.time, time, penalty, now))
  {
  }

  lemma RefreshExact(i: Info, services: bv64, time: int, penalty: int, now: int, heard: int)
    requires Updated(i, time, penalty, now) == i.(time := heard)
    ensures Refresh(i, services, time, penalty, now) == i.(time := heard, services := i.services | services)
  {
    hide Updated;
  }

  lemma CompetesExact(i: Info, j: Info, services: bv64, time: int, penalty: int, now: int, dice: nat)
    requires 0 <= i.refCount <= 8
    requires j == i.(time := HeardTime(i.time, time, penalty, now), services := services)
    ensures WantsSlot(j, time, dice) <==> Competes(i, time, penalty, now, dice)
  {
    hide Pow, HeardTime;
    PowPositive(2, i.refCount);
  }

  lemma CompetitorFits(i: Info, time: int, penalty: int, now: int, dice: nat)
    requires Competes(i, time, penalty, now, dice)
    ensures !i.inTried && i.refCount < 8
  {
  }

  /**
   Hearing about a known routable address: the entry's time and services follow the news, it gets another slot
   exactly if it competes and the slot under this source is free or held by somebody else who is terrible, and only
   that somebody is disturbed.
   */
  lemma AddKnownEffect(env: Env, b: Book, a: Service, services: bv64, time: int, source: NetAddr, penalty: int,
      now: int, dice: nat)
    requires Consistent(env, b) && env.routable(a.ip) && Known(b, a)
    ensures var (c, isNew) := Add(env, b, a, services, time, source, penalty, now, dice);
      var id := b.addr[a.ip];
      var i := b.info[id];
      var s := NewSlot(env, b.key, i.addr, source);
      && !isNew
      && Renewed(b, c, id,
          i.(time := HeardTime(i.time, time, penalty, now), services := i.services | services), s,
          Competes(i, time, penalty, now, dice) && Wins(b, s, id, now))
  {
    hide RandomOk, TriedOk, NewOk, AddrOk, IdsOk, Renewed, HeardTime, Competes, Refresh, Updated, WantsSlot,
        Wins, Place;
    var id := b.addr[a.ip];
    var i := Refresh(b.info[id], services, time, penalty, now);
    UpdatedExact(b.info[id], time, penalty, now);
    RefreshExact(b.info[id], services, time, penalty, now, HeardTime(b.info[id].time, time, penalty, now));
    CompetesExact(b.info[id], i, i.services, time, penalty, now, dice);
    SetInfoKeeps(env, b, id, i);
    var d, s := SetInfo(b, id, i), NewSlot(env, b.key, i.addr, source);
    if WantsSlot(i, time, dice) {
      CompetitorFits(b.info[id], time, penalty, now, dice);
      PlaceRenews(env, d, id, source, now);
      RenewedFrom(b, Place(env, d, id, source, now, {}), id, i, s, now);
    } else {
      OnlyRenewed(b, id, i, s);
    }
  }

  // ----- hearing about an unknown address

  lemma PlacesNew(env: Env, b: Book, id: int, s: Slot, source: NetAddr, now: int)
    requires Almost(env, b, {id}) && id in b.info && !b.info[id].inTried && b.info[id].refCount == 0
    requires s == NewSlot(env, b.key, b.info[id].addr, source)
    ensures s in b.news ==> b.news[s] in b.info
    ensures var c := Place(env, b, id, source, now, {id});
      && (id in c.info <==> Yields(b, s, id, now))
      && (id in c.info ==> c.info[id] == b.info[id].(refCount := 1, randomPos := c.info[id].randomPos))
  {
    PlaceReady(env, b, id, s, {id});
    PlaceEffect(env, b, id, s, source, now, {id});
    ClearNewFrame(b, s);
    if s in b.news {
      OccupantCounted(env, b, s, {id});
    }
  }

  /** An unknown address that is kept starts with what was heard of it, one reference and no history. */
  lemma AddedEntry(env: Env, b: Book, a: Service, services: bv64, time: int, source: NetAddr, penalty: int, now: int,
      dice: nat)
    requires Consistent(env, b) && env.routable(a.ip) && !Known(b, a)
    ensures var (c, _) := Add(env, b, a, services, time, source, penalty, now, dice);
      Known(c, a) ==>
        && c.addr[a.ip] == b.idCount
        && c.info[b.idCount] == Info(a, services, Max(0, time - penalty) % 0x1_0000_0000, source, 0, 0, 0, 1, false,
            c.info[b.idCount].randomPos)
  {
    hide RandomOk, TriedOk, CountsOk, TimesOk, NewOk, Place;
    assert {} + {b.idCount} == {b.idCount};
    var e := Enrol(b, a, services, Max(0, time - penalty) % UINT32, source);
    EnrolKeeps(env, b, a, services, Max(0, time - penalty) % UINT32, source, {});
    PlacesNew(env, e, b.idCount, NewSlot(env, b.key, a, source), source, now);
    PlaceKeeps(env, e, b.idCount, source, now, {b.idCount});
    PlaceInherits(env, e, b.idCount, source, now, {b.idCount});
    KnownById(e, Place(env, e, b.idCount, source, now, {b.idCount}), a);
  }

  // ----- how far one group of addresses reaches

  /** The first `n` values of a function. */
  function Values(f: nat -> nat, n: nat): (r: set<nat>)
    ensures |r| <= n && forall c: nat | c < n :: f(c) in r
  {
    if n == 0 then {} else Values(f, n - 1) + {f(n - 1)}
  }

  ghost predicate IsValue(f: nat -> nat, n: nat, k: nat) {
    exists c: nat :: c < n && f(c) == k
  }

  lemma ValueAt(f: nat -> nat, n: nat, c: nat)
    requires c < n
    ensures IsValue(f, n, f(c))
  {
  }

  /** A set of values of a function at arguments below `n` has at most `n` elements. */
  lemma FewValues(f: nat -> nat, n: nat, some: set<nat>)
    requires forall k | k in some :: IsValue(f, n, k)
    ensures |some| <= n
  {
    SubsetSize(some, Values(f, n));
  }

  /** All that is learned from one group of sources goes to 64 of the 1024 new buckets. */
  lemma SourceGroupSpread(env: Env, key: nat, group: nat, buckets: set<nat>)
    requires forall k | k in buckets ::
        exists a, source :: env.group(source) == group && NewBucket(env, key, a, source) == k
    ensures |buckets| <= 64
    ensures forall k | k in buckets :: k < 1024 && IsValue(c => env.hash(NewSource(key, group, c)) % 1024, 64, k)
  {
    var f := (c: nat) => env.hash(NewSource(key, group, c)) % 1024;
    forall k | k in buckets ensures k < 1024 && IsValue(f, 64, k) {
      var a, source :| env.group(source) == group && NewBucket(env, key, a, source) == k;
      ValueAt(f, 64, env.hash(NewGroup(key, env.group(a.ip), group)) % 64);
    }
    FewValues(f, 64, buckets);
  }

  /** The tried addresses of one group go to 8 of the 256 tried buckets. */
  lemma TriedGroupSpread(env: Env, key: nat, group: nat, buckets: set<nat>)
    requires forall k | k in buckets :: exists a: Service :: env.group(a.ip) == group && TriedBucket(env, key, a) == k
    ensures |buckets| <= 8
    ensures forall k | k in buckets :: k < 256 && IsValue(c => env.hash(TriedGroup(key, group, c)) % 256, 8, k)
  {
    var f := (c: nat) => env.hash(TriedGroup(key, group, c)) % 256;
    forall k | k in buckets ensures k < 256 && IsValue(f, 8, k) {
      var a: Service :| env.group(a.ip) == group && TriedBucket(env, key, a) == k;
      ValueAt(f, 8, env.hash(TriedAddress(key, a)) % 8);
    }
    FewValues(f, 8, buckets);
  }

  /** Which of those it is depends on the group of the address for new ones, and on the whole address for tried ones. */
  lemma BucketChoice(env: Env, key: nat, a: Service, source: NetAddr, b: Service, other: NetAddr)
    ensures env.group(a.ip) == env.group(b.ip) && env.group(source) == env.group(other) ==>
        NewBucket(env, key, a, source) == NewBucket(env, key, b, other)
    ensures env.hash(TriedAddress(key, a)) % 8 == env.hash(TriedAddress(key, b)) % 8
            && env.group(a.ip) == env.group(b.ip) ==>
        TriedBucket(env, key, a) == TriedBucket(env, key, b)
  {
  }

  /** A slot is one of 64 in its bucket. */
  lemma SlotInBucket(env: Env, key: nat, a: Service, source: NetAddr)
    ensures NewSlot(env, key, a, source).bucket < 1024 && NewSlot(env, key, a, source).pos < 64
    ensures TriedSlot(env, key, a).bucket < 256 && TriedSlot(env, key, a).pos < 64
  {
  }
}
