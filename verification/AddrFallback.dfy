/**
 Loading records whose saved slots cannot be used, because the version is unknown or the number of buckets is
 another one: each new entry gets one slot by its source, if no earlier entry has it, and is dropped otherwise.
 */
module AddrFallback {
  import opened Collections
  import opened AddrBook
  import opened AddrSave
  import opened AddrRoundTrip

  // ----- the new entries

  ghost function Home(env: Env, b: Book, order: seq<int>, n: nat): Slot
    requires Ordered(b, order) && n < |order|
  {
    NewSlot(env, b.key, b.info[order[n]].addr, b.info[order[n]].source)
  }

  /** No entry earlier in the order has the same home slot. */
  ghost predicate First(env: Env, b: Book, order: seq<int>, n: nat)
    requires Ordered(b, order) && n < |order|
  {
    forall m: nat | m < n :: Home(env, b, order, m) != Home(env, b, order, n)
  }

  lemma {:induction false} Earliest(env: Env, b: Book, order: seq<int>, n: nat) returns (m: nat)
    requires Ordered(b, order) && n < |order|
    ensures m <= n && Home(env, b, order, m) == Home(env, b, order, n) && First(env, b, order, m)
    decreases n
  {
    hide Ordered, Home;
    if First(env, b, order, n) {
      m := n;
    } else {
      var l: nat :| l < n && Home(env, b, order, l) == Home(env, b, order, n);
      m := Earliest(env, b, order, l);
    }
  }

  /** Of the first `k` entries exactly those that are first at their home slot have it, and so one reference. */
  ghost predicate HomesLoaded(env: Env, b: Book, order: seq<int>, c: Book, k: nat)
    requires Ordered(b, order) && k <= |order|
  {
    && (forall n: nat | n < k && First(env, b, order, n) ::
        Home(env, b, order, n) in c.news && c.news[Home(env, b, order, n)] == n)
    && (forall s | s in c.news ::
        0 <= c.news[s] < k && First(env, b, order, c.news[s]) && s == Home(env, b, order, c.news[s]))
    && (forall n: nat | n < k :: n in c.info && c.info[n].refCount == if First(env, b, order, n) then 1 else 0)
  }

  lemma HomeTaken(env: Env, b: Book, order: seq<int>, c: Book, k: nat)
    requires Ordered(b, order) && k < |order| && HomesLoaded(env, b, order, c, k)
    ensures Home(env, b, order, k) in c.news <==> !First(env, b, order, k)
  {
    hide Ordered, Home;
    if !First(env, b, order, k) {
      var m := Earliest(env, b, order, k);
    }
  }

  /** The entry as it is read, before it gets a slot. */
  ghost function Fresh(b: Book, order: seq<int>, c: Book, k: nat): Book
    requires Ordered(b, order) && k < |order|
  {
    var i := FromRecord(ToRecord(b.info[order[k]]), false, |c.random|);
    c.(info := c.info[k := i], addr := c.addr[i.addr.ip := k], random := c.random + [k])
  }

  lemma EnterFresh(env: Env, b: Book, order: seq<int>, c: Book, k: nat)
    requires Ordered(b, order) && k < |order| && c.key == b.key
    ensures k in Fresh(b, order, c, k).info && Fresh(b, order, c, k).news == c.news
    ensures var f := Fresh(b, order, c, k);
      EnterNew(env, c, ToRecord(b.info[order[k]]), k, false) == if Home(env, b, order, k) in c.news then f else
          Ref(f, Home(env, b, order, k), k)
  {
    hide NewSlot;
  }

  lemma HomesNext(env: Env, b: Book, order: seq<int>, c: Book, k: nat)
    requires Ordered(b, order) && k < |order| && HomesLoaded(env, b, order, c, k) && k !in c.info
    ensures k in Fresh(b, order, c, k).info
    ensures var f := Fresh(b, order, c, k);
      HomesLoaded(env, b, order, if First(env, b, order, k) then Ref(f, Home(env, b, order, k), k) else f, k + 1)
  {
    hide Home, First;
    HomeTaken(env, b, order, c, k);
  }

  lemma FreshLoaded(b: Book, order: seq<int>, c: Book, k: nat)
    requires AddrOk(b) && Ordered(b, order) && k < |order| && !b.info[order[k]].inTried && EntriesLoaded(b, order, c, k)
    ensures EntriesLoaded(b, order, Fresh(b, order, c, k), k + 1)
  {
    hide AddrOk, Distinct, SameEntry;
    EntryLoaded(b, order, c, k, Fresh(b, order, c, k));
  }

  lemma HomeEntered(env: Env, b: Book, order: seq<int>, c: Book, k: nat)
    requires AddrOk(b) && Ordered(b, order) && k < b.nNew && EntriesLoaded(b, order, c, k)
        && HomesLoaded(env, b, order, c, k)
    ensures var e := EnterNew(env, c, ToRecord(b.info[order[k]]), k, false);
      EntriesLoaded(b, order, e, k + 1) && HomesLoaded(env, b, order, e, k + 1) && e.tried == c.tried
  {
    hide AddrOk, Distinct, SameEntry, HomesLoaded, First, Home, EnterNew;
    EnterFresh(env, b, order, c, k);
    FreshLoaded(b, order, c, k);
    HomeTaken(env, b, order, c, k);
    HomesNext(env, b, order, c, k);
    if First(env, b, order, k) {
      RefKeepsEntries(b, order, Fresh(b, order, c, k), k + 1, Home(env, b, order, k), k);
    }
  }

  lemma {:induction false} HomesStage(env: Env, b: Book, order: seq<int>, c: Book, k: nat, rest: seq<Token>)
      returns (d: Book)
    requires AddrOk(b) && Ordered(b, order) && k <= b.nNew && EntriesLoaded(b, order, c, k)
    requires HomesLoaded(env, b, order, c, k) && c.tried == map[]
    ensures EntriesLoaded(b, order, d, b.nNew) && HomesLoaded(env, b, order, d, b.nNew) && d.tried == map[]
    ensures LoadNew(env, c, Records(b.info, Span(order, k, b.nNew)) + rest, k, false) == Read(d, rest)
    decreases b.nNew - k
  {
    hide AddrOk, Distinct, SameEntry, HomesLoaded, EnterNew;
    var ids := Span(order, k, b.nNew);
    if k == b.nNew {
      assert Records(b.info, ids) + rest == rest;
      d := c;
    } else {
      RecordsStep(b.info, ids, rest);
      HomeEntered(env, b, order, c, k);
      var e := EnterNew(env, c, ToRecord(b.info[order[k]]), k, false);
      d := HomesStage(env, b, order, e, k + 1, rest);
      assert ids[1..] == Span(order, k + 1, b.nNew);
    }
  }

  // ----- the buckets are read and ignored

  /** The same stream with another book to put it in. */
  function InBook(r: Loaded, c: Book): Loaded {
    match r
    case Failed => Failed
    case Read(_, rest) => Read(c, rest)
  }

  /** Whether a bucket can be read, and how far, does not depend on the book. */
  lemma {:induction false} SlotsIgnored(env: Env, c: Book, d: Book, s: seq<Token>, bucket: nat, left: int, usable: bool)
    ensures LoadSlots(env, c, s, bucket, left, false) == InBook(LoadSlots(env, d, s, bucket, left, usable), c)
    decreases left
  {
    hide EnterSlot;
    if left > 0 && s != [] && s[0].TInt? {
      SlotIgnored(env, c, bucket, s[0].n);
      SlotsIgnored(env, c, EnterSlot(env, d, bucket, s[0].n, usable), s[1..], bucket, left - 1, usable);
    }
  }

  lemma SlotIgnored(env: Env, c: Book, bucket: nat, index: int)
    ensures EnterSlot(env, c, bucket, index, false) == c
  {
  }

  lemma {:induction false} BucketsIgnored(env: Env, c: Book, d: Book, s: seq<Token>, bucket: nat, buckets: int,
      usable: bool)
    ensures LoadBuckets(env, c, s, bucket, buckets, false) == InBook(LoadBuckets(env, d, s, bucket, buckets, usable), c)
    decreases buckets - bucket
  {
    hide LoadSlots;
    if bucket < buckets && s != [] && s[0].TInt? {
      SlotsIgnored(env, c, d, s[1..], bucket, s[0].n, usable);
      var r := LoadSlots(env, d, s[1..], bucket, s[0].n, usable);
      if r.Read? {
        BucketsIgnored(env, c, r.book, r.rest, bucket + 1, buckets, usable);
      }
    }
  }

  // ----- what has been loaded, before anything is dropped

  ghost predicate FallbackState(env: Env, b: Book, order: seq<int>, c: Book)
    requires Ordered(b, order)
  {
    && EntriesLoaded(b, order, c, |order|) && TriedLoaded(env, b, order, c, |order|) && c.idCount == |order|
    && HomesLoaded(env, b, order, c, b.nNew) && forall n | n in c.info && b.nNew <= n :: c.info[n].refCount == 0
  }

  lemma StateReached(env: Env, b: Book, order: seq<int>, c: Book, d: Book)
    requires Ordered(b, order) && EntriesLoaded(b, order, c, b.nNew) && HomesLoaded(env, b, order, c, b.nNew)
    requires EntriesLoaded(b, order, d, |order|) && TriedLoaded(env, b, order, d, |order|) && d.idCount == |order|
        && SameNews(c, d)
    ensures FallbackState(env, b, order, d)
  {
    hide First, Home, TriedLoaded, SameEntry, AddrOk;
  }

  /** New entries that found their home slot taken. */
  ghost function Homeless(env: Env, b: Book, order: seq<int>): set<int>
    requires Ordered(b, order)
  {
    set n: nat | n < b.nNew && !First(env, b, order, n) :: n
  }

  lemma StateTables(env: Env, b: Book, order: seq<int>, c: Book)
    requires TriedOk(env, b) && Ordered(b, order) && FallbackState(env, b, order, c)
    ensures NewOk(env, c) && TriedOk(env, c)
  {
    hide First, AddrOk, TriedSlot, Distinct;
    forall s | s in c.news ensures c.news[s] in c.info && !c.info[c.news[s]].inTried && s.bucket < NEW_BUCKET_COUNT
                                   && s == NewSlotAt(env, c.key, c.info[c.news[s]].addr, s.bucket)
    {
      var n: int := c.news[s];
      assert SameEntry(b.info[order[n]], c.info[n]);
    }
    forall s | s in c.tried ensures c.tried[s] in c.info && c.info[c.tried[s]].inTried
        && s == TriedSlot(env, c.key, c.info[c.tried[s]].addr) {
      var n: int := c.tried[s];
      assert s == TriedSlotAt(env, b, order, n) && SameEntry(b.info[order[n]], c.info[n]);
    }
    forall n | n in c.info && c.info[n].inTried ensures var s := TriedSlot(env, c.key, c.info[n].addr);
        s in c.tried && c.tried[s] == n {
      assert SameEntry(b.info[order[n]], c.info[n]);
      assert TriedSlotAt(env, b, order, n) in c.tried;
    }
  }

  lemma StateReferences(env: Env, b: Book, order: seq<int>, c: Book, n: int)
    requires Ordered(b, order) && FallbackState(env, b, order, c) && n in c.info
    ensures c.info[n].refCount == |SlotsOf(c.news, n)| <= 1
  {
    hide First, Home, AddrOk, TriedLoaded, Distinct;
    if n < b.nNew && First(env, b, order, n) {
      assert SlotsOf(c.news, n) == {Home(env, b, order, n)};
    } else {
      assert SlotsOf(c.news, n) == {};
    }
  }

  lemma StateCounts(env: Env, b: Book, order: seq<int>, c: Book)
    requires Ordered(b, order) && FallbackState(env, b, order, c)
    ensures CountsOk(c, Homeless(env, b, order))
  {
    hide First, Home, AddrOk, TriedLoaded, Distinct;
    assert forall n | 0 <= n < |order| ::
        SameEntry(b.info[order[n]], c.info[n]) && (c.info[n].inTried <==> b.nNew <= n);
    IntervalSize(0, b.nNew, NewIds(c.info));
    IntervalSize(b.nNew, |order|, TriedIds(c.info));
    forall n | n in c.info ensures c.info[n].refCount == |SlotsOf(c.news, n)| <= 1 {
      StateReferences(env, b, order, c, n);
    }
  }

  lemma StateTimes(env: Env, b: Book, order: seq<int>, c: Book)
    requires TimesOk(b) && Ordered(b, order) && FallbackState(env, b, order, c)
    ensures TimesOk(c) && IdsOk(c) && RandomOk(c) && AddrOk(c)
  {
    hide HomesLoaded, AddrOk, TriedLoaded, Distinct;
    forall n | n in c.info
      ensures 0 <= c.info[n].lastTry && 0 <= c.info[n].lastSuccess && (c.info[n].inTried ==> c.info[n].lastSuccess != 0)
    {
      var id: int := order[n];
      assert id in b.info && SameEntry(b.info[id], c.info[n]);
    }
  }

  lemma StateAlmost(env: Env, b: Book, order: seq<int>, c: Book)
    requires Consistent(env, b) && Ordered(b, order) && FallbackState(env, b, order, c)
    ensures Almost(env, c, Homeless(env, b, order))
  {
    hide IdsOk, RandomOk, AddrOk, NewOk, TriedOk, CountsOk, TimesOk, HomesLoaded, TriedLoaded, Ordered, Homeless,
        SameEntry;
    StateTables(env, b, order, c);
    StateCounts(env, b, order, c);
    StateTimes(env, b, order, c);
  }

  // ----- dropping the rest

  /** Some entries are gone; nothing else has changed but places in the random order. */
  ghost predicate Without(b: Book, c: Book, gone: set<int>) {
    && c.key == b.key && c.news == b.news && c.tried == b.tried && c.info.Keys == b.info.Keys - gone
    && forall id | id in c.info :: c.info[id] == b.info[id].(randomPos := c.info[id].randomPos)
  }

  lemma DeleteWithout(b: Book, id: int)
    requires RandomOk(b) && Stray(b, id)
    ensures Without(b, Delete(b, id), {id})
  {
    hide RandomOk;
    var last, m := DeleteSplit(b, id);
    SwapRandomOrder(b, b.info[id].randomPos, last);
  }

  ghost function Strays(b: Book, ids: seq<int>): set<int> {
    set id | id in ids && Stray(b, id)
  }

  ghost function Members(ids: seq<int>): set<int> {
    set id | id in ids
  }

  lemma NextStrays(b: Book, c: Book, ids: seq<int>)
    requires ids != [] && if Stray(b, ids[0]) then Without(b, c, {ids[0]}) else c == b
    ensures Strays(b, ids) == (if Stray(b, ids[0]) then {ids[0]} else {}) + Strays(c, ids[1..])
    ensures Members(ids) == {ids[0]} + Members(ids[1..])
  {
    var first: int := ids[0];
    assert forall x :: x in ids <==> x == first || x in ids[1..];
  }

  lemma WithoutTwice(b: Book, c: Book, d: Book, gone: set<int>, more: set<int>)
    requires Without(b, c, gone) && Without(c, d, more)
    ensures Without(b, d, gone + more)
  {
  }

  lemma NotStray(env: Env, b: Book, id: int, pending: set<int>)
    requires Almost(env, b, pending) && !Stray(b, id)
    ensures Almost(env, b, pending - {id})
  {
    hide IdsOk, RandomOk, AddrOk, NewOk, TriedOk, TimesOk;
  }

  lemma AlmostOrder(env: Env, b: Book, pending: set<int>)
    requires Almost(env, b, pending)
    ensures RandomOk(b)
  {
  }

  /** Dropping strays one after the other drops exactly them, and makes the book consistent. */
  lemma {:induction false} PruneEffect(env: Env, b: Book, ids: seq<int>, pending: set<int>)
    requires Almost(env, b, pending)
    ensures RandomOk(b) && Almost(env, Prune(b, ids), pending - Members(ids))
        && Without(b, Prune(b, ids), Strays(b, ids))
    decreases ids
  {
    hide Almost, Delete, Without, Strays, Members, RandomOk;
    AlmostOrder(env, b, pending);
    if ids == [] {
      NothingDropped(b, pending);
    } else if Stray(b, ids[0]) {
      DropOne(env, b, ids, pending);
      var c := Delete(b, ids[0]);
      PruneEffect(env, c, ids[1..], pending - {ids[0]});
      WithoutTwice(b, c, Prune(c, ids[1..]), {ids[0]}, Strays(c, ids[1..]));
      assert pending - {ids[0]} - Members(ids[1..]) == pending - ({ids[0]} + Members(ids[1..]));
    } else {
      NotStray(env, b, ids[0], pending);
      NextStrays(b, b, ids);
      PruneEffect(env, b, ids[1..], pending - {ids[0]});
      assert pending - {ids[0]} - Members(ids[1..]) == pending - ({ids[0]} + Members(ids[1..]));
      assert {} + Strays(b, ids[1..]) == Strays(b, ids[1..]);
    }
  }

  lemma NothingDropped(b: Book, pending: set<int>)
    ensures Without(b, b, Strays(b, [])) && pending - Members([]) == pending
  {
  }

  lemma DropOne(env: Env, b: Book, ids: seq<int>, pending: set<int>)
    requires Almost(env, b, pending) && RandomOk(b) && ids != [] && Stray(b, ids[0])
    ensures var c := Delete(b, ids[0]); Almost(env, c, pending - {ids[0]}) && RandomOk(c) && Without(b, c, {ids[0]})
    ensures Strays(b, ids) == {ids[0]} + Strays(Delete(b, ids[0]), ids[1..])
        && Members(ids) == {ids[0]} + Members(ids[1..])
  {
    hide Almost, RandomOk, Delete, Without, Strays, Members;
    DeleteKeeps(env, b, ids[0], pending);
    AlmostOrder(env, Delete(b, ids[0]), pending - {ids[0]});
    DeleteWithout(b, ids[0]);
    NextStrays(b, Delete(b, ids[0]), ids);
  }

  // ----- the result

  /**
   What is left of `b` in `c`: every tried entry in its slot, and of the new ones, in the order they were saved, the
   first for each home slot, with that slot and one reference.  Identifier n of `c` stands for order[n] of `b`.
   */
  ghost predicate KeptFirst(env: Env, b: Book, c: Book, order: seq<int>)
    requires Ordered(b, order)
  {
    && c.key == b.key
    && (forall n :: n in c.info <==> 0 <= n < |order| && (b.nNew <= n || First(env, b, order, n)))
    && (forall n | n in c.info ::
          c.info[n] == b.info[order[n]].(lastTry := 0, refCount := if n < b.nNew then 1 else
              0, randomPos := c.info[n].randomPos))
    && (forall n: nat | n < b.nNew && First(env, b, order, n) ::
        Home(env, b, order, n) in c.news && c.news[Home(env, b, order, n)] == n)
    && (forall s | s in c.news ::
        0 <= c.news[s] < b.nNew && First(env, b, order, c.news[s]) && s == Home(env, b, order, c.news[s]))
    && c.tried.Keys == b.tried.Keys && (forall s | s in c.tried ::
        0 <= c.tried[s] < |order| && order[c.tried[s]] == b.tried[s])
  }

  lemma StraysAreHomeless(env: Env, b: Book, order: seq<int>, c: Book, ids: seq<int>)
    requires Ordered(b, order) && FallbackState(env, b, order, c) && forall n | n in c.info :: n in ids
    ensures Strays(c, ids) == Homeless(env, b, order) && Homeless(env, b, order) <= Members(ids)
  {
    hide First, Home, AddrOk, TriedLoaded, Distinct;
    assert forall n | 0 <= n < |order| ::
        SameEntry(b.info[order[n]], c.info[n]) && (c.info[n].inTried <==> b.nNew <= n);
  }

  lemma ResultKept(env: Env, b: Book, order: seq<int>, c: Book, d: Book)
    requires Consistent(env, b) && Ordered(b, order) && FallbackState(env, b, order, c)
        && Without(c, d, Homeless(env, b, order))
    ensures KeptFirst(env, b, d, order)
  {
    hide First, Home, AddrOk, RandomOk, IdsOk, NewOk, TriedOk, CountsOk, TimesOk, TriedLoaded, Distinct;
    RenamedTried(env, b, order, c);
    assert forall n | 0 <= n < |order| :: SameEntry(b.info[order[n]], c.info[n]);
  }

  lemma NothingYet(env: Env, b: Book, order: seq<int>)
    requires Ordered(b, order)
    ensures var b0 := Blank(b.key, b.nNew, b.nTried);
        EntriesLoaded(b, order, b0, 0) && HomesLoaded(env, b, order, b0, 0)
  {
  }

  lemma Counted(env: Env, b: Book, order: seq<int>, c: Book, idCount: int)
    requires Ordered(b, order) && EntriesLoaded(b, order, c, b.nNew) && HomesLoaded(env, b, order, c, b.nNew)
    ensures EntriesLoaded(b, order, c.(idCount := idCount), b.nNew)
        && HomesLoaded(env, b, order, c.(idCount := idCount), b.nNew)
  {
    hide Ordered, Distinct, First, Home, AddrOk, SameEntry;
    AddressesCounted(c, idCount);
  }

  lemma AddressesCounted(c: Book, idCount: int)
    ensures AddrOk(c.(idCount := idCount)) <==> AddrOk(c)
  {
  }

  /** The records of a saved manager, read without usable slots. */
  lemma RecordsRead(env: Env, b: Book, order: seq<int>, tail: seq<Token>) returns (b1: Book, b2: Book)
    requires Consistent(env, b) && order == Order(b)
    ensures Ordered(b, order) && FallbackState(env, b, order, b2)
    ensures LoadNew(env, Blank(b.key, b.nNew, b.nTried), NewPart(b) + (TriedPart(b) + tail), 0, false) ==
        Read(b1, TriedPart(b) + tail)
    ensures b1.nNew == b.nNew && b1.nTried == b.nTried
    ensures LoadTried(env, b1.(idCount := b1.nNew), TriedPart(b) + tail, b1.nTried) == Read(b2, tail)
  {
    hide IdsOk, RandomOk, CountsOk, TimesOk, NewOk, TriedOk, AddrOk, Ordered, Distinct, LoadNew, LoadTried, Records,
        Order, Span;
    hide HomesLoaded, TriedLoaded, NewPart, TriedPart, Sorted, SameNews, FallbackState;
    Parts(env, b, order);
    NothingYet(env, b, order);
    b1 := HomesStage(env, b, order, Blank(b.key, b.nNew, b.nTried), 0, TriedPart(b) + tail);
    Counted(env, b, order, b1, b1.nNew);
    NoTriedLoaded(env, b, order, b1.(idCount := b1.nNew));
    b2 := TriedStage(env, b, order, b1.(idCount := b1.nNew), b.nNew, tail);
    StateReached(env, b, order, b1.(idCount := b1.nNew), b2);
  }

  lemma PrunedResult(env: Env, b: Book, order: seq<int>, c: Book)
    requires Consistent(env, b) && Ordered(b, order) && FallbackState(env, b, order, c)
    ensures RandomOk(c)
    ensures var d := Prune(c, Sorted(c.info.Keys)); Consistent(env, d) && KeptFirst(env, b, d, order)
  {
    hide IdsOk, RandomOk, AddrOk, NewOk, TriedOk, CountsOk, TimesOk, Ordered, FallbackState, Homeless, Strays, Members,
        Without, KeptFirst, Prune, Sorted;
    StateAlmost(env, b, order, c);
    var ids := Sorted(c.info.Keys);
    PruneEffect(env, c, ids, Homeless(env, b, order));
    StraysAreHomeless(env, b, order, c, ids);
    assert Homeless(env, b, order) - Members(ids) == {};
    ResultKept(env, b, order, c, Prune(c, ids));
  }

  function BucketCount(s: seq<Token>): int
    requires GoodHeader(s)
  {
    if s[0].b != 0 then FlipMark(s[5].n) else s[5].n
  }

  /**
   A stream with the records of a consistent manager under a header that makes the saved slots useless, followed by
   buckets of any contents: it is read exactly if the buckets are there, and then gives a consistent manager with all
   tried entries and, of the new ones, the first for each home slot.
   */
  lemma FallbackLoad(env: Env, b: Book, s: seq<Token>, tail: seq<Token>)
    requires Consistent(env, b) && GoodHeader(s) && s[2].key == b.key && s[3].n == b.nNew && s[4].n == b.nTried
    requires s[6..] == NewPart(b) + (TriedPart(b) + tail) && !(s[0].b == 1 && BucketCount(s) == NEW_BUCKET_COUNT)
    ensures Ordered(b, Order(b))
    ensures Load(env, s).Read? <==> LoadBuckets(env, b, tail, 0, BucketCount(s), false).Read?
    ensures Load(env, s).Read? ==> Load(env, s).rest == LoadBuckets(env, b, tail, 0, BucketCount(s), false).rest
    ensures Load(env, s).Read? ==> Consistent(env, Load(env, s).book) && KeptFirst(env, b, Load(env, s).book, Order(b))
  {
    hide IdsOk, RandomOk, CountsOk, TimesOk, NewOk, TriedOk, AddrOk, Ordered, FallbackState, KeptFirst, LoadNew,
        LoadTried, LoadBuckets;
    hide NewPart, TriedPart, Order, Sorted, Prune;
    var b1, b2 := RecordsRead(env, b, Order(b), tail);
    BucketsIgnored(env, b2, b, tail, 0, BucketCount(s), false);
    PrunedResult(env, b, Order(b), b2);
  }

  /** So a file written by a later version is still of use. */
  lemma LaterVersion(env: Env, b: Book, version: nat)
    requires Consistent(env, b) && version > 1
    ensures Ordered(b, Order(b))
    ensures var r := Load(env, Save(b)[0 := TByte(version)]);
      r.Read? && r.rest == [] && Consistent(env, r.book) && KeptFirst(env, b, r.book, Order(b))
  {
    hide IdsOk, RandomOk, CountsOk, TimesOk, NewOk, TriedOk, AddrOk, Ordered, SlotsState, KeptFirst, Load, LoadNew,
        LoadTried, LoadBuckets;
    hide NewPart, TriedPart, BucketPart, Order;
    var s := Save(b)[0 := TByte(version)];
    var body := NewPart(b) + (TriedPart(b) + BucketPart(b));
    assert s[6..] == body;
    assert FlipMark(NEW_BUCKET_COUNT + BUCKET_MARK) == NEW_BUCKET_COUNT;
    var b1, b2, b3 := Stages(env, b, Order(b));
    BucketsIgnored(env, b, b2, BucketPart(b), 0, NEW_BUCKET_COUNT, true);
    FallbackLoad(env, b, s, BucketPart(b));
  }
}
