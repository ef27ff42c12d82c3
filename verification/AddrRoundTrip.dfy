/**
 Loading what was saved gives back the same manager, up to renaming of identifiers: no entry is lost
 and every new and tried slot holds the same address, although slot positions are computed afresh and
 tried slots are never written.
 */
module AddrRoundTrip {
  import opened Collections
  import opened AddrBook
  import opened AddrSave

  /** The order in which identifiers are handed out again: new entries first, then tried ones, each ascending. */
  ghost function Order(b: Book): seq<int> {
    var ids := Sorted(b.info.Keys);
    Chosen(b.info, ids, true) + Chosen(b.info, ids, false)
  }

  // ----- the order lists every entry once

  lemma {:induction false} ChosenAscends(info: map<int, Info>, ids: seq<int>, wantNew: bool)
    requires (forall id | id in ids :: id in info) && Ascending(ids)
    ensures Ascending(Chosen(info, ids, wantNew))
  {
    if ids != [] {
      var prefix := ids[..|ids| - 1];
      ChosenAscends(info, prefix, wantNew);
      var rest := Chosen(info, prefix, wantNew);
      forall i | 0 <= i < |rest| ensures rest[i] < ids[|ids| - 1] {
        var x := rest[i];
        assert x in rest;
        assert x in prefix;
      }
    }
  }

  lemma {:induction false} ChosenSplit(info: map<int, Info>, ids: seq<int>, wantNew: bool, k: nat)
    requires (forall id | id in ids :: id in info) && k <= |ids|
    ensures var front, all := Chosen(info, ids[..k], wantNew), Chosen(info, ids, wantNew);
      |front| <= |all| && all[..|front|] == front
    ensures k < |ids| && (if wantNew then info[ids[k]].refCount != 0 else info[ids[k]].inTried) ==>
      var front, all := Chosen(info, ids[..k], wantNew), Chosen(info, ids, wantNew);
      |front| < |all| && all[|front|] == ids[k]
    decreases |ids|
  {
    if k == |ids| {
      assert ids[..k] == ids;
    } else {
      var prefix := ids[..|ids| - 1];
      assert ids[..k] == prefix[..k];
      ChosenSplit(info, prefix, wantNew, k);
      if k == |ids| - 1 {
        assert prefix[..k] == prefix;
      }
    }
  }

  lemma {:induction false} PositionUnique(ids: seq<int>, k: nat)
    requires Distinct(ids) && k < |ids|
    ensures ids[k] in ids && PositionOf(ids, ids[k]) == k
  {
  }

  lemma AscendingDistinct(s: seq<int>)
    requires Ascending(s)
    ensures Distinct(s)
  {
  }

  lemma {:induction false} DistinctSize(s: seq<int>, t: set<int>)
    requires Distinct(s) && forall x :: x in s <==> x in t
    ensures |s| == |t|
  {
    if s == [] {
      if |t| > 0 {
        var x := Pick(t);
        assert false;
      }
    } else {
      var last := s[|s| - 1];
      assert forall x :: x in s[..|s| - 1] ==> x in s;
      DistinctSize(s[..|s| - 1], t - {last});
    }
  }

  /** The facts about the order that the stages rely on. */
  ghost predicate Ordered(b: Book, order: seq<int>) {
    && Distinct(order) && 0 <= b.nNew && 0 <= b.nTried && |order| == b.nNew + b.nTried
    && (forall id :: id in order <==> id in b.info)
    && (forall n | 0 <= n < |order| :: order[n] in b.info && (b.info[order[n]].inTried <==> b.nNew <= n))
  }

  lemma ChosenMembers(env: Env, b: Book)
    requires Consistent(env, b)
    ensures var ids := Sorted(b.info.Keys);
      && (forall id :: id in Chosen(b.info, ids, true) <==> id in NewIds(b.info))
      && (forall id :: id in Chosen(b.info, ids, false) <==> id in TriedIds(b.info))
  {
    hide RandomOk, AddrOk, TriedOk, TimesOk;
    forall id | id in b.info && b.info[id].inTried ensures b.info[id].refCount == 0 {
      TriedUnreferenced(env, b, id, {});
    }
  }

  lemma OrderIsOrdered(env: Env, b: Book)
    requires Consistent(env, b)
    ensures Ordered(b, Order(b)) && 0 <= b.nNew <= |Order(b)| && 0 <= b.nTried == |Order(b)| - b.nNew
    ensures var ids := Sorted(b.info.Keys);
        Chosen(b.info, ids, true) == Order(b)[..b.nNew] && Chosen(b.info, ids, false) == Order(b)[b.nNew..]
  {
    hide RandomOk, AddrOk, TriedOk, TimesOk, NewOk, IdsOk;
    var ids := Sorted(b.info.Keys);
    SortedAscends(b.info.Keys);
    ChosenMembers(env, b);
    var news, tried := Chosen(b.info, ids, true), Chosen(b.info, ids, false);
    ChosenAscends(b.info, ids, true);
    ChosenAscends(b.info, ids, false);
    AscendingDistinct(news);
    AscendingDistinct(tried);
    DistinctSize(news, NewIds(b.info));
    DistinctSize(tried, TriedIds(b.info));
    Concatenated(b, news, tried);
  }

  lemma Concatenated(b: Book, news: seq<int>, tried: seq<int>)
    requires Distinct(news) && Distinct(tried) && |news| == b.nNew && |tried| == b.nTried
    requires forall id :: id in news <==> id in NewIds(b.info)
    requires forall id :: id in tried <==> id in TriedIds(b.info)
    ensures Ordered(b, news + tried)
  {
    var order := news + tried;
    forall n | 0 <= n < |order| ensures order[n] in b.info && (b.info[order[n]].inTried <==> b.nNew <= n) {
      var id := order[n];
      if n < |news| {
        assert id in news;
      } else {
        assert order[n] == tried[n - |news|];
        assert id in tried;
      }
    }
    forall i, j | 0 <= i < j < |order| ensures order[i] != order[j] {
      if i < |news| <= j {
        assert b.info[order[i]].inTried != b.info[order[j]].inTried;
      }
    }
  }

  /** Entries are saved under their place in the order. */
  lemma IndexIsPosition(env: Env, b: Book, id: int)
    requires Consistent(env, b) && id in b.info && !b.info[id].inTried
    ensures Ordered(b, Order(b)) && id in Order(b)
    ensures Index(b.info, Sorted(b.info.Keys), id) == PositionOf(Order(b), id) < b.nNew
  {
    hide RandomOk, AddrOk, TriedOk, TimesOk, NewOk, IdsOk;
    var ids := Sorted(b.info.Keys);
    OrderIsOrdered(env, b);
    var k := PositionOf(ids, id);
    ChosenSplit(b.info, ids, true, k);
    var n := Index(b.info, ids, id);
    assert Order(b)[n] == id;
    PositionUnique(Order(b), n);
  }

  // ----- first and second stage: the entries

  ghost predicate SameEntry(i: Info, j: Info) {
    j == i.(lastTry := 0, refCount := j.refCount, randomPos := j.randomPos)
  }

  /** The first `k` entries of the order have been loaded, under the identifiers 0 to k - 1. */
  ghost predicate EntriesLoaded(b: Book, order: seq<int>, c: Book, k: nat)
    requires Ordered(b, order) && k <= |order|
  {
    && c.key == b.key && c.nNew == b.nNew && c.nTried == b.nTried
    && |c.random| == k && (forall n | 0 <= n < k :: c.random[n] == n)
    && (forall n :: n in c.info <==> 0 <= n < k)
    && (forall n | 0 <= n < k :: SameEntry(b.info[order[n]], c.info[n]) && c.info[n].randomPos == n)
    && AddrOk(c)
  }

  lemma AddressIsNew(b: Book, order: seq<int>, c: Book, k: nat)
    requires AddrOk(b) && Ordered(b, order) && k < |order| && EntriesLoaded(b, order, c, k)
    ensures b.info[order[k]].addr.ip !in c.addr
  {
    forall n | 0 <= n < k ensures c.info[n].addr.ip != b.info[order[k]].addr.ip {
      assert order[n] != order[k];
      assert SameEntry(b.info[order[n]], c.info[n]);
    }
  }

  lemma AddrExtended(c: Book, d: Book, k: int, i: Info)
    requires AddrOk(c) && k !in c.info && i.addr.ip !in c.addr
    requires d.info == c.info[k := i] && d.addr == c.addr[i.addr.ip := k]
    ensures AddrOk(d)
  {
  }

  /** Loading one more entry; `d` is the book after it. */
  lemma EntryLoaded(b: Book, order: seq<int>, c: Book, k: nat, d: Book)
    requires AddrOk(b) && Ordered(b, order) && k < |order| && EntriesLoaded(b, order, c, k)
    requires var i := FromRecord(ToRecord(b.info[order[k]]), b.info[order[k]].inTried, k);
      d == c.(idCount := d.idCount, tried := d.tried, info := c.info[k := i], addr := c.addr[i.addr.ip := k],
          random := c.random + [k])
    ensures EntriesLoaded(b, order, d, k + 1)
  {
    hide AddrOk, Distinct;
    var i := FromRecord(ToRecord(b.info[order[k]]), b.info[order[k]].inTried, k);
    AddressIsNew(b, order, c, k);
    AddrExtended(c, d, k, i);
    assert forall n | 0 <= n < k :: d.info[n] == c.info[n];
  }

  /** No new slot has been filled yet. */
  ghost predicate NoSlots(c: Book) {
    c.news == map[] && forall n | n in c.info :: c.info[n].refCount == 0
  }

  lemma RecordsStep(info: map<int, Info>, ids: seq<int>, rest: seq<Token>)
    requires ids != [] && forall id | id in ids :: id in info
    ensures ids[0] in info
    ensures var s := Records(info, ids) + rest;
        s != [] && s[0] == TInfo(ToRecord(info[ids[0]])) && s[1..] == Records(info, ids[1..]) + rest
  {
    var id := ids[0];
    assert id in ids;
    TailOfConcat(TInfo(ToRecord(info[id])), Records(info, ids[1..]), rest);
  }

  lemma TailOfConcat<T>(x: T, s: seq<T>, rest: seq<T>)
    ensures var t := [x] + s + rest; t != [] && t[0] == x && t[1..] == s + rest
  {
  }

  ghost function Span(order: seq<int>, k: nat, l: nat): (s: seq<int>)
    requires k <= l <= |order|
    ensures forall id | id in s :: id in order
  {
    order[k..l]
  }

  lemma NewEntered(env: Env, b: Book, order: seq<int>, c: Book, k: nat)
    requires AddrOk(b) && Ordered(b, order) && k < |order| && !b.info[order[k]].inTried && EntriesLoaded(b, order, c, k)
        && NoSlots(c) && c.tried == map[]
    ensures var e := EnterNew(env, c, ToRecord(b.info[order[k]]), k, true);
        EntriesLoaded(b, order, e, k + 1) && NoSlots(e) && e.tried == map[]
  {
    hide AddrOk, Distinct, SameEntry;
    EntryLoaded(b, order, c, k, EnterNew(env, c, ToRecord(b.info[order[k]]), k, true));
  }

  lemma {:induction false} NewStage(env: Env, b: Book, order: seq<int>, c: Book, k: nat, rest: seq<Token>)
      returns (d: Book)
    requires AddrOk(b) && Ordered(b, order) && k <= b.nNew && EntriesLoaded(b, order, c, k)
    requires NoSlots(c) && c.tried == map[]
    ensures EntriesLoaded(b, order, d, b.nNew) && NoSlots(d) && d.tried == map[]
    ensures LoadNew(env, c, Records(b.info, Span(order, k, b.nNew)) + rest, k, true) == Read(d, rest)
    decreases b.nNew - k
  {
    hide AddrOk, Distinct, SameEntry, NoSlots, EnterNew;
    var ids := Span(order, k, b.nNew);
    if k == b.nNew {
      assert Records(b.info, ids) + rest == rest;
      d := c;
    } else {
      RecordsStep(b.info, ids, rest);
      NewEntered(env, b, order, c, k);
      var e := EnterNew(env, c, ToRecord(b.info[order[k]]), k, true);
      d := NewStage(env, b, order, e, k + 1, rest);
      assert ids[1..] == Span(order, k + 1, b.nNew);
    }
  }

  ghost function TriedSlotAt(env: Env, b: Book, order: seq<int>, n: nat): Slot
    requires Ordered(b, order) && n < |order|
  {
    TriedSlot(env, b.key, b.info[order[n]].addr)
  }

  /** The tried slots of the entries loaded so far, and no others, are filled. */
  ghost predicate TriedLoaded(env: Env, b: Book, order: seq<int>, c: Book, k: nat)
    requires Ordered(b, order) && k <= |order|
  {
    && (forall n | b.nNew <= n < k ::
        TriedSlotAt(env, b, order, n) in c.tried && c.tried[TriedSlotAt(env, b, order, n)] == n)
    && (forall s | s in c.tried :: b.nNew <= c.tried[s] < k && s == TriedSlotAt(env, b, order, c.tried[s]))
  }

  lemma TriedSlotsDiffer(env: Env, b: Book, order: seq<int>, n: nat, k: nat)
    requires TriedOk(env, b) && Ordered(b, order) && b.nNew <= n < k < |order|
    ensures TriedSlotAt(env, b, order, n) != TriedSlotAt(env, b, order, k)
  {
    assert order[n] != order[k];
  }

  lemma TriedSlotIsFree(env: Env, b: Book, order: seq<int>, c: Book, k: nat)
    requires TriedOk(env, b) && Ordered(b, order) && b.nNew <= k < |order| && TriedLoaded(env, b, order, c, k)
    ensures TriedSlotAt(env, b, order, k) !in c.tried
  {
    hide TriedOk, TriedSlotAt;
    forall n | b.nNew <= n < k ensures TriedSlotAt(env, b, order, n) != TriedSlotAt(env, b, order, k) {
      TriedSlotsDiffer(env, b, order, n, k);
    }
  }

  lemma TriedSlotFilled(env: Env, b: Book, order: seq<int>, c: Book, k: nat, d: Book)
    requires TriedOk(env, b) && Ordered(b, order) && b.nNew <= k < |order| && TriedLoaded(env, b, order, c, k)
    requires d.tried == c.tried[TriedSlotAt(env, b, order, k) := k]
    ensures TriedLoaded(env, b, order, d, k + 1)
  {
    hide TriedOk, TriedSlotAt;
    TriedSlotIsFree(env, b, order, c, k);
  }

  /** Entries were added to no effect on the new slots and on the entries already there. */
  ghost predicate SameNews(c: Book, d: Book) {
    && d.news == c.news && (forall n | n in c.info :: n in d.info && d.info[n] == c.info[n])
    && forall n | n in d.info && n !in c.info :: d.info[n].refCount == 0
  }

  lemma TriedEntered(env: Env, b: Book, order: seq<int>, c: Book, k: nat)
    requires AddrOk(b) && TriedOk(env, b) && Ordered(b, order) && b.nNew <= k < |order| && EntriesLoaded(b, order, c, k)
    requires c.idCount == k && TriedLoaded(env, b, order, c, k)
    ensures var e := EnterTried(env, c, ToRecord(b.info[order[k]]));
      EntriesLoaded(b, order, e, k + 1) && e.idCount == k + 1 && TriedLoaded(env, b, order, e, k + 1) && SameNews(c, e)
  {
    hide AddrOk, TriedOk, Distinct, TriedLoaded, SameEntry;
    TriedSlotIsFree(env, b, order, c, k);
    var e := EnterTried(env, c, ToRecord(b.info[order[k]]));
    EntryLoaded(b, order, c, k, e);
    TriedSlotFilled(env, b, order, c, k, e);
  }

  lemma SameNewsTwice(c: Book, d: Book, e: Book)
    requires SameNews(c, d) && SameNews(d, e)
    ensures SameNews(c, e)
  {
  }

  lemma {:induction false} TriedStage(env: Env, b: Book, order: seq<int>, c: Book, k: nat, rest: seq<Token>)
      returns (d: Book)
    requires AddrOk(b) && TriedOk(env, b) && Ordered(b, order) && b.nNew <= k <= |order|
        && EntriesLoaded(b, order, c, k)
    requires c.idCount == k && TriedLoaded(env, b, order, c, k)
    ensures EntriesLoaded(b, order, d, |order|) && d.idCount == |order| && TriedLoaded(env, b, order, d, |order|)
    ensures SameNews(c, d) && LoadTried(env, c, Records(b.info, Span(order, k, |order|)) + rest, |order| - k) ==
        Read(d, rest)
    decreases |order| - k
  {
    hide AddrOk, TriedOk, Distinct, TriedLoaded, EntriesLoaded, SameEntry, EnterTried;
    var ids := Span(order, k, |order|);
    if k == |order| {
      assert Records(b.info, ids) + rest == rest;
      d := c;
    } else {
      RecordsStep(b.info, ids, rest);
      TriedEntered(env, b, order, c, k);
      var e := EnterTried(env, c, ToRecord(b.info[order[k]]));
      d := TriedStage(env, b, order, e, k + 1, rest);
      SameNewsTwice(c, e, d);
      assert ids[1..] == Span(order, k + 1, |order|);
    }
  }

  // ----- third stage: the new slots

  /** The slots in `done`, and no others, hold the entry they held before, and the references are counted. */
  ghost predicate SlotsLoaded(b: Book, order: seq<int>, c: Book, done: set<Slot>)
    requires Ordered(b, order)
  {
    && c.news.Keys == done <= b.news.Keys
    && (forall s | s in done :: b.news[s] in order && c.news[s] == PositionOf(order, b.news[s]))
    && (forall n | n in c.info :: c.info[n].refCount == |SlotsOf(c.news, n)|)
  }

  lemma StillReferenced(b: Book, order: seq<int>, c: Book, done: set<Slot>, s: Slot)
    requires Ordered(b, order) && SlotsLoaded(b, order, c, done) && s in b.news && s !in done && b.news[s] in order
    ensures |SlotsOf(c.news, PositionOf(order, b.news[s]))| < |SlotsOf(b.news, b.news[s])|
  {
    var id := b.news[s];
    var n := PositionOf(order, id);
    assert SlotsOf(c.news, n) <= SlotsOf(b.news, id) - {s};
    SubsetSize(SlotsOf(c.news, n), SlotsOf(b.news, id) - {s});
  }

  lemma SlotCounted(b: Book, order: seq<int>, c: Book, done: set<Slot>, s: Slot, n: nat)
    requires Ordered(b, order) && SlotsLoaded(b, order, c, done)
    requires s in b.news && s !in done && b.news[s] in order && n == PositionOf(order, b.news[s]) && n in c.info
    ensures SlotsLoaded(b, order, Ref(c, s, n), done + {s})
  {
    var d := Ref(c, s, n);
    forall m | m in d.info ensures d.info[m].refCount == |SlotsOf(d.news, m)| {
      SlotsAfterInsert(c.news, s, n, m);
    }
  }

  lemma RefKeepsEntries(b: Book, order: seq<int>, c: Book, k: nat, s: Slot, n: nat)
    requires Ordered(b, order) && k <= |order| && EntriesLoaded(b, order, c, k) && n in c.info
    ensures EntriesLoaded(b, order, Ref(c, s, n), k)
  {
    hide Distinct;
    var d := Ref(c, s, n);
    assert forall m | m in d.info :: d.info[m].addr == c.info[m].addr && d.info[m].randomPos == c.info[m].randomPos;
    assert SameEntry(b.info[order[n]], c.info[n]);
  }

  /** The saved index finds the entry, and its position computed afresh is the slot it was in. */
  lemma SlotLoaded(env: Env, b: Book, order: seq<int>, c: Book, done: set<Slot>, s: Slot)
    requires Consistent(env, b) && order == Order(b) && Ordered(b, order) && EntriesLoaded(b, order, c, |order|)
        && SlotsLoaded(b, order, c, done)
    requires s in b.news && s !in done
    ensures s.bucket < NEW_BUCKET_COUNT
    ensures var d := EnterSlot(env, c, s.bucket, Index(b.info, Sorted(b.info.Keys), b.news[s]), true);
      && EntriesLoaded(b, order, d, |order|) && SlotsLoaded(b, order, d, done + {s}) && d.tried == c.tried
          && d.idCount == c.idCount
  {
    hide RandomOk, AddrOk, TriedOk, TimesOk, IdsOk;
    IndexIsPosition(env, b, b.news[s]);
    var n := PositionOf(order, b.news[s]);
    assert SameEntry(b.info[order[n]], c.info[n]);
    StillReferenced(b, order, c, done, s);
    SlotCounted(b, order, c, done, s, n);
    RefKeepsEntries(b, order, c, |order|, s, n);
  }

  ghost function UpTo(b: Book, bucket: nat, pos: nat): set<Slot> {
    set s | s in b.news && (s.bucket < bucket || (s.bucket == bucket && s.pos < pos))
  }

  lemma UpToStep(b: Book, bucket: nat, pos: nat)
    ensures Slot(bucket, pos) !in UpTo(b, bucket, pos)
    ensures UpTo(b, bucket, pos + 1) == if Slot(bucket, pos) in b.news then
        UpTo(b, bucket, pos) + {Slot(bucket, pos)} else UpTo(b, bucket, pos)
  {
  }

  /** Everything the last stage needs to know about the loaded book. */
  ghost predicate SlotsState(env: Env, b: Book, order: seq<int>, c: Book, done: set<Slot>)
    requires Ordered(b, order)
  {
    EntriesLoaded(b, order, c, |order|) && TriedLoaded(env, b, order, c, |order|) && c.idCount == |order|
        && SlotsLoaded(b, order, c, done)
  }

  lemma {:induction false} SlotsStage(env: Env, b: Book, order: seq<int>, c: Book, bucket: nat, pos: nat,
      rest: seq<Token>) returns (d: Book)
    requires Consistent(env, b) && order == Order(b) && Ordered(b, order)
        && SlotsState(env, b, order, c, UpTo(b, bucket, pos)) && pos <= BUCKET_SIZE
    ensures SlotsState(env, b, order, d, UpTo(b, bucket, BUCKET_SIZE))
    ensures LoadSlots(env, c, Indexes(b, Sorted(b.info.Keys), bucket, pos) + rest, bucket,
        Occupied(b.news, bucket, pos), true) == Read(d, rest)
    decreases BUCKET_SIZE - pos
  {
    hide Consistent, Ordered, Distinct, EntriesLoaded, TriedLoaded, SlotsLoaded, EnterSlot, Index, Order, Sorted, UpTo;
    var ids := Sorted(b.info.Keys);
    if pos == BUCKET_SIZE {
      assert Indexes(b, ids, bucket, pos) + rest == rest;
      d := c;
    } else {
      var s := Slot(bucket, pos);
      if s in b.news {
        UpToStep(b, bucket, pos);
        SlotLoaded(env, b, order, c, UpTo(b, bucket, pos), s);
        var e := EnterSlot(env, c, bucket, Index(b.info, ids, b.news[s]), true);
        TriedLoadedSame(env, b, order, c, e);
        d := SlotsStage(env, b, order, e, bucket, pos + 1, rest);
        TailOfConcat(TInt(Index(b.info, ids, b.news[s])), Indexes(b, ids, bucket, pos + 1), rest);
      } else {
        UpToStep(b, bucket, pos);
        d := SlotsStage(env, b, order, c, bucket, pos + 1, rest);
        assert [] + Indexes(b, ids, bucket, pos + 1) == Indexes(b, ids, bucket, pos + 1);
      }
    }
  }

  lemma TriedLoadedSame(env: Env, b: Book, order: seq<int>, c: Book, d: Book)
    requires Ordered(b, order) && TriedLoaded(env, b, order, c, |order|) && d.tried == c.tried
    ensures TriedLoaded(env, b, order, d, |order|)
  {
  }

  lemma UpToNextBucket(env: Env, b: Book, bucket: nat)
    requires NewOk(env, b)
    ensures UpTo(b, bucket, BUCKET_SIZE) == UpTo(b, bucket + 1, 0)
    ensures UpTo(b, 0, 0) == {} && UpTo(b, NEW_BUCKET_COUNT, 0) == b.news.Keys
  {
  }

  lemma {:induction false} BucketsStage(env: Env, b: Book, order: seq<int>, c: Book, bucket: nat, rest: seq<Token>)
      returns (d: Book)
    requires Consistent(env, b) && order == Order(b) && Ordered(b, order)
        && SlotsState(env, b, order, c, UpTo(b, bucket, 0)) && bucket <= NEW_BUCKET_COUNT
    ensures SlotsState(env, b, order, d, b.news.Keys)
    ensures LoadBuckets(env, c, Buckets(b, Sorted(b.info.Keys), bucket) + rest, bucket, NEW_BUCKET_COUNT, true) ==
        Read(d, rest)
    decreases NEW_BUCKET_COUNT - bucket
  {
    hide IdsOk, RandomOk, AddrOk, TriedOk, CountsOk, TimesOk, NewOk, Ordered, SlotsState, Index, Order, Sorted, UpTo,
        LoadSlots, Indexes, Occupied;
    var ids := Sorted(b.info.Keys);
    UpToNextBucket(env, b, bucket);
    if bucket == NEW_BUCKET_COUNT {
      assert Buckets(b, ids, bucket) + rest == rest;
      d := c;
    } else {
      var more := Buckets(b, ids, bucket + 1) + rest;
      var e := SlotsStage(env, b, order, c, bucket, 0, more);
      d := BucketsStage(env, b, order, e, bucket + 1, rest);
      var size, indexes := TInt(Occupied(b.news, bucket, 0)), Indexes(b, ids, bucket, 0);
      assert Buckets(b, ids, bucket) + rest == [size] + (indexes + more);
    }
  }

  // ----- the result

  /** Nobody was left without a slot, so nothing is dropped. */
  lemma {:induction false} NothingPruned(b: Book, ids: seq<int>)
    requires RandomOk(b) && forall id | id in b.info :: !Stray(b, id)
    ensures Prune(b, ids) == b
  {
    if ids != [] {
      NothingPruned(b, ids[1..]);
    }
  }

  /**
   Books with the same contents under a renaming of identifiers: identifier n of `c` stands for
   identifier order[n] of `b`, and every slot of either table holds the same entry in both.
   */
  ghost predicate Renamed(b: Book, c: Book, order: seq<int>) {
    && Distinct(order) && (forall id :: id in order <==> id in b.info)
    && c.key == b.key && c.nNew == b.nNew && c.nTried == b.nTried
    && (forall n :: n in c.info <==> 0 <= n < |order|)
    && (forall n | 0 <= n < |order| ::
        order[n] in b.info && c.info[n] == b.info[order[n]].(lastTry := 0, randomPos := c.info[n].randomPos))
    && c.news.Keys == b.news.Keys && (forall s | s in c.news ::
        0 <= c.news[s] < |order| && order[c.news[s]] == b.news[s])
    && c.tried.Keys == b.tried.Keys && (forall s | s in c.tried ::
        0 <= c.tried[s] < |order| && order[c.tried[s]] == b.tried[s])
  }

  lemma RenamedSlots(b: Book, order: seq<int>, c: Book, n: nat)
    requires Ordered(b, order) && SlotsLoaded(b, order, c, b.news.Keys) && n < |order|
    ensures SlotsOf(c.news, n) == SlotsOf(b.news, order[n])
  {
    forall s | s in b.news && b.news[s] == order[n] ensures c.news[s] == n {
      PositionUnique(order, n);
    }
  }

  lemma TriedFilled(env: Env, b: Book, order: seq<int>, c: Book, s: Slot)
    requires TriedOk(env, b) && Ordered(b, order) && TriedLoaded(env, b, order, c, |order|) && s in b.tried
    ensures s in c.tried
  {
    hide TriedSlot, Distinct;
    var id: int := b.tried[s];
    assert id in order;
    var n := PositionOf(order, id);
    assert TriedSlotAt(env, b, order, n) == s;
  }

  lemma TriedHolds(env: Env, b: Book, order: seq<int>, c: Book, s: Slot)
    requires TriedOk(env, b) && Ordered(b, order) && TriedLoaded(env, b, order, c, |order|) && s in c.tried
    ensures s in b.tried && 0 <= c.tried[s] < |order| && order[c.tried[s]] == b.tried[s]
  {
    hide TriedSlot, Distinct;
    var n: int := c.tried[s];
    var id: int := order[n];
    assert s == TriedSlotAt(env, b, order, n) && b.info[id].inTried;
  }

  lemma RenamedTried(env: Env, b: Book, order: seq<int>, c: Book)
    requires TriedOk(env, b) && Ordered(b, order) && TriedLoaded(env, b, order, c, |order|)
    ensures c.tried.Keys == b.tried.Keys && forall s | s in c.tried ::
        0 <= c.tried[s] < |order| && order[c.tried[s]] == b.tried[s]
  {
    hide TriedOk, TriedLoaded, Ordered;
    forall s | s in b.tried ensures s in c.tried {
      TriedFilled(env, b, order, c, s);
    }
    forall s | s in c.tried ensures s in b.tried && 0 <= c.tried[s] < |order| && order[c.tried[s]] == b.tried[s] {
      TriedHolds(env, b, order, c, s);
    }
  }

  lemma RenamedEntries(b: Book, order: seq<int>, c: Book)
    requires CountsOk(b, {}) && Ordered(b, order) && EntriesLoaded(b, order, c, |order|)
        && SlotsLoaded(b, order, c, b.news.Keys)
    ensures forall n | 0 <= n < |order| ::
        order[n] in b.info && n in c.info && c.info[n] ==
        b.info[order[n]].(lastTry := 0, randomPos := c.info[n].randomPos)
  {
    hide AddrOk;
    forall n | 0 <= n < |order|
      ensures order[n] in b.info && n in c.info && c.info[n] ==
          b.info[order[n]].(lastTry := 0, randomPos := c.info[n].randomPos)
    {
      RenamedSlots(b, order, c, n);
      assert SameEntry(b.info[order[n]], c.info[n]);
    }
  }

  lemma RenamedResult(env: Env, b: Book, order: seq<int>, c: Book)
    requires TriedOk(env, b) && CountsOk(b, {}) && Ordered(b, order) && SlotsState(env, b, order, c, b.news.Keys)
    ensures Renamed(b, c, order)
  {
    hide TriedOk, TriedLoaded, AddrOk, CountsOk, SameEntry;
    RenamedTried(env, b, order, c);
    RenamedEntries(b, order, c);
  }

  lemma {:induction false} IntervalSize(lo: int, hi: int, t: set<int>)
    requires lo <= hi && forall x :: x in t <==> lo <= x < hi
    ensures |t| == hi - lo
    decreases hi - lo
  {
    if lo == hi {
      if |t| > 0 {
        var x := Pick(t);
        assert false;
      }
    } else {
      IntervalSize(lo, hi - 1, t - {hi - 1});
    }
  }

  lemma ResultCounts(b: Book, order: seq<int>, c: Book)
    requires CountsOk(b, {}) && Ordered(b, order) && Renamed(b, c, order) && SlotsLoaded(b, order, c, b.news.Keys)
    ensures CountsOk(c, {})
  {
    IntervalSize(0, b.nNew, NewIds(c.info));
    IntervalSize(b.nNew, |order|, TriedIds(c.info));
  }

  lemma ResultTables(env: Env, b: Book, order: seq<int>, c: Book)
    requires NewOk(env, b) && TriedOk(env, b) && Ordered(b, order) && Renamed(b, c, order)
    ensures NewOk(env, c) && TriedOk(env, c)
  {
    hide Distinct;
    forall n | n in c.info && c.info[n].inTried
      ensures var s := TriedSlot(env, c.key, c.info[n].addr); s in c.tried && c.tried[s] == n
    {
      var id := order[n];
      var s := TriedSlot(env, b.key, b.info[id].addr);
      assert s in b.tried && b.tried[s] == order[n];
      SamePlace(order, c.tried[s], n);
    }
  }

  lemma SamePlace(order: seq<int>, m: int, n: int)
    requires Distinct(order) && 0 <= m < |order| && 0 <= n < |order| && order[m] == order[n]
    ensures m == n
  {
  }

  lemma ResultConsistent(env: Env, b: Book, order: seq<int>, c: Book)
    requires Consistent(env, b) && Ordered(b, order) && SlotsState(env, b, order, c, b.news.Keys)
        && Renamed(b, c, order)
    ensures Consistent(env, c)
  {
    assert NewOk(env, c) && TriedOk(env, c) by { ResultTables(env, b, order, c); }
    assert CountsOk(c, {}) by { ResultCounts(b, order, c); }
    assert TimesOk(c) by { ResultTimes(b, order, c); }
    hide NewOk, TriedOk, CountsOk, TimesOk, AddrOk, SlotsLoaded, TriedLoaded, Renamed, Ordered;
  }

  lemma ResultTimes(b: Book, order: seq<int>, c: Book)
    requires TimesOk(b) && Renamed(b, c, order)
    ensures TimesOk(c)
  {
  }

  lemma Parts(env: Env, b: Book, order: seq<int>)
    requires Consistent(env, b) && order == Order(b)
    ensures Ordered(b, order) && 0 <= b.nNew <= |order| && 0 <= b.nTried == |order| - b.nNew
    ensures NewPart(b) == Records(b.info, Span(order, 0, b.nNew))
    ensures TriedPart(b) == Records(b.info, Span(order, b.nNew, |order|))
  {
    hide Consistent, Chosen, Sorted, Order, Records, Ordered;
    OrderIsOrdered(env, b);
    assert order[..b.nNew] == Span(order, 0, b.nNew);
    assert order[b.nNew..] == Span(order, b.nNew, |order|);
  }

  lemma BlankLoaded(env: Env, b: Book, order: seq<int>)
    requires Ordered(b, order)
    ensures var b0 := Blank(b.key, b.nNew, b.nTried); EntriesLoaded(b, order, b0, 0) && NoSlots(b0)
  {
  }

  lemma NoTriedLoaded(env: Env, b: Book, order: seq<int>, c: Book)
    requires Ordered(b, order) && c.tried == map[]
    ensures TriedLoaded(env, b, order, c, b.nNew)
  {
  }

  /** The three loading stages on a saved stream. */
  lemma Stages(env: Env, b: Book, order: seq<int>) returns (b1: Book, b2: Book, b3: Book)
    requires Consistent(env, b) && order == Order(b)
    ensures Ordered(b, order) && SlotsState(env, b, order, b3, b.news.Keys)
    ensures LoadNew(env, Blank(b.key, b.nNew, b.nTried), NewPart(b) + (TriedPart(b) + BucketPart(b)), 0, true) ==
        Read(b1, TriedPart(b) + BucketPart(b))
    ensures b1.nNew == b.nNew && b1.nTried == b.nTried
    ensures LoadTried(env, b1.(idCount := b1.nNew), TriedPart(b) + BucketPart(b), b1.nTried) == Read(b2, BucketPart(b))
    ensures LoadBuckets(env, b2, BucketPart(b), 0, NEW_BUCKET_COUNT, true) == Read(b3, [])
  {
    hide IdsOk, RandomOk, CountsOk, TimesOk, NewOk, TriedOk, AddrOk, Ordered, Distinct, LoadNew, LoadTried, LoadBuckets,
        Buckets, Records, Order, Span, UpTo;
    hide NoSlots, SlotsLoaded, TriedLoaded, NewPart, TriedPart, Sorted;
    Parts(env, b, order);
    BlankLoaded(env, b, order);
    UpToNextBucket(env, b, 0);
    b1 := NewStage(env, b, order, Blank(b.key, b.nNew, b.nTried), 0, TriedPart(b) + BucketPart(b));
    NoTriedLoaded(env, b, order, b1.(idCount := b1.nNew));
    Renumbered(b, order, b1, b1.nNew);
    b2 := TriedStage(env, b, order, b1.(idCount := b1.nNew), b.nNew, BucketPart(b));
    NothingLoaded(b, order, b1.(idCount := b1.nNew), b2);
    assert BucketPart(b) + [] == BucketPart(b);
    b3 := BucketsStage(env, b, order, b2, 0, []);
  }

  lemma Renumbered(b: Book, order: seq<int>, c: Book, idCount: int)
    requires Ordered(b, order) && EntriesLoaded(b, order, c, b.nNew) && NoSlots(c)
    ensures EntriesLoaded(b, order, c.(idCount := idCount), b.nNew) && NoSlots(c.(idCount := idCount))
  {
  }

  lemma NothingLoaded(b: Book, order: seq<int>, c: Book, d: Book)
    requires Ordered(b, order) && NoSlots(c) && SameNews(c, d)
    ensures SlotsLoaded(b, order, d, {})
  {
    assert forall n :: SlotsOf(d.news, n) == {};
  }

  /**
   Saving a consistent manager and loading it into a fresh one gives the same manager up to renaming, itself consistent.
   */
  lemma RoundTrip(env: Env, b: Book)
    requires Consistent(env, b)
    ensures Load(env, Save(b)).Read? && Load(env, Save(b)).rest == []
    ensures Renamed(b, Load(env, Save(b)).book, Order(b)) && Consistent(env, Load(env, Save(b)).book)
  {
    hide IdsOk, RandomOk, CountsOk, TimesOk, NewOk, TriedOk, AddrOk, Ordered, SlotsState, Renamed, LoadNew, LoadTried,
        LoadBuckets, NewPart, TriedPart, BucketPart, Order, Sorted, Prune;
    var order := Order(b);
    var b1, b2, b3 := Stages(env, b, order);
    RenamedResult(env, b, order, b3);
    ResultConsistent(env, b, order, b3);
    NoStrays(env, b3);
    NothingPruned(b3, Sorted(b3.info.Keys));
    var body := NewPart(b) + (TriedPart(b) + BucketPart(b));
    assert LoadBody(env, Blank(b.key, b.nNew, b.nTried), body, NEW_BUCKET_COUNT, true) == Read(b3, []);
    assert Save(b)[6..] == body;
    assert FlipMark(NEW_BUCKET_COUNT + BUCKET_MARK) == NEW_BUCKET_COUNT;
  }

  lemma NoStrays(env: Env, b: Book)
    requires Consistent(env, b)
    ensures RandomOk(b) && forall id | id in b.info :: !Stray(b, id)
  {
  }
}
