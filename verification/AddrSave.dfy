/**
 Saving an address manager to a stream of tokens and loading it back.  A token is one scalar or one
 record; how a token becomes bytes is not part of this model.
 */
module AddrSave {
  import opened Collections
  import opened AddrBook

  /** What the stream keeps of an entry (the last attempt, the references and the tables are not kept). */
  datatype Record = Record(addr: Service, services: bv64, time: int, source: NetAddr, lastSuccess: int, attempts: int)

  datatype Token = TByte(b: nat) | TKey(key: nat) | TInt(n: int) | TInfo(rec: Record)

  datatype Loaded = Failed | Read(book: Book, rest: seq<Token>)

  const BUCKET_MARK := 0x4000_0000  // 2 to the 30th

  function ToRecord(i: Info): Record {
    Record(i.addr, i.services, i.time, i.source, i.lastSuccess, i.attempts)
  }

  function FromRecord(r: Record, inTried: bool, randomPos: int): Info {
    Info(r.addr, r.services, r.time, r.source, r.lastSuccess, 0, r.attempts, 0, inTried, randomPos)
  }

  /** Exclusive or with 2 to the 30th on a 32-bit integer. */
  function FlipMark(n: int): int {
    if (n / BUCKET_MARK) % 2 == 1 then n - BUCKET_MARK else n + BUCKET_MARK
  }

  // ----- ascending order, as std::map iterates

  lemma {:induction false} MinExists(s: set<int>)
    requires |s| > 0
    ensures exists m :: m in s && forall x | x in s :: m <= x
  {
    var y := Pick(s);
    var rest := s - {y};
    if |rest| == 0 {
      assert s == {y};
    } else {
      MinExists(rest);
      var m :| m in rest && forall x | x in rest :: m <= x;
      var least := if m <= y then m else y;
      assert forall x | x in s :: x == y || x in rest;
      assert least in s && forall x | x in s :: least <= x;
    }
  }

  function Least(s: set<int>): (m: int)
    requires |s| > 0
    ensures m in s && forall x | x in s :: m <= x
  {
    MinExists(s);
    var m :| m in s && forall x | x in s :: m <= x;
    m
  }

  predicate Ascending(r: seq<int>) {
    forall i, j | 0 <= i < j < |r| :: r[i] < r[j]
  }

  function Sorted(s: set<int>): (r: seq<int>)
    ensures forall x :: x in r <==> x in s
  {
    if |s| == 0 then [] else
      var m := Least(s);
      [m] + Sorted(s - {m})
  }

  lemma {:induction false} SortedAscends(s: set<int>)
    ensures Ascending(Sorted(s)) && |Sorted(s)| == |s|
  {
    if |s| != 0 {
      var m := Least(s);
      var rest := Sorted(s - {m});
      SortedAscends(s - {m});
      SortedAbove(s, m, rest);
      AscendingFirst(m, rest);
    }
  }

  lemma SortedAbove(s: set<int>, m: int, rest: seq<int>)
    requires m in s && (forall x | x in s :: m <= x) && (forall x :: x in rest <==> x in s - {m})
    ensures forall i | 0 <= i < |rest| :: m < rest[i]
  {
    forall i | 0 <= i < |rest| ensures m < rest[i] {
      var x := rest[i];
      assert x in rest;
    }
  }

  lemma AscendingFirst(m: int, rest: seq<int>)
    requires Ascending(rest) && forall i | 0 <= i < |rest| :: m < rest[i]
    ensures Ascending([m] + rest)
  {
  }

  // ----- saving

  /** The identifiers among `ids` that are saved as new (`wantNew`) or as tried. */
  function Chosen(info: map<int, Info>, ids: seq<int>, wantNew: bool): (r: seq<int>)
    requires forall id | id in ids :: id in info
    ensures forall id :: id in r <==> id in ids && (if wantNew then info[id].refCount != 0 else info[id].inTried)
  {
    if ids == [] then [] else
      var last := ids[|ids| - 1];
      var rest := Chosen(info, ids[..|ids| - 1], wantNew);
      if (if wantNew then info[last].refCount != 0 else info[last].inTried) then rest + [last] else rest
  }

  function Records(info: map<int, Info>, ids: seq<int>): seq<Token>
    requires forall id | id in ids :: id in info
  {
    if ids == [] then [] else
      var id := ids[0];
      assert id in ids;
      [TInfo(ToRecord(info[id]))] + Records(info, ids[1..])
  }

  /** Where an identifier occurs in a list (the last place, if several). */
  function PositionOf(ids: seq<int>, id: int): (k: nat)
    requires id in ids
    ensures k < |ids| && ids[k] == id
  {
    if ids[|ids| - 1] == id then |ids| - 1 else PositionOf(ids[..|ids| - 1], id)
  }

  /** The index under which an entry is saved: how many saved-as-new entries precede it. */
  function Index(info: map<int, Info>, ids: seq<int>, id: int): nat
    requires forall x | x in ids :: x in info
  {
    if id in ids then |Chosen(info, ids[..PositionOf(ids, id)], true)| else 0
  }

  function Occupied(news: map<Slot, int>, bucket: nat, pos: nat): nat
    decreases BUCKET_SIZE - pos
  {
    if pos >= BUCKET_SIZE then 0 else (if Slot(bucket, pos) in news then 1 else 0) + Occupied(news, bucket, pos + 1)
  }

  /** The indexes of the occupied slots of a bucket from `pos` on. */
  function Indexes(b: Book, ids: seq<int>, bucket: nat, pos: nat): seq<Token>
    requires forall x | x in ids :: x in b.info
    decreases BUCKET_SIZE - pos
  {
    if pos >= BUCKET_SIZE then [] else
      (if Slot(bucket, pos) in b.news then [TInt(Index(b.info, ids, b.news[Slot(bucket, pos)]))] else [])
      + Indexes(b, ids, bucket, pos + 1)
  }

  /** The buckets from `bucket` on, each as its size and its indexes. */
  function Buckets(b: Book, ids: seq<int>, bucket: nat): seq<Token>
    requires forall x | x in ids :: x in b.info
    decreases NEW_BUCKET_COUNT - bucket
  {
    if bucket >= NEW_BUCKET_COUNT then [] else
      [TInt(Occupied(b.news, bucket, 0))] + Indexes(b, ids, bucket, 0) + Buckets(b, ids, bucket + 1)
  }

  function Header(b: Book): seq<Token> {
    [TByte(1), TByte(32), TKey(b.key), TInt(b.nNew), TInt(b.nTried), TInt(NEW_BUCKET_COUNT + BUCKET_MARK)]
  }

  function NewPart(b: Book): seq<Token> {
    Records(b.info, Chosen(b.info, Sorted(b.info.Keys), true))
  }

  function TriedPart(b: Book): seq<Token> {
    Records(b.info, Chosen(b.info, Sorted(b.info.Keys), false))
  }

  function BucketPart(b: Book): seq<Token> {
    Buckets(b, Sorted(b.info.Keys), 0)
  }

  function Save(b: Book): seq<Token> {
    Header(b) + (NewPart(b) + (TriedPart(b) + BucketPart(b)))
  }

  /** The first tokens of the file: version 1, a key of 32 bytes, the counters, and 1024 buckets marked with 2^30. */
  lemma SavedHeader(b: Book)
    ensures Save(b)[..6] == [TByte(1), TByte(32), TKey(b.key), TInt(b.nNew), TInt(b.nTried), TInt(0x4000_0400)]
  {
    assert Save(b)[..6] == Header(b);
  }

  /** The mark is bit 30: flipping it twice changes nothing, and below 2^31 it is added to what lacks it. */
  lemma FlipMarkExact(n: int)
    ensures FlipMark(FlipMark(n)) == n && FlipMark(n) != n
    ensures 0 <= n < 0x4000_0000 ==> FlipMark(n) == n + 0x4000_0000
    ensures 0x4000_0000 <= n < 0x8000_0000 ==> FlipMark(n) == n - 0x4000_0000
  {
    var q := n / BUCKET_MARK;
    assert n - BUCKET_MARK == (q - 1) * BUCKET_MARK + n % BUCKET_MARK;
    assert (n - BUCKET_MARK) / BUCKET_MARK == q - 1 && (n + BUCKET_MARK) / BUCKET_MARK == q + 1;
  }

  // ----- loading into a fresh manager

  /** One record of a new entry.  If the saved slots cannot be used it gets one by its source, if that is free. */
  function EnterNew(env: Env, b: Book, r: Record, n: int, usable: bool): Book {
    var c := b.(info := b.info[n := FromRecord(r, false, |b.random|)], addr := b.addr[r.addr.ip := n],
        random := b.random + [n]);
    var s := NewSlot(env, b.key, r.addr, r.source);
    if !usable && s !in c.news then Ref(c, s, n) else c
  }

  function LoadNew(env: Env, b: Book, s: seq<Token>, n: int, usable: bool): Loaded
    decreases b.nNew - n
  {
    if n >= b.nNew then Read(b, s)
    else if s == [] || !s[0].TInfo? then Failed
    else LoadNew(env, EnterNew(env, b, s[0].rec, n, usable), s[1..], n + 1, usable)
  }

  /** One record of a tried entry; it is lost if its slot is taken.  A slot written with -1 stays free. */
  function EnterTried(env: Env, b: Book, r: Record): Book {
    var s, id := TriedSlot(env, b.key, r.addr), b.idCount;
    if s in b.tried then b.(nTried := b.nTried - 1) else
      b.(idCount := id + 1, info := b.info[id := FromRecord(r, true, |b.random|)], addr := b.addr[r.addr.ip := id],
         random := b.random + [id], tried := if id == -1 then b.tried else b.tried[s := id])
  }

  function LoadTried(env: Env, b: Book, s: seq<Token>, left: int): Loaded
    decreases left
  {
    if left <= 0 then Read(b, s)
    else if s == [] || !s[0].TInfo? then Failed
    else LoadTried(env, EnterTried(env, b, s[0].rec), s[1..], left - 1)
  }

  /** One saved slot: its position within the bucket is computed afresh. */
  function EnterSlot(env: Env, b: Book, bucket: nat, index: int, usable: bool): Book {
    if 0 <= index < b.nNew && index in b.info then
      var s := NewSlotAt(env, b.key, b.info[index].addr, bucket);
      if usable && s !in b.news && b.info[index].refCount < NEW_BUCKETS_PER_ADDRESS then Ref(b, s, index) else b
    else b
  }

  function LoadSlots(env: Env, b: Book, s: seq<Token>, bucket: nat, left: int, usable: bool): Loaded
    decreases left
  {
    if left <= 0 then Read(b, s)
    else if s == [] || !s[0].TInt? then Failed
    else LoadSlots(env, EnterSlot(env, b, bucket, s[0].n, usable), s[1..], bucket, left - 1, usable)
  }

  function LoadBuckets(env: Env, b: Book, s: seq<Token>, bucket: nat, buckets: int, usable: bool): Loaded
    decreases buckets - bucket
  {
    if bucket >= buckets then Read(b, s)
    else if s == [] || !s[0].TInt? then Failed
    else
      match LoadSlots(env, b, s[1..], bucket, s[0].n, usable)
      case Failed => Failed
      case Read(c, rest) => LoadBuckets(env, c, rest, bucket + 1, buckets, usable)
  }

  predicate Stray(b: Book, id: int) {
    id in b.info && !b.info[id].inTried && b.info[id].refCount == 0
  }

  lemma DeleteOrder(b: Book, id: int)
    requires RandomOk(b) && id in b.info && !b.info[id].inTried && b.info[id].refCount == 0
    ensures RandomOk(Delete(b, id))
  {
    var last, m := DeleteSplit(b, id);
  }

  /** Entries that found no slot are dropped, in ascending order. */
  function Prune(b: Book, ids: seq<int>): (c: Book)
    requires RandomOk(b)
    ensures RandomOk(c)
    decreases ids
  {
    if ids == [] then b
    else if Stray(b, ids[0]) then
      DeleteOrder(b, ids[0]);
      Prune(Delete(b, ids[0]), ids[1..])
    else Prune(b, ids[1..])
  }

  /** What each loading step keeps on any stream, however malformed. */
  lemma EnterNewOrder(env: Env, b: Book, r: Record, n: int, usable: bool)
    requires RandomOk(b) && n !in b.info
    ensures RandomOk(EnterNew(env, b, r, n, usable))
  {
  }

  lemma EnterTriedOrder(env: Env, b: Book, r: Record)
    requires RandomOk(b) && b.idCount !in b.info
    ensures RandomOk(EnterTried(env, b, r))
  {
  }

  lemma EnterSlotOrder(env: Env, b: Book, bucket: nat, index: int, usable: bool)
    requires RandomOk(b)
    ensures var c := EnterSlot(env, b, bucket, index, usable); RandomOk(c) && c.info.Keys == b.info.Keys
  {
  }

  lemma {:induction false} LoadNewOrder(env: Env, b: Book, s: seq<Token>, n: int, usable: bool)
    requires RandomOk(b) && 0 <= n && forall id | id in b.info :: 0 <= id < n
    ensures var r := LoadNew(env, b, s, n, usable);
      r.Read? ==>
        && RandomOk(r.book) && r.book.nNew == b.nNew && r.book.nTried == b.nTried && r.book.idCount == b.idCount
        && forall id | id in r.book.info :: 0 <= id && (id < n || id < b.nNew)
    decreases b.nNew - n
  {
    if n < b.nNew && s != [] && s[0].TInfo? {
      EnterNewOrder(env, b, s[0].rec, n, usable);
      LoadNewOrder(env, EnterNew(env, b, s[0].rec, n, usable), s[1..], n + 1, usable);
    }
  }

  lemma {:induction false} LoadTriedOrder(env: Env, b: Book, s: seq<Token>, left: int)
    requires RandomOk(b) && forall id | id in b.info :: id < b.idCount
    ensures var r := LoadTried(env, b, s, left); r.Read? ==> RandomOk(r.book)
    decreases left
  {
    if left > 0 && s != [] && s[0].TInfo? {
      EnterTriedOrder(env, b, s[0].rec);
      LoadTriedOrder(env, EnterTried(env, b, s[0].rec), s[1..], left - 1);
    }
  }

  lemma {:induction false} LoadSlotsOrder(env: Env, b: Book, s: seq<Token>, bucket: nat, left: int, usable: bool)
    requires RandomOk(b)
    ensures var r := LoadSlots(env, b, s, bucket, left, usable); r.Read? ==> RandomOk(r.book)
    decreases left
  {
    if left > 0 && s != [] && s[0].TInt? {
      EnterSlotOrder(env, b, bucket, s[0].n, usable);
      LoadSlotsOrder(env, EnterSlot(env, b, bucket, s[0].n, usable), s[1..], bucket, left - 1, usable);
    }
  }

  lemma {:induction false} LoadBucketsOrder(env: Env, b: Book, s: seq<Token>, bucket: nat, buckets: int, usable: bool)
    requires RandomOk(b)
    ensures var r := LoadBuckets(env, b, s, bucket, buckets, usable); r.Read? ==> RandomOk(r.book)
    decreases buckets - bucket
  {
    if bucket < buckets && s != [] && s[0].TInt? {
      LoadSlotsOrder(env, b, s[1..], bucket, s[0].n, usable);
      var r := LoadSlots(env, b, s[1..], bucket, s[0].n, usable);
      if r.Read? {
        LoadBucketsOrder(env, r.book, r.rest, bucket + 1, buckets, usable);
      }
    }
  }

  predicate GoodHeader(s: seq<Token>) {
    |s| >= 6 && s[0].TByte? && s[1].TByte? && s[1].b == 32 && s[2].TKey? && s[3].TInt? && s[4].TInt? && s[5].TInt?
  }

  /** A manager that has read its header and nothing else. */
  function Blank(key: nat, nNew: int, nTried: int): Book {
    Book(key, 0, map[], map[], [], nTried, map[], nNew, map[])
  }

  /** Everything after the header. */
  function LoadBody(env: Env, b0: Book, s: seq<Token>, buckets: int, usable: bool): Loaded
    requires b0 == Blank(b0.key, b0.nNew, b0.nTried)
  {
    match LoadNew(env, b0, s, 0, usable)
    case Failed => Failed
    case Read(b1, s1) =>
      LoadNewOrder(env, b0, s, 0, usable);
      match LoadTried(env, b1.(idCount := b1.nNew), s1, b1.nTried)
      case Failed => Failed
      case Read(b2, s2) =>
        LoadTriedOrder(env, b1.(idCount := b1.nNew), s1, b1.nTried);
        match LoadBuckets(env, b2, s2, 0, buckets, usable)
        case Failed => Failed
        case Read(b3, s3) =>
          LoadBucketsOrder(env, b2, s2, 0, buckets, usable);
          Read(Prune(b3, Sorted(b3.info.Keys)), s3)
  }

  /**
   Loading into a fresh manager.  Failure stands for the exception thrown on a wrong key size or at
   the end of the stream.
   */
  function Load(env: Env, s: seq<Token>): Loaded {
    if !GoodHeader(s) then Failed else
      var buckets := if s[0].b != 0 then FlipMark(s[5].n) else s[5].n;
      LoadBody(env, Blank(s[2].key, s[3].n, s[4].n), s[6..], buckets, s[0].b == 1 && buckets == NEW_BUCKET_COUNT)
  }

}
