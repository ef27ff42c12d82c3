/**
 A stack of write-back caches over the coin database, as a value.  Whatever the caches hold, drop or
 flush, the stack shows one plain coin set: `See` looks a transaction up in it.
 */
module CoinView {
  import opened Wrappers
  import opened Coins

  type BlockHash = nat  // 0 is the null hash

  datatype Entry = Entry(coins: Coins, isDirty: bool, isFresh: bool)

  datatype View =
    | Disk(db: map<Txid, Coins>, best: BlockHash)
    | Cache(base: View, entries: map<Txid, Entry>, hashBlock: BlockHash)

  /** The coins of a transaction in the set that the stack represents. */
  function See(v: View, t: Txid): Coins {
    match v
    case Disk(db, _) => if t in db then db[t] else NO_COINS
    case Cache(base, entries, _) => if t in entries then Normal(entries[t].coins) else See(base, t)
  }

  function Best(v: View): BlockHash {
    match v
    case Disk(_, best) => best
    case Cache(base, _, hashBlock) => if hashBlock != 0 then hashBlock else Best(base)
  }

  /** What the two flags of an entry promise about the view below. */
  ghost predicate EntryOk(base: View, t: Txid, e: Entry) {
    && Clean(e.coins)
    && (e.isFresh ==> See(base, t) == NO_COINS)
    && (!e.isDirty ==> Normal(e.coins) == See(base, t))
    && (!e.isFresh ==> base.Cache? ==> t in base.entries)
  }

  ghost predicate Ok(v: View) {
    match v
    case Disk(db, _) => forall t | t in db :: Clean(db[t]) && !IsPruned(db[t])
    case Cache(base, entries, _) => Ok(base) && forall t | t in entries :: EntryOk(base, t, entries[t])
  }

  /** Two stacks that represent the same coin set. */
  ghost predicate SameView(v: View, w: View) {
    forall t :: See(v, t) == See(w, t)
  }

  // ----- lookup

  /** Look up, filling the caches on the way; `None` if nobody has an entry. */
  function Fetch(v: View, t: Txid): (View, Option<Coins>) {
    match v
    case Disk(db, _) => (v, if t in db then Some(db[t]) else None)
    case Cache(base, entries, hashBlock) =>
      if t in entries then (v, Some(entries[t].coins)) else
        var (b, r) := Fetch(base, t);
        match r
        case None => (v.(base := b), None)
        case Some(c) => (v.(base := b, entries := entries[t := Entry(c, false, IsPruned(c))]), r)
  }

  /** Filling a cache changes neither the coin set nor the best block, and keeps every entry already there. */
  lemma {:induction false} FetchKeeps(v: View, t: Txid)
    requires Ok(v)
    ensures var (w, r) := Fetch(v, t);
      && Ok(w) && SameView(v, w) && Best(w) == Best(v)
      && (w.Cache? <==> v.Cache?)
      && (v.Cache? ==>
          (forall k | k in v.entries :: k in w.entries && w.entries[k] == v.entries[k]) && w.hashBlock == v.hashBlock)
      && (r.None? ==> See(v, t) == NO_COINS)
      && (r.Some? ==> Clean(r.value) && Normal(r.value) == See(v, t) && (v.Cache? ==> t in w.entries))
  {
    match v
    case Disk(_, _) =>
    case Cache(base, entries, _) =>
      if t !in entries {
        FetchKeeps(base, t);
        var (w, r) := Fetch(v, t);
        EntriesStillOk(base, w.base, entries);
        if r.Some? {
          NormalPruned(r.value);
        }
      }
  }

  lemma NormalPruned(c: Coins)
    ensures Normal(c) == NO_COINS <==> IsPruned(c)
  {
    assert IsPruned(NO_COINS);
  }

  /** Entries rely on nothing below but the coin set and on who is cached there. */
  lemma EntriesStillOk(base: View, base': View, entries: map<Txid, Entry>)
    requires forall t | t in entries :: EntryOk(base, t, entries[t])
    requires SameView(base, base') && (base'.Cache? <==> base.Cache?)
    requires base.Cache? ==> forall k | k in base.entries :: k in base'.entries
    ensures forall t | t in entries :: EntryOk(base', t, entries[t])
  {
  }

  /** `GetCoins` finds coins exactly when they are in the set, up to pruned ones; `HaveCoins` is exact. */
  function HaveCoins(v: View, t: Txid): bool {
    var r := Fetch(v, t).1;
    r.Some? && r.value.vout != []
  }

  lemma HaveCoinsExact(v: View, t: Txid)
    requires Ok(v)
    ensures HaveCoins(v, t) <==> !IsPruned(See(v, t))
  {
    FetchKeeps(v, t);
    var r := Fetch(v, t).1;
    assert IsPruned(NO_COINS);
    if r.Some? {
      CleanPruned(r.value);
      NormalPruned(r.value);
    }
  }

  function GetBestBlock(v: View): (View, BlockHash) {
    match v
    case Disk(_, best) => (v, best)
    case Cache(base, _, hashBlock) =>
      if hashBlock != 0 then (v, hashBlock) else
        var (b, h) := GetBestBlock(base);
        (v.(base := b, hashBlock := h), h)
  }

  lemma {:induction false} GetBestBlockKeeps(v: View)
    requires Ok(v)
    ensures var (w, h) := GetBestBlock(v);
      && Ok(w) && SameView(v, w) && Best(w) == Best(v) == h
      && (w.Cache? <==> v.Cache?) && (v.Cache? ==> w.entries == v.entries)
  {
    if v.Cache? && v.hashBlock == 0 {
      GetBestBlockKeeps(v.base);
      EntriesStillOk(v.base, GetBestBlock(v.base).0, v.entries);
    }
  }

  // ----- modification

  /** The entry handed out for modification: the one there, or one brought in from below. */
  function BeginModify(v: View, t: Txid): View
    requires v.Cache?
  {
    if t in v.entries then v.(entries := v.entries[t := v.entries[t].(isDirty := true)]) else
      match Fetch(v.base, t)
      case (b, None) => v.(base := b, entries := v.entries[t := Entry(NO_COINS, true, true)])
      case (b, Some(c)) => v.(base := b, entries := v.entries[t := Entry(c, true, IsPruned(c))])
  }

  /** Hand the entry back: trim it, and forget it if nobody below knows it and it is pruned. */
  function EndModify(v: View, t: Txid, c: Coins): View
    requires v.Cache? && t in v.entries
  {
    if v.entries[t].isFresh && IsPruned(Cleanup(c)) then v.(entries := v.entries - {t})
    else v.(entries := v.entries[t := v.entries[t].(coins := Cleanup(c))])
  }

  lemma BringIn(v: View, t: Txid)
    requires Ok(v) && v.Cache? && t !in v.entries
    ensures var (b, r) := Fetch(v.base, t);
      && Ok(v.(base := b)) && SameView(v, v.(base := b)) && Best(b) == Best(v.base)
      && (r.None? ==> EntryOk(b, t, Entry(NO_COINS, true, true)) && See(v, t) == NO_COINS)
      && (r.Some? ==> EntryOk(b, t, Entry(r.value, true, IsPruned(r.value))) && Normal(r.value) == See(v, t))
  {
    FetchKeeps(v.base, t);
    var (b, r) := Fetch(v.base, t);
    EntriesStillOk(v.base, b, v.entries);
    if r.Some? {
      NormalPruned(r.value);
    }
  }

  lemma BeginModifyKeeps(v: View, t: Txid)
    requires Ok(v) && v.Cache?
    ensures var w := BeginModify(v, t);
      && Ok(w) && SameView(v, w) && Best(w) == Best(v) && w.Cache?
      && t in w.entries && w.entries[t].isDirty && Normal(w.entries[t].coins) == See(v, t)
  {
    assert IsPruned(NO_COINS);
    if t !in v.entries {
      BringIn(v, t);
    }
  }

  /** A modification changes the coin set at its key, to the value left behind, and nowhere else. */
  lemma EndModifyPuts(v: View, t: Txid, c: Coins)
    requires Ok(v) && v.Cache? && t in v.entries && v.entries[t].isDirty
    ensures var w := EndModify(v, t, c);
      && Ok(w) && Best(w) == Best(v) && w.Cache?
      && See(w, t) == Normal(Cleanup(c))
      && forall k | k != t :: See(w, k) == See(v, k)
  {
  }

  // ----- flushing

  /** What a parent's entry becomes when a child's entry is written into it. */
  function Merge(ours: Option<Entry>, theirs: Entry): Option<Entry> {
    if !theirs.isDirty then ours
    else match ours
      case None => if IsPruned(theirs.coins) then None else Some(Entry(theirs.coins, true, true))
      case Some(e) =>
        if e.isFresh && IsPruned(theirs.coins) then None else Some(Entry(theirs.coins, true, e.isFresh))
  }

  function DiskMerge(ours: Option<Coins>, theirs: Entry): Option<Coins> {
    if !theirs.isDirty then ours else if IsPruned(theirs.coins) then None else Some(theirs.coins)
  }

  function Find<T>(m: map<Txid, T>, t: Txid): Option<T> {
    if t in m then Some(m[t]) else None
  }

  /** View `w` is `v` after the entries of a child were written into it key by key, in whatever order. */
  ghost predicate Written(v: View, entries: map<Txid, Entry>, hashBlock: BlockHash, w: View) {
    match v
    case Disk(db, best) =>
      && w.Disk? && w.best == (if hashBlock != 0 then hashBlock else best)
      && forall t :: Find(w.db, t) == if t in entries then DiskMerge(Find(db, t), entries[t]) else Find(db, t)
    case Cache(base, ours, _) =>
      && w.Cache? && w.base == base && w.hashBlock == hashBlock
      && forall t :: Find(w.entries, t) == if t in entries then Merge(Find(ours, t), entries[t]) else Find(ours, t)
  }

  /** The assertion in the write: an entry unknown here, not pruned and dirty, is marked fresh. */
  ghost predicate FreshAsserted(v: View, entries: map<Txid, Entry>) {
    v.Cache? ==>
        forall t | t in entries && entries[t].isDirty && t !in v.entries && !IsPruned(entries[t].coins) ::
        entries[t].isFresh
  }

  lemma FreshNeverFails(v: View)
    requires Ok(v) && v.Cache?
    ensures FreshAsserted(v.base, v.entries)
  {
  }

  lemma DiskWritten(v: View, entries: map<Txid, Entry>, hashBlock: BlockHash, w: View)
    requires v.Disk? && Ok(v) && (forall t | t in entries :: EntryOk(v, t, entries[t]))
        && Written(v, entries, hashBlock, w)
    ensures Ok(w)
    ensures forall t :: See(w, t) == if t in entries then Normal(entries[t].coins) else See(v, t)
  {
    forall t ensures (t in w.db ==> Clean(w.db[t]) && !IsPruned(w.db[t])) && See(w, t) ==
        if t in entries then Normal(entries[t].coins) else See(v, t) {
      assert Find(w.db, t) == if t in entries then DiskMerge(Find(v.db, t), entries[t]) else Find(v.db, t);
    }
  }

  lemma MergedEntryOk(v: View, entries: map<Txid, Entry>, t: Txid)
    requires v.Cache? && Ok(v) && t in entries && EntryOk(v, t, entries[t])
    ensures var e := Merge(Find(v.entries, t), entries[t]);
      && (e.Some? ==> EntryOk(v.base, t, e.value))
      && (if e.Some? then Normal(e.value.coins) else See(v.base, t)) == Normal(entries[t].coins)
  {
    NormalPruned(entries[t].coins);
  }

  lemma CacheWritten(v: View, entries: map<Txid, Entry>, hashBlock: BlockHash, w: View)
    requires v.Cache? && Ok(v) && (forall t | t in entries :: EntryOk(v, t, entries[t]))
        && Written(v, entries, hashBlock, w)
    ensures Ok(w)
    ensures forall t :: See(w, t) == if t in entries then Normal(entries[t].coins) else See(v, t)
  {
    forall t
      ensures t in w.entries ==> EntryOk(w.base, t, w.entries[t])
      ensures See(w, t) == if t in entries then Normal(entries[t].coins) else See(v, t)
    {
      assert Find(w.entries, t) == if t in entries then Merge(Find(v.entries, t), entries[t]) else Find(v.entries, t);
      if t in entries {
        MergedEntryOk(v, entries, t);
      }
    }
  }

  /** Flushing empties the top cache into the view below without changing the coin set. */
  lemma FlushKeeps(v: View, w: View)
    requires Ok(v) && v.Cache? && Written(v.base, v.entries, v.hashBlock, w)
    ensures var flushed := Cache(w, map[], v.hashBlock); Ok(flushed) && SameView(v, flushed)
  {
    if v.base.Disk? {
      DiskWritten(v.base, v.entries, v.hashBlock, w);
    } else {
      CacheWritten(v.base, v.entries, v.hashBlock, w);
    }
  }

  /**
   The best block survives a flush unless the cache never asked for it while the cache below holds
   one that its own base does not have yet: then the null hash overwrites it.
   */
  lemma FlushBestBlock(v: View, w: View)
    requires Ok(v) && v.Cache? && Written(v.base, v.entries, v.hashBlock, w)
    ensures Best(Cache(w, map[], v.hashBlock)) == Best(v) <==>
      v.hashBlock != 0 || v.base.Disk? || v.base.hashBlock == 0 || v.base.hashBlock == Best(v.base.base)
  {
  }

  /** A stack on which a flush loses the best block. */
  lemma FlushLosesBestBlock()
    ensures var v := Cache(Cache(Disk(map[], 1), map[], 2), map[], 0);
      && Ok(v) && Written(v.base, v.entries, v.hashBlock, Cache(Disk(map[], 1), map[], 0))
      && Best(v) == 2 && Best(Cache(Cache(Disk(map[], 1), map[], 0), map[], 0)) == 1
  {
  }

  // ----- whole runs: the stack behaves as one plain map

  /** The coin set as a plain map; a transaction that is not there has no coins. */
  type CoinSet = map<Txid, Coins>

  function Get(m: CoinSet, t: Txid): Coins {
    if t in m then m[t] else NO_COINS
  }

  function Put(m: CoinSet, t: Txid, c: Coins): CoinSet {
    if IsPruned(c) then m - {t} else m[t := c]
  }

  ghost predicate Refines(v: View, m: CoinSet) {
    forall t :: See(v, t) == Get(m, t)
  }

  /**
   What callers do: look up, modify by a function of the coins found, name a best block, flush, add a layer, remove a
   flushed one.
   */
  datatype ViewOp = Looking(t: Txid) | Modifying(t: Txid,
      f: Coins -> Coins) | Asking | Naming(h: BlockHash) | Flushing | Stacking | Unstacking

  function Modified(v: View, t: Txid, f: Coins -> Coins): View
    requires v.Cache?
  {
    var w := BeginModify(v, t);
    EndModify(w, t, f(w.entries[t].coins))
  }

  ghost predicate Next(v: View, op: ViewOp, w: View) {
    && v.Cache?
    && match op
       case Looking(t) => w == Fetch(v, t).0
       case Modifying(t, f) => w == Modified(v, t, f)
       case Asking => w == GetBestBlock(v).0
       case Naming(h) => w == v.(hashBlock := h)
       case Flushing => w.Cache? && w.entries == map[] && w.hashBlock == v.hashBlock
           && Written(v.base, v.entries, v.hashBlock, w.base)
       case Stacking => w == Cache(v, map[], 0)
       case Unstacking => v.entries == map[] && w == v.base && w.Cache?
  }

  /** The same operation on the plain map: only a modification does anything, and only at its key. */
  ghost function NextPlain(m: CoinSet, op: ViewOp, found: Coins): CoinSet {
    match op
    case Modifying(t, f) => Put(m, t, Cleanup(f(found)))
    case _ => m
  }

  lemma ModifiedPuts(v: View, t: Txid, f: Coins -> Coins, m: CoinSet) returns (found: Coins)
    requires Ok(v) && v.Cache? && Refines(v, m)
    ensures Ok(Modified(v, t, f)) && Modified(v, t, f).Cache? && Best(Modified(v, t, f)) == Best(v)
    ensures Normal(found) == Get(m, t) && Refines(Modified(v, t, f), Put(m, t, Cleanup(f(found))))
  {
    BeginModifyKeeps(v, t);
    var w := BeginModify(v, t);
    found := w.entries[t].coins;
    EndModifyPuts(w, t, f(found));
    assert IsPruned(NO_COINS);
  }

  /**
   One step of the stack is one step of the map: the caller of a modification finds the coins the map has, up to pruned
   ones.
   */
  lemma StepRefines(v: View, op: ViewOp, w: View, m: CoinSet) returns (n: CoinSet)
    requires Ok(v) && Refines(v, m) && Next(v, op, w)
    ensures Ok(w) && Refines(w, n) && PlainStep(m, op, n)
  {
    var found := NO_COINS;
    match op {
      case Looking(t) => FetchKeeps(v, t);
      case Modifying(t, f) => found := ModifiedPuts(v, t, f, m);
      case Asking => GetBestBlockKeeps(v);
      case Naming(h) =>
      case Flushing => FlushKeeps(v, w.base);
      case Stacking =>
      case Unstacking =>
    }
    n := NextPlain(m, op, found);
  }

  ghost predicate IsRun(ops: seq<ViewOp>, states: seq<View>) {
    |states| == |ops| + 1 && forall k | 0 <= k < |ops| :: Next(states[k], ops[k], states[k + 1])
  }

  ghost predicate PlainStep(m: CoinSet, op: ViewOp, n: CoinSet) {
    exists found :: n == NextPlain(m, op, found) && (op.Modifying? ==> Normal(found) == Get(m, op.t))
  }

  ghost predicate IsPlainRun(ops: seq<ViewOp>, plain: seq<CoinSet>) {
    |plain| == |ops| + 1 && forall k | 0 <= k < |ops| :: PlainStep(plain[k], ops[k], plain[k + 1])
  }

  /** Every run of any stack, changed only at the top, is matched state by state by a run of a plain map. */
  lemma {:induction false} EveryRunRefines(ops: seq<ViewOp>, states: seq<View>, m: CoinSet)
      returns (plain: seq<CoinSet>)
    requires IsRun(ops, states) && Ok(states[0]) && Refines(states[0], m)
    ensures IsPlainRun(ops, plain) && plain[0] == m
    ensures forall k | 0 <= k < |states| :: Ok(states[k]) && Refines(states[k], plain[k])
  {
    hide Next, Ok, Refines, PlainStep;
    if ops == [] {
      plain := [m];
    } else {
      var last := |ops| - 1;
      plain := EveryRunRefines(ops[..last], states[..last + 1], m);
      assert Next(states[last], ops[last], states[last + 1]);
      assert states[..last + 1][last] == states[last];
      var n := StepRefines(states[last], ops[last], states[last + 1], plain[last]);
      plain := plain + [n];
    }
  }
}
