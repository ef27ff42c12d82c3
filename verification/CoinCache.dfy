/**
 The caches themselves: objects layered over one database object, changed in place even by lookups.
 Each method is proved against its function on the stack as a value.
 */
module CoinCache {
  import opened Wrappers
  import opened Coins
  import opened CoinView
  import V = CoinView

  class CoinsDb {
    var coins: map<Txid, Coins>
    var best: BlockHash

    method GetCoins(t: Txid) returns (r: Option<Coins>)
      ensures r == Find(coins, t)
    {
      r := if t in coins then Some(coins[t]) else None;
    }

    /** The entries outside `todo` have been written. */
    static ghost predicate PartlyWritten(before: map<Txid, Coins>, entries: map<Txid, Entry>, todo: set<Txid>,
        now: map<Txid, Coins>) {
      forall t ::
          Find(now, t) == if t in entries && t !in todo then DiskMerge(Find(before, t), entries[t]) else Find(before, t)
    }

    /** Write the dirty entries: pruned ones are erased.  The null hash leaves the best block alone. */
    method BatchWrite(entries: map<Txid, Entry>, hashBlock: BlockHash)
      modifies this
      ensures Written(Disk(old(coins), old(best)), entries, hashBlock, Disk(coins, best))
    {
      var todo := entries.Keys;
      while todo != {}
        invariant todo <= entries.Keys && best == old(best)
        invariant PartlyWritten(old(coins), entries, todo, coins)
        decreases todo
      {
        var t :| t in todo;
        if entries[t].isDirty {
          coins := if IsPruned(entries[t].coins) then coins - {t} else coins[t := entries[t].coins];
        }
        todo := todo - {t};
      }
      if hashBlock != 0 {
        best := hashBlock;
      }
    }
  }

  class CoinsCache {
    const db: CoinsDb
    const below: CoinsCache?
    var cacheCoins: map<Txid, Entry>
    var hashBlock: BlockHash
    var hasModifier: bool

    ghost const layers: set<CoinsCache>  // this cache and those below it

    /** The layers form a chain that ends at the database. */
    ghost predicate Linked()
      decreases |layers|
    {
      && this in layers
      && (below == null ==> layers == {this})
      && (below != null ==>
          |below.layers| < |layers| && layers == below.layers + {this} && this !in below.layers && below.db == db
          && below.Linked())
    }

    /** The stack from this layer down, as a value. */
    ghost function Stack(): View
      requires Linked()
      reads layers, db
      decreases |layers|
    {
      Cache(if below == null then Disk(db.coins, db.best) else below.Stack(), cacheCoins, hashBlock)
    }

    /** No modification is in progress anywhere. */
    ghost predicate Quiet()
      requires Linked()
      reads layers
    {
      forall c | c in layers :: !c.hasModifier
    }

    constructor OverDb(db: CoinsDb)
      ensures Linked() && Quiet() && fresh(layers) && this.db == db
      ensures Stack() == Cache(Disk(db.coins, db.best), map[], 0)
    {
      this.db, below := db, null;
      cacheCoins, hashBlock, hasModifier := map[], 0, false;
      layers := {this};
    }

    constructor OverCache(base: CoinsCache)
      requires base.Linked() && base.Quiet()
      ensures Linked() && Quiet() && layers == base.layers + {this} && db == base.db
      ensures Stack() == Cache(old(base.Stack()), map[], 0)
    {
      db, below := base.db, base;
      cacheCoins, hashBlock, hasModifier := map[], 0, false;
      layers := base.layers + {this};
    }

    method GetCoins(t: Txid) returns (r: Option<Coins>)
      requires Linked()
      modifies layers`cacheCoins
      ensures (Stack(), r) == Fetch(old(Stack()), t)
      decreases |layers|
    {
      if t in cacheCoins {
        return Some(cacheCoins[t].coins);
      }
      if below == null {
        r := db.GetCoins(t);
      } else {
        r := below.GetCoins(t);
      }
      if r.Some? {
        cacheCoins := cacheCoins[t := Entry(r.value, false, IsPruned(r.value))];
      }
    }

    method HaveCoins(t: Txid) returns (b: bool)
      requires Linked() && Ok(Stack())
      modifies layers`cacheCoins
      ensures Ok(Stack()) && SameView(old(Stack()), Stack()) && b == !IsPruned(See(Stack(), t))
    {
      ghost var v := Stack();
      HaveCoinsExact(v, t);
      FetchKeeps(v, t);
      var r := GetCoins(t);
      b := r.Some? && r.value.vout != [];
    }

    method GetBestBlock() returns (h: BlockHash)
      requires Linked()
      modifies layers`hashBlock
      ensures (Stack(), h) == V.GetBestBlock(old(Stack()))
      decreases |layers|
    {
      if hashBlock == 0 {
        var base;
        if below == null {
          base := db.best;
        } else {
          base := below.GetBestBlock();
        }
        hashBlock := base;
      }
      h := hashBlock;
    }

    method SetBestBlock(h: BlockHash)
      requires Linked()
      modifies this`hashBlock
      ensures old(Stack()).Cache? && Stack() == old(Stack()).(hashBlock := h)
    {
      hashBlock := h;
    }

    /** Hand out the coins of a transaction for modification. */
    method ModifyCoins(t: Txid) returns (c: Coins)
      requires Linked() && Quiet()
      modifies layers`cacheCoins, this`hasModifier
      ensures Stack() == BeginModify(old(Stack()), t) && hasModifier
      ensures t in cacheCoins && c == cacheCoins[t].coins
      ensures forall l | l in layers && l != this :: l.hasModifier == old(l.hasModifier)
    {
      if t in cacheCoins {
        cacheCoins := cacheCoins[t := cacheCoins[t].(isDirty := true)];
      } else {
        var r;
        if below == null {
          r := db.GetCoins(t);
        } else {
          r := below.GetCoins(t);
        }
        if r.None? {
          cacheCoins := cacheCoins[t := Entry(NO_COINS, true, true)];
        } else {
          cacheCoins := cacheCoins[t := Entry(r.value, true, IsPruned(r.value))];
        }
      }
      hasModifier := true;
      c := cacheCoins[t].coins;
    }

    /** The end of a modification that left the coins `c`. */
    method ModifierDone(t: Txid, c: Coins)
      requires Linked() && hasModifier && t in cacheCoins
      modifies this`cacheCoins, this`hasModifier
      ensures Stack() == EndModify(old(Stack()), t, c) && !hasModifier
    {
      hasModifier := false;
      cacheCoins := cacheCoins[t := cacheCoins[t].(coins := Cleanup(c))];
      if cacheCoins[t].isFresh && IsPruned(cacheCoins[t].coins) {
        cacheCoins := cacheCoins - {t};
      }
    }

    /** The entries outside `todo` have been merged. */
    static ghost predicate PartlyMerged(before: map<Txid, Entry>, entries: map<Txid, Entry>, todo: set<Txid>,
        now: map<Txid, Entry>) {
      forall t ::
          Find(now, t) == if t in entries && t !in todo then Merge(Find(before, t), entries[t]) else Find(before, t)
    }

    /** Take over the entries of the cache above; the assertion about freshness is a precondition. */
    method BatchWrite(entries: map<Txid, Entry>, hash: BlockHash)
      requires Linked() && !hasModifier && FreshAsserted(Stack(), entries)
      modifies this`cacheCoins, this`hashBlock
      ensures Written(old(Stack()), entries, hash, Stack())
    {
      var todo := entries.Keys;
      while todo != {}
        invariant todo <= entries.Keys
        invariant PartlyMerged(old(cacheCoins), entries, todo, cacheCoins)
        decreases todo
      {
        var t :| t in todo;
        var e := entries[t];
        assert Find(cacheCoins, t) == Find(old(cacheCoins), t);
        if e.isDirty {
          if t !in cacheCoins {
            if !IsPruned(e.coins) {
              assert e.isFresh;
              cacheCoins := cacheCoins[t := Entry(e.coins, true, true)];
            }
          } else if cacheCoins[t].isFresh && IsPruned(e.coins) {
            cacheCoins := cacheCoins - {t};
          } else {
            cacheCoins := cacheCoins[t := Entry(e.coins, true, cacheCoins[t].isFresh)];
          }
        }
        todo := todo - {t};
      }
      hashBlock := hash;
    }

    /** Push every change to the view below and start afresh: the coin set shown does not change. */
    method Flush()
      requires Linked() && Quiet() && Ok(Stack())
      modifies layers`cacheCoins, layers`hashBlock, db
      ensures Ok(Stack()) && SameView(old(Stack()), Stack())
      ensures cacheCoins == map[] && hashBlock == old(hashBlock)
      ensures Written(old(Stack()).base, old(cacheCoins), hashBlock, Stack().base)
    {
      ghost var v := Stack();
      FreshNeverFails(v);
      if below == null {
        db.BatchWrite(cacheCoins, hashBlock);
      } else {
        below.BatchWrite(cacheCoins, hashBlock);
      }
      cacheCoins := map[];
      FlushKeeps(v, Stack().base);
    }
  }
}
