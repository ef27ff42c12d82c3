/**
 Connecting and disconnecting blocks through the cache objects.  A ghost argument names the plain coin
 set that the stack of caches represents; the contracts say which plain set it represents afterwards.
 */
module CoinConnect {
  import opened Wrappers
  import opened Coins
  import opened CoinView
  import opened CoinCache
  import opened CoinBlock
  import O = CoinOutputs

  /** The cache represents the coin set `m`, with no modification in progress. */
  ghost predicate Represents(view: CoinsCache, m: CoinSet)
    reads view, view.layers, view.db
  {
    view.Linked() && view.Quiet() && Ok(view.Stack()) && Refines(view.Stack(), m)
  }

  /** The best block that a cache shows: the lowest layer that knows one has it, or else the database. */
  ghost function ShownBest(view: CoinsCache): BlockHash
    requires view.Linked()
    reads view.layers`hashBlock, view.db`best
    decreases |view.layers|
  {
    if view.hashBlock != 0 then view.hashBlock else if view.below == null then view.db.best else ShownBest(view.below)
  }

  lemma {:induction false} ShownIsBest(view: CoinsCache)
    requires view.Linked()
    ensures ShownBest(view) == Best(view.Stack())
    decreases |view.layers|
  {
    if view.below != null {
      ShownIsBest(view.below);
    }
  }

  lemma RepresentsLinked(view: CoinsCache, m: CoinSet)
    requires Represents(view, m)
    ensures view.Linked() && view in view.layers
  {
  }

  lemma BestSet(view: CoinsCache)
    requires view.Linked() && view.hashBlock != 0
    ensures ShownBest(view) == view.hashBlock
  {
  }

  /** Ask the view for its best block, which it then remembers. */
  method AskBest(view: CoinsCache, ghost m: CoinSet) returns (h: BlockHash)
    requires Represents(view, m)
    modifies view.layers`hashBlock
    ensures Represents(view, m) && h == ShownBest(view) == old(ShownBest(view))
  {
    hide Ok;
    GetBestBlockKeeps(view.Stack());
    ShownIsBest(view);
    h := view.GetBestBlock();
    ShownIsBest(view);
  }

  /** Hand out coins: what the caller sees is what the set has, up to pruned coins. */
  method Begin(view: CoinsCache, t: Txid, ghost m: CoinSet) returns (found: Coins)
    requires Represents(view, m)
    modifies view.layers`cacheCoins, view`hasModifier
    ensures view.Linked() && view.hasModifier && (forall l | l in view.layers && l != view :: !l.hasModifier)
    ensures Ok(view.Stack()) && Refines(view.Stack(), m)
    ensures t in view.cacheCoins && view.cacheCoins[t].isDirty && Normal(found) == Get(m, t)
        && found.vout == Get(m, t).vout
  {
    hide Ok;
    BeginModifyKeeps(view.Stack(), t);
    found := view.ModifyCoins(t);
    EntryOutputs(view.Stack(), t);
  }

  lemma EntryOutputs(v: View, t: Txid)
    requires Ok(v) && v.Cache? && t in v.entries
    ensures Normal(v.entries[t].coins).vout == v.entries[t].coins.vout
  {
    assert EntryOk(v.base, t, v.entries[t]);
    CleanPruned(v.entries[t].coins);
  }

  /** Hand the coins back as `c`: the set changes at this key only. */
  method End(view: CoinsCache, t: Txid, c: Coins, ghost m: CoinSet)
    requires view.Linked() && view.hasModifier && (forall l | l in view.layers && l != view :: !l.hasModifier)
    requires Ok(view.Stack()) && Refines(view.Stack(), m) && t in view.cacheCoins && view.cacheCoins[t].isDirty
    modifies view`cacheCoins, view`hasModifier
    ensures Represents(view, Put(m, t, Cleanup(c)))
  {
    hide Ok;
    EndModifyPuts(view.Stack(), t, c);
    assert IsPruned(NO_COINS);
    view.ModifierDone(t, c);
  }

  lemma CleanupAgain(c: Coins)
    requires Clean(c)
    ensures Cleanup(c) == c
  {
  }

  lemma SpendFound(found: Coins, c: Coins, n: nat)
    requires Normal(found) == c
    ensures Spend(found, n) == Spend(c, n)
  {
  }

  /** Spend one output through the cache; a failure is the assertion that it can be spent. */
  method SpendOutput(view: CoinsCache, out: OutPoint, ghost m: CoinSet) returns (r: Option<Undo>)
    requires Represents(view, m)
    modifies view.layers`cacheCoins, view`hasModifier
    ensures var s := Spend(Get(m, out.hash), out.n);
      if s.None? then r.None? else r == Some(s.value.1) && Represents(view, Put(m, out.hash, s.value.0))
  {
    hide Represents, Ok, Refines, Spend;
    var found := Begin(view, out.hash, m);
    SpendFound(found, Get(m, out.hash), out.n);
    var s := Spend(found, out.n);
    if s.None? {
      return None;
    }
    SpentIsClean(found, out.n);
    CleanupAgain(s.value.0);
    End(view, out.hash, s.value.0, m);
    r := Some(s.value.1);
  }

  lemma SpentIsClean(c: Coins, n: nat)
    ensures Spend(c, n).Some? ==> Clean(Spend(c, n).value.0)
  {
  }

  /** UpdateCoins: mark the inputs spent, then add the outputs. */
  method UpdateCoinsOn(view: CoinsCache, tx: Tx, height: int, ghost m: CoinSet) returns (r: Option<seq<Undo>>)
    requires Represents(view, m)
    modifies view.layers`cacheCoins, view`hasModifier
    ensures var u := UpdateCoins(m, tx, height);
      if u.None? then r.None? else r == Some(u.value.undo) && Represents(view, u.value.coins)
  {
    hide Represents, Ok, Refines, Spend, FromTx, Put;
    var undo := [];
    ghost var p := m;
    if !tx.IsCoinBase() {
      var j := 0;
      assert tx.vin[..0] == [];
      while j < |tx.vin|
        invariant j <= |tx.vin| && Represents(view, p) && SpendInputs(m, tx.vin[..j]) == Some(Updated(p, undo))
      {
        assert tx.vin[..j + 1][..j] == tx.vin[..j];
        var u := SpendOutput(view, tx.vin[j], p);
        if u.None? {
          SpendInputsPrefix(m, tx.vin, j + 1);
          return None;
        }
        p := Put(p, tx.vin[j].hash, Spend(Get(p, tx.vin[j].hash), tx.vin[j].n).value.0);
        undo := undo + [u.value];
        j := j + 1;
      }
      assert tx.vin[..j] == tx.vin;
    }
    var found := Begin(view, tx.hash, p);
    FromTxIsClean(tx, height);
    CleanupAgain(FromTx(tx, height));
    End(view, tx.hash, FromTx(tx, height), p);
    r := Some(undo);
  }

  lemma FromTxIsClean(tx: Tx, height: int)
    ensures Clean(FromTx(tx, height))
  {
  }

  lemma {:induction false} SpendInputsPrefix(m: CoinSet, vin: seq<OutPoint>, j: nat)
    requires j <= |vin| && SpendInputs(m, vin[..j]).None?
    ensures SpendInputs(m, vin).None?
    decreases |vin|
  {
    if j == |vin| {
      assert vin[..j] == vin;
    } else {
      assert vin[..|vin| - 1][..j] == vin[..j];
      SpendInputsPrefix(m, vin[..|vin| - 1], j);
    }
  }

  /** The transaction loop of connecting a block: every transaction is applied and its undo data collected. */
  method ConnectOn(view: CoinsCache, txs: seq<Tx>, height: int, ghost m: CoinSet) returns (r: Option<seq<seq<Undo>>>)
    requires Represents(view, m)
    modifies view.layers`cacheCoins, view`hasModifier
    ensures var c := Connect(m, txs, height);
      if c.None? then r.None? else r == Some(c.value.undo) && Represents(view, c.value.coins)
  {
    hide Represents, UpdateCoins;
    var undo := [];
    ghost var p := m;
    var i := 0;
    assert txs[..0] == [];
    while i < |txs|
      invariant i <= |txs| && Represents(view, p) && Connect(m, txs[..i], height) == Some(Connected(p, undo))
    {
      assert txs[..i + 1][..i] == txs[..i];
      var u := UpdateCoinsOn(view, txs[i], height, p);
      if u.None? {
        ConnectPrefix(m, txs, height, i + 1);
        return None;
      }
      p := UpdateCoins(p, txs[i], height).value.coins;
      undo := undo + [u.value];
      i := i + 1;
    }
    assert txs[..i] == txs;
    r := Some(undo);
  }

  lemma {:induction false} ConnectPrefix(m: CoinSet, txs: seq<Tx>, height: int, i: nat)
    requires i <= |txs| && Connect(m, txs[..i], height).None?
    ensures Connect(m, txs, height).None?
    decreases |txs|
  {
    if i == |txs| {
      assert txs[..i] == txs;
    } else {
      assert txs[..|txs| - 1][..i] == txs[..i];
      ConnectPrefix(m, txs[..|txs| - 1], height, i);
    }
  }

  method SetBest(view: CoinsCache, h: BlockHash, ghost m: CoinSet)
    requires Represents(view, m)
    modifies view`hashBlock
    ensures Represents(view, m) && view.hashBlock == h
  {
    ghost var v := view.Stack();
    view.SetBestBlock(h);
  }

  lemma {:induction false} CoinbaseHasNoUndo(m: CoinSet, txs: seq<Tx>, height: int)
    requires txs != [] && txs[0].IsCoinBase() && Connect(m, txs, height).Some?
    ensures var u := Connect(m, txs, height).value.undo; |u| == |txs| && u[0] == []
    decreases |txs|
  {
    if |txs| > 1 {
      CoinbaseHasNoUndo(m, txs[..|txs| - 1], height);
    } else {
      assert Connect(m, txs[..0], height) == Some(Connected(m, []));
    }
  }

  /**
   ConnectBlock, after the checks and but for the first block of all: the view must show the previous block as its best
   one, which the source asserts, and shows this one afterwards.  Undo data is returned for every transaction but the
   coinbase.
   */
  method ConnectBlock(view: CoinsCache, txs: seq<Tx>, height: int, hash: BlockHash, prevHash: BlockHash,
      ghost m: CoinSet)
    returns (r: Option<seq<seq<Undo>>>)
    requires Represents(view, m) && ShownBest(view) == prevHash && hash != 0 && txs != [] && txs[0].IsCoinBase()
    modifies view.layers`cacheCoins, view.layers`hashBlock, view`hasModifier
    ensures r.Some? <==> Connect(m, txs, height).Some?
    ensures r.Some? ==>
        Represents(view, Connect(m, txs, height).value.coins) && [[]] + r.value == Connect(m, txs, height).value.undo
    ensures ShownBest(view) == if r.Some? then hash else prevHash
    ensures FreshBlock(m, txs, height) ==>
      && (r.Some? <==> O.InputsThere(m, txs, height))
      && (r.Some? ==>
          forall o :: O.Shown(Connect(m, txs, height).value.coins, o) == O.After(m, txs, height, o))
  {
    hide Represents, Connect, ShownBest, FreshBlock, O.InputsThere, O.After, O.Shown;
    RepresentsLinked(view, m);
    if FreshBlock(m, txs, height) {
      O.ConnectShown(m, txs, height);
    }
    var best := AskBest(view, m);
    assert prevHash == best;
    var c := ConnectOn(view, txs, height, m);
    if c.None? {
      return None;
    }
    CoinbaseHasNoUndo(m, txs, height);
    SetBest(view, hash, Connect(m, txs, height).value.coins);
    BestSet(view);
    r := Some(c.value[1..]);
  }

  // ----- disconnecting

  /** The same outputs everywhere; the metadata may differ. */
  ghost predicate SameOutputs(a: CoinSet, b: CoinSet) {
    a.Keys == b.Keys && forall t | t in a :: a[t].vout == b[t].vout
  }

  lemma RestoreFound(found: Coins, c: Coins, n: nat, u: Undo)
    requires Normal(found) == c
    ensures RestoresCleanly(found, n, u) <==> RestoresCleanly(c, n, u)
    ensures !Missing(c, u) ==> RestoredCoins(found, n, u) == RestoredCoins(c, n, u)
    ensures RestoresCleanly(c, n, u) ==> !Missing(c, u)
  {
    assert IsPruned(NO_COINS);
  }

  /** Putting back depends on the outputs found, and so does what it reports. */
  lemma RestoreSame(m: CoinSet, p: CoinSet, out: OutPoint, u: Undo)
    requires SameOutputs(m, p)
    ensures RestoreInput(m, out, u).clean == RestoreInput(p, out, u).clean
        && RestoreInput(m, out, u).intact == RestoreInput(p, out, u).intact
    ensures SameOutputs(RestoreInput(m, out, u).coins, RestoreInput(p, out, u).coins)
  {
  }

  lemma PutOutputs(m: CoinSet, t: Txid, c: Coins, d: Coins)
    requires c.vout == d.vout
    ensures SameOutputs(Put(m, t, Cleanup(c)), Put(m, t, Cleanup(d)))
  {
  }

  lemma SameTwice(a: CoinSet, b: CoinSet, c: CoinSet)
    requires SameOutputs(a, b) && SameOutputs(b, c)
    ensures SameOutputs(a, c)
  {
  }

  /**
   Put one spent output back; the results say whether the undo data fitted what was found, and whether that was missing.
   */
  method RestoreOutput(view: CoinsCache, out: OutPoint, u: Undo, ghost m: CoinSet)
      returns (clean: bool, ghost after: CoinSet)
    requires Represents(view, m)
    modifies view.layers`cacheCoins, view`hasModifier
    ensures Represents(view, after)
    ensures var r := RestoreInput(m, out, u);
      clean == r.clean && SameOutputs(after, r.coins) && (r.intact ==> after == r.coins) && (clean ==> r.intact)
  {
    hide Represents, Ok, Refines, Cleanup, Put, RestoredCoins, SameOutputs;
    var found := Begin(view, out.hash, m);
    ghost var c := Get(m, out.hash);
    RestoreFound(found, c, out.n, u);
    clean := true;
    var coins := found;
    if u.height != 0 {
      if !IsPruned(coins) {
        clean := false;
      }
      coins := Coins(u.coinBase, false, [], u.height, u.version);
    } else if IsPruned(coins) {
      clean := false;
    }
    if IsAvailable(coins, out.n) {
      clean := false;
    }
    RestoredIs(found, out.n, u, coins);
    coins := coins.(vout := PutBack(coins.vout, out.n, u.txout));
    End(view, out.hash, coins, m);
    after := Put(m, out.hash, Cleanup(coins));
    RestoredOutputs(found, c, out.n, u);
    PutOutputs(m, out.hash, RestoredCoins(found, out.n, u), RestoredCoins(c, out.n, u));
  }

  lemma RestoredIs(found: Coins, n: nat, u: Undo, c: Coins)
    requires c == if u.height != 0 then Coins(u.coinBase, false, [], u.height, u.version) else found
    ensures RestoredCoins(found, n, u) == c.(vout := PutBack(c.vout, n, u.txout))
  {
  }

  lemma RestoredOutputs(found: Coins, c: Coins, n: nat, u: Undo)
    requires found.vout == c.vout
    ensures RestoredCoins(found, n, u).vout == RestoredCoins(c, n, u).vout
  {
  }

  /** What the cache shows agrees with a restoration: in all outputs, and altogether while nothing was missing. */
  ghost predicate Agrees(r: Restored, clean: bool, after: CoinSet) {
    r.clean == clean && SameOutputs(after, r.coins) && (r.intact ==> after == r.coins) && (clean ==> r.intact)
  }

  /** The restoration of the inputs from place `j` on, one further. */
  lemma {:induction false} RestoreFirst(m: CoinSet, vin: seq<OutPoint>, undo: seq<Undo>)
    requires |vin| == |undo| > 0
    ensures var rest := RestoreInputs(m, vin[1..], undo[1..]); var r := RestoreInput(rest.coins, vin[0], undo[0]);
      RestoreInputs(m, vin, undo) == Restored(r.coins, rest.clean && r.clean, rest.intact && r.intact)
    decreases |vin|
  {
    hide RestoreInput;
    var last := |vin| - 1;
    if last == 0 {
      assert vin[..0] == [] && vin[1..] == [];
    } else {
      var s := RestoreInput(m, vin[last], undo[last]);
      RestoreFirst(s.coins, vin[..last], undo[..last]);
      assert vin[..last][1..] == vin[1..][..last - 1] && undo[..last][1..] == undo[1..][..last - 1];
    }
  }

  lemma RestoreAgrees(rest: Restored, after: CoinSet, clean: bool, out: OutPoint, u: Undo, one: Restored, ok: bool,
      now: CoinSet)
    requires Agrees(rest, clean, after) && one == RestoreInput(after, out, u) && Agrees(one, ok, now)
    ensures var r := RestoreInput(rest.coins, out, u);
        Agrees(Restored(r.coins, rest.clean && r.clean, rest.intact && r.intact), clean && ok, now)
  {
    hide RestoreInput, SameOutputs;
    RestoreSame(after, rest.coins, out, u);
    SameTwice(now, one.coins, RestoreInput(rest.coins, out, u).coins);
  }

  /** Restore the inputs of a transaction, last to first. */
  method RestoreInputsOn(view: CoinsCache, vin: seq<OutPoint>, undo: seq<Undo>, ghost m: CoinSet)
      returns (clean: bool, ghost after: CoinSet)
    requires Represents(view, m) && |vin| == |undo|
    modifies view.layers`cacheCoins, view`hasModifier
    ensures Represents(view, after) && Agrees(RestoreInputs(m, vin, undo), clean, after)
  {
    hide Represents, RestoreInput, SameOutputs;
    clean, after := true, m;
    var j := |vin|;
    SameSelf(m);
    assert vin[j..] == [] && undo[j..] == [];
    while j > 0
      invariant 0 <= j <= |vin| && Represents(view, after)
      invariant Agrees(RestoreInputs(m, vin[j..], undo[j..]), clean, after)
    {
      RestoreFirst(m, vin[j - 1..], undo[j - 1..]);
      assert vin[j - 1..][1..] == vin[j..] && undo[j - 1..][1..] == undo[j..];
      j := j - 1;
      ghost var before := after;
      var ok;
      ok, after := RestoreOutput(view, vin[j], undo[j], before);
      RestoreAgrees(RestoreInputs(m, vin[j + 1..], undo[j + 1..]), before, clean, vin[j], undo[j],
          RestoreInput(before, vin[j], undo[j]), ok, after);
      clean := clean && ok;
    }
    assert vin[0..] == vin && undo[0..] == undo;
  }

  lemma SameSelf(m: CoinSet)
    ensures SameOutputs(m, m)
  {
  }

  lemma OutputsFound(found: Coins, c: Coins, tx: Tx, height: int)
    requires Normal(found) == c
    ensures OutputsMatch(found, tx, height) <==> OutputsMatch(c, tx, height)
  {
    if IsPruned(found) {
      ClearedPruned(found.vout);
      ClearedPruned([]);
    }
  }

  lemma ClearedPruned(vout: seq<TxOut>)
    requires forall i | 0 <= i < |vout| :: vout[i].IsNull()
    ensures forall i | 0 <= i < |ClearUnspendable(vout)| :: ClearUnspendable(vout)[i].IsNull()
  {
  }

  /** Check and remove the outputs of a transaction. */
  method TakeOutputs(view: CoinsCache, tx: Tx, height: int, ghost m: CoinSet) returns (clean: bool)
    requires Represents(view, m)
    modifies view.layers`cacheCoins, view`hasModifier
    ensures Represents(view, m - {tx.hash}) && clean == OutputsMatch(Get(m, tx.hash), tx, height)
  {
    hide Represents, Ok, Refines, OutputsMatch;
    var found := Begin(view, tx.hash, m);
    OutputsFound(found, Get(m, tx.hash), tx, height);
    clean := OutputsMatch(found, tx, height);
    assert IsPruned(NO_COINS);
    CleanupAgain(NO_COINS);
    End(view, tx.hash, NO_COINS, m);
  }

  /**
   Undoing a transaction on two sets with the same outputs gives the same outputs, and the same report if the sets are
   equal.
   */
  lemma TxAgrees(rest: Restored, after: CoinSet, clean: bool, tx: Tx, undo: seq<Undo>, height: int, ok: bool,
      now: CoinSet)
    requires Agrees(rest, clean, after) && (!tx.IsCoinBase() ==> |undo| == |tx.vin|)
        && Agrees(DisconnectTx(after, tx, undo, height), ok, now)
    ensures var r := DisconnectTx(rest.coins, tx, undo, height);
        Agrees(Restored(r.coins, rest.clean && r.clean, rest.intact && r.intact), clean && ok, now)
  {
    hide OutputsMatch, RestoreInputs;
    if !tx.IsCoinBase() {
      InputsSame(after - {tx.hash}, rest.coins - {tx.hash}, tx.vin, undo);
    }
  }

  lemma {:induction false} InputsSame(m: CoinSet, p: CoinSet, vin: seq<OutPoint>, undo: seq<Undo>)
    requires SameOutputs(m, p) && |vin| == |undo|
    ensures RestoreInputs(m, vin, undo).clean == RestoreInputs(p, vin, undo).clean
        && RestoreInputs(m, vin, undo).intact == RestoreInputs(p, vin, undo).intact
    ensures SameOutputs(RestoreInputs(m, vin, undo).coins, RestoreInputs(p, vin, undo).coins)
    decreases |vin|
  {
    hide RestoreInput, SameOutputs;
    if vin != [] {
      var last := |vin| - 1;
      RestoreSame(m, p, vin[last], undo[last]);
      InputsSame(RestoreInput(m, vin[last], undo[last]).coins, RestoreInput(p, vin[last], undo[last]).coins,
          vin[..last], undo[..last]);
    }
  }

  lemma {:induction false} DisconnectFirst(m: CoinSet, txs: seq<Tx>, undo: seq<seq<Undo>>, height: int)
    requires txs != [] && UndoFits(txs, undo)
    ensures UndoFits(txs[1..], undo[1..])
    ensures var rest := Disconnect(m, txs[1..], undo[1..], height);
        var r := DisconnectTx(rest.coins, txs[0], undo[0], height);
      Disconnect(m, txs, undo, height) == Restored(r.coins, rest.clean && r.clean, rest.intact && r.intact)
    decreases |txs|
  {
    hide DisconnectTx;
    var last := |txs| - 1;
    if last == 0 {
      assert txs[..0] == [] && txs[1..] == [];
    } else {
      var s := DisconnectTx(m, txs[last], undo[last], height);
      DisconnectFirst(s.coins, txs[..last], undo[..last], height);
      assert txs[..last][1..] == txs[1..][..last - 1] && undo[..last][1..] == undo[1..][..last - 1];
    }
  }

  /**
   Undo data that does not fit is noticed at transaction `i`: the later ones have been undone by then, and its outputs
   removed.
   */
  ghost predicate StopsAt(m: CoinSet, txs: seq<Tx>, undo: seq<seq<Undo>>, height: int, i: nat, after: CoinSet) {
    && i < |txs| == |undo| && !txs[i].IsCoinBase() && |undo[i]| != |txs[i].vin| && UndoFits(txs[i + 1..], undo[i + 1..])
    && var r := Disconnect(m, txs[i + 1..], undo[i + 1..], height);
        SameOutputs(after, r.coins - {txs[i].hash}) && (r.intact ==> after == r.coins - {txs[i].hash})
  }

  /**
   DisconnectBlock: the view must show this block as its best one, which the source asserts.  Undo data is kept for
   every transaction but the first, which is the coinbase.  A mismatch in the number of records is an error; otherwise
   the block is undone last to first and the best block becomes the previous one.
   */
  method DisconnectBlock(view: CoinsCache, txs: seq<Tx>, vtxundo: seq<seq<Undo>>, height: int, hash: BlockHash,
      prevHash: BlockHash, ghost m: CoinSet)
    returns (ok: bool, clean: bool, ghost after: CoinSet)
    requires Represents(view, m) && ShownBest(view) == hash && prevHash != 0 && txs != [] && txs[0].IsCoinBase()
    modifies view.layers`cacheCoins, view.layers`hashBlock, view`hasModifier
    ensures Represents(view, after)
    ensures ok <==> UndoFits(txs, [[]] + vtxundo)
    ensures ShownBest(view) == if ok then prevHash else hash
    ensures ok ==> Agrees(Disconnect(m, txs, [[]] + vtxundo, height), clean, after)
    ensures !ok && |vtxundo| + 1 != |txs| ==> after == m
    ensures !ok && |vtxundo| + 1 == |txs| ==> exists i :: StopsAt(m, txs, [[]] + vtxundo, height, i, after)
  {
    hide Represents, DisconnectTx, SameOutputs, OutputsMatch, ShownBest, RestoreInputs, Disconnect;
    RepresentsLinked(view, m);
    ok, clean, after := false, false, m;
    var best := AskBest(view, m);
    assert hash == best;
    if |vtxundo| + 1 != |txs| {
      return;
    }
    ghost var undo := [[]] + vtxundo;
    clean := true;
    NothingUndone(m, height);
    var i := |txs|;
    assert txs[i..] == [] && undo[i..] == [];
    while i > 0
      invariant 0 <= i <= |txs| && Represents(view, after) && ShownBest(view) == hash
      invariant UndoFits(txs[i..], undo[i..]) && Agrees(Disconnect(m, txs[i..], undo[i..], height), clean, after)
    {
      i := i - 1;
      var tx := txs[i];
      var txundo := if i == 0 then [] else vtxundo[i - 1];
      ghost var rest, before := Disconnect(m, txs[i + 1..], undo[i + 1..], height), after;
      var good := TakeOutputs(view, tx, height, before);
      after := before - {tx.hash};
      if !tx.IsCoinBase() && |txundo| != |tx.vin| {
        clean := false;
        RemovedSame(before, rest.coins, tx.hash);
        assert StopsAt(m, txs, undo, height, i, after);
        assert !(!txs[i].IsCoinBase() ==> |undo[i]| == |txs[i].vin|);
        return;
      }
      if !tx.IsCoinBase() {
        var restored;
        restored, after := RestoreInputsOn(view, tx.vin, txundo, after);
        good := good && restored;
      }
      TxDone(before, tx, txundo, height, good, after);
      FitsMore(txs, undo, i);
      DisconnectFirst(m, txs[i..], undo[i..], height);
      assert txs[i..][1..] == txs[i + 1..] && undo[i..][1..] == undo[i + 1..];
      TxAgrees(rest, before, clean, tx, txundo, height, good, after);
      clean := clean && good;
    }
    assert txs[0..] == txs && undo[0..] == undo;
    SetBest(view, prevHash, after);
    BestSet(view);
    ok := true;
  }

  lemma NothingUndone(m: CoinSet, height: int)
    ensures UndoFits([], []) && Agrees(Disconnect(m, [], [], height), true, m)
  {
  }

  lemma RemovedSame(a: CoinSet, b: CoinSet, t: Txid)
    requires SameOutputs(a, b)
    ensures SameOutputs(a - {t}, b - {t})
  {
  }

  lemma FitsMore(txs: seq<Tx>, undo: seq<seq<Undo>>, i: nat)
    requires i < |txs| == |undo| && UndoFits(txs[i + 1..], undo[i + 1..])
        && (!txs[i].IsCoinBase() ==> |undo[i]| == |txs[i].vin|)
    ensures UndoFits(txs[i..], undo[i..])
  {
    forall k | 0 <= k < |txs[i..]| && !txs[i..][k].IsCoinBase() ensures |undo[i..][k]| == |txs[i..][k].vin| {
      if k > 0 {
        assert txs[i..][k] == txs[i + 1..][k - 1] && undo[i..][k] == undo[i + 1..][k - 1];
      }
    }
  }

  lemma TxDone(before: CoinSet, tx: Tx, undo: seq<Undo>, height: int, good: bool, after: CoinSet)
    requires !tx.IsCoinBase() ==> |undo| == |tx.vin|
    requires if tx.IsCoinBase() then after == before - {tx.hash}
        && good == OutputsMatch(Get(before, tx.hash), tx, height)
      else exists ok ::
          Agrees(RestoreInputs(before - {tx.hash}, tx.vin, undo), ok, after)
          && good == (OutputsMatch(Get(before, tx.hash), tx, height) && ok)
    ensures Agrees(DisconnectTx(before, tx, undo, height), good, after)
  {
    hide OutputsMatch, RestoreInputs;
  }

  /**
   Through any stack of caches that shows the previous block as its best one: connecting a block and disconnecting it
   again brings back the best block shown, and it brings back the coin set and reports clean exactly when the block
   empties no coinstake transaction and none of height 0.
   */
  method ConnectAndDisconnect(view: CoinsCache, txs: seq<Tx>, height: int, hash: BlockHash, prevHash: BlockHash,
      ghost m: CoinSet)
    returns (connected: bool, clean: bool, ghost after: CoinSet)
    requires Represents(view, m) && ShownBest(view) == prevHash && hash != 0 && prevHash != 0
    requires WellFormed(m) && FreshBlock(m, txs, height) && txs != [] && txs[0].IsCoinBase()
    modifies view.layers`cacheCoins, view.layers`hashBlock, view`hasModifier
    ensures connected <==> Connect(m, txs, height).Some?
    ensures ShownBest(view) == old(ShownBest(view))
    ensures connected ==> Represents(view, after)
    ensures connected ==> (clean && after == m <==> AnchoredBlock(m, txs, height) && KeepsStakesBlock(m, txs, height))
  {
    hide Represents, WellFormed, FreshBlock, Connect, Disconnect, AnchoredBlock, KeepsStakesBlock;
    clean, after := false, m;
    var r := ConnectBlock(view, txs, height, hash, prevHash, m);
    connected := r.Some?;
    if !connected {
      return;
    }
    DisconnectRestores(m, txs, height);
    var ok;
    ok, clean, after := DisconnectBlock(view, txs, r.value, height, hash, prevHash,
        Connect(m, txs, height).value.coins);
  }
}
