/**
 Connecting the transactions of a block to the coin set and disconnecting them again, on the plain map
 that any stack of caches represents.
 */
module CoinBlock {
  import opened Wrappers
  import opened Coins
  import opened CoinView

  datatype Tx = Tx(hash: Txid, version: int, vin: seq<OutPoint>, vout: seq<TxOut>) {
    predicate IsCoinBase() { |vin| == 1 && IsNullPoint(vin[0]) }
    predicate IsCoinStake() { |vin| > 0 && !IsNullPoint(vin[0]) && |vout| >= 2 && vout[0].IsEmpty() }
  }

  function Spendable(o: TxOut): TxOut {
    if IsUnspendable(o.script) then NULL_OUT else o
  }

  /** Every output, or null in place of an unspendable one. */
  function EachSpendable(vout: seq<TxOut>): (r: seq<TxOut>)
    ensures |r| == |vout| && forall i | 0 <= i < |vout| :: r[i] == Spendable(vout[i])
  {
    seq(|vout|, i requires 0 <= i < |vout| => Spendable(vout[i]))
  }

  function ClearUnspendable(vout: seq<TxOut>): seq<TxOut> { Trim(EachSpendable(vout)) }

  function FromTx(tx: Tx, height: int): Coins {
    Coins(tx.IsCoinBase(), tx.IsCoinStake(), ClearUnspendable(tx.vout), height, tx.version)
  }

  // ----- connecting

  datatype Updated = Updated(coins: CoinSet, undo: seq<Undo>)

  /** Spend inputs one after the other; `None` is the failed assertion that each can be spent. */
  function SpendInputs(m: CoinSet, vin: seq<OutPoint>): Option<Updated> {
    if vin == [] then Some(Updated(m, [])) else
      var last := vin[|vin| - 1];
      match SpendInputs(m, vin[..|vin| - 1])
      case None => None
      case Some(p) =>
        match Spend(Get(p.coins, last.hash), last.n)
        case None => None
        case Some((c, u)) => Some(Updated(Put(p.coins, last.hash, c), p.undo + [u]))
  }

  function UpdateCoins(m: CoinSet, tx: Tx, height: int): Option<Updated> {
    match if tx.IsCoinBase() then Some(Updated(m, [])) else SpendInputs(m, tx.vin)
    case None => None
    case Some(p) => Some(p.(coins := Put(p.coins, tx.hash, FromTx(tx, height))))
  }

  datatype Connected = Connected(coins: CoinSet, undo: seq<seq<Undo>>)

  function Connect(m: CoinSet, txs: seq<Tx>, height: int): Option<Connected> {
    if txs == [] then Some(Connected(m, [])) else
      match Connect(m, txs[..|txs| - 1], height)
      case None => None
      case Some(p) =>
        match UpdateCoins(p.coins, txs[|txs| - 1], height)
        case None => None
        case Some(q) => Some(Connected(q.coins, p.undo + [q.undo]))
  }

  // ----- disconnecting

  /**
   `clean` says that the undo data fits what is found everywhere; `intact` only that no output is put back
   into a transaction that is missing, and so that every transaction's metadata is known.
   */
  datatype Restored = Restored(coins: CoinSet, clean: bool, intact: bool)

  /** The coins after one spent output was put back, given the coins found there. */
  function RestoredCoins(found: Coins, n: nat, u: Undo): Coins {
    var c := if u.height != 0 then Coins(u.coinBase, false, [], u.height, u.version) else found;
    c.(vout := PutBack(c.vout, n, u.txout))
  }

  predicate Missing(found: Coins, u: Undo) {
    u.height == 0 && IsPruned(found)
  }

  predicate RestoresCleanly(found: Coins, n: nat, u: Undo) {
    && (if u.height != 0 then IsPruned(found) else !IsPruned(found))
    && !IsAvailable(if u.height != 0 then NO_COINS else found, n)
  }

  function RestoreInput(m: CoinSet, out: OutPoint, u: Undo): Restored {
    var found := Get(m, out.hash);
    Restored(Put(m, out.hash, Cleanup(RestoredCoins(found, out.n, u))), RestoresCleanly(found, out.n, u),
        !Missing(found, u))
  }

  function RestoreInputs(m: CoinSet, vin: seq<OutPoint>, undo: seq<Undo>): Restored
    requires |vin| == |undo|
    decreases |vin|
  {
    if vin == [] then Restored(m, true, true) else
      var last := |vin| - 1;
      var r := RestoreInput(m, vin[last], undo[last]);
      var s := RestoreInputs(r.coins, vin[..last], undo[..last]);
      Restored(s.coins, r.clean && s.clean, r.intact && s.intact)
  }

  /** The coins a transaction left in the set agree with the transaction itself. */
  predicate OutputsMatch(found: Coins, tx: Tx, height: int) {
    var outs := found.(vout := ClearUnspendable(found.vout), version := if tx.version < 0 then tx.version else
        found.version);
    SameCoins(outs, FromTx(tx, height))
  }

  function DisconnectTx(m: CoinSet, tx: Tx, undo: seq<Undo>, height: int): Restored
    requires !tx.IsCoinBase() ==> |undo| == |tx.vin|
  {
    var clean := OutputsMatch(Get(m, tx.hash), tx, height);
    var m1 := m - {tx.hash};
    if tx.IsCoinBase() then Restored(m1, clean, true) else
      var r := RestoreInputs(m1, tx.vin, undo);
      Restored(r.coins, clean && r.clean, r.intact)
  }

  predicate UndoFits(txs: seq<Tx>, undo: seq<seq<Undo>>) {
    |undo| == |txs| && forall i | 0 <= i < |txs| :: !txs[i].IsCoinBase() ==> |undo[i]| == |txs[i].vin|
  }

  /** Transactions are undone last to first. */
  function Disconnect(m: CoinSet, txs: seq<Tx>, undo: seq<seq<Undo>>, height: int): Restored
    requires UndoFits(txs, undo)
    decreases |txs|
  {
    if txs == [] then Restored(m, true, true) else
      var last := |txs| - 1;
      var r := DisconnectTx(m, txs[last], undo[last], height);
      var s := Disconnect(r.coins, txs[..last], undo[..last], height);
      Restored(s.coins, r.clean && s.clean, r.intact && s.intact)
  }

  // ----- the coin sets and blocks that occur

  ghost predicate WellFormed(m: CoinSet) {
    forall t | t in m :: Clean(m[t]) && Proper(m[t].vout) && !IsPruned(m[t])
  }

  /** Outputs of a valid transaction have no negative value, so none is null. */
  predicate OutputsOk(tx: Tx) {
    forall i | 0 <= i < |tx.vout| :: tx.vout[i].value >= 0
  }

  lemma ClearedProper(vout: seq<TxOut>)
    requires forall i | 0 <= i < |vout| :: vout[i].value >= 0
    ensures Trimmed(ClearUnspendable(vout)) && Proper(ClearUnspendable(vout))
    ensures forall i | 0 <= i < |ClearUnspendable(vout)| ::
        i < |vout| && ClearUnspendable(vout)[i] == Spendable(vout[i])
  {
  }

  /** Clearing twice is clearing once. */
  lemma ClearedAgain(vout: seq<TxOut>)
    requires forall i | 0 <= i < |vout| :: vout[i].value >= 0
    ensures ClearUnspendable(ClearUnspendable(vout)) == ClearUnspendable(vout)
  {
    ClearedProper(vout);
    var v := ClearUnspendable(vout);
    assert EachSpendable(v) == v;
  }

  // ----- what disconnecting restores, exactly

  /** Map `x` is `m` with the coinstake flag of the transactions in `lost` cleared. */
  ghost predicate Unstaked(m: CoinSet, lost: set<Txid>, x: CoinSet) {
    x.Keys == m.Keys && forall t | t in m :: x[t] == if t in lost then m[t].(coinStake := false) else m[t]
  }

  /** Spending this output leaves the transaction without outputs. */
  predicate Empties(m: CoinSet, out: OutPoint) {
    IsAvailable(Get(m, out.hash), out.n) && Spent(Get(m, out.hash), out.n).vout == []
  }

  lemma SpendStep(p: CoinSet, out: OutPoint, q: CoinSet, u: Undo)
    requires WellFormed(p) && Spend(Get(p, out.hash), out.n).Some?
    requires var s := Spend(Get(p, out.hash), out.n).value; q == Put(p, out.hash, s.0) && u == s.1
    ensures WellFormed(q) && out.hash in p
    ensures Empties(p, out) <==> out.hash !in q
    ensures forall t | t != out.hash :: (t in q <==> t in p) && (t in p ==> q[t] == p[t])
    ensures out.hash in q ==> q[out.hash] == p[out.hash].(vout := q[out.hash].vout)
  {
    var c := p[out.hash];
    SpentEmpty(c, out.n);
  }

  /** Undoing one spend of coins that still had outputs: `stake` says whether the coinstake flag is still right. */
  lemma RestorePartial(c: Coins, n: nat, found: Coins, u: Undo)
    requires Clean(c) && Proper(c.vout) && Spend(c, n).Some? && u == Spend(c, n).value.1
    requires Spent(c, n).vout != [] && found == Spent(c, n).(coinStake := found.coinStake)
    ensures RestoresCleanly(found, n, u) && Cleanup(RestoredCoins(found, n, u)) == c.(coinStake := found.coinStake)
  {
    SpentEmpty(c, n);
    PutBackUndoes(c, n);
  }

  /**
   Undoing the spend of the last output: the metadata comes from the undo record, which keeps no usable coinstake flag.
   */
  lemma RestoreEmptied(c: Coins, n: nat, u: Undo)
    requires Clean(c) && Proper(c.vout) && Spend(c, n).Some? && u == Spend(c, n).value.1
    requires Spent(c, n).vout == []
    ensures RestoresCleanly(NO_COINS, n, u) <==> c.height != 0
    ensures c.height != 0 ==> Cleanup(RestoredCoins(NO_COINS, n, u)) == c.(coinStake := false)
  {
    PutBackUndoes(c, n);
    assert IsPruned(NO_COINS);
  }

  /** Undoing one spend: everything comes back but the coinstake flag of a transaction that had been emptied. */
  lemma RestoreStep(p: CoinSet, out: OutPoint, q: CoinSet, u: Undo, lost: set<Txid>, x: CoinSet)
    requires WellFormed(p) && Spend(Get(p, out.hash), out.n).Some?
    requires var s := Spend(Get(p, out.hash), out.n).value; q == Put(p, out.hash, s.0) && u == s.1
    requires Unstaked(q, lost, x)
    ensures out.hash in p
    ensures Empties(p, out) && p[out.hash].height == 0 ==> !RestoreInput(x, out, u).clean
    ensures !(Empties(p, out) && p[out.hash].height == 0) ==>
      RestoreInput(x, out, u).clean && RestoreInput(x, out, u).intact
          && Unstaked(p, lost + (if Empties(p, out) then {out.hash} else {}), RestoreInput(x, out, u).coins)
  {
    hide Spend, Spent, RestoresCleanly, RestoredCoins, IsPruned, Empties, Unstaked, WellFormed, Cleanup;
    SpendStep(p, out, q, u);
    SpendFacts(p, out, q, u);
    UnstakedAt(q, lost, x, out.hash);
    var c, found := p[out.hash], Get(x, out.hash);
    CleanIsIntact(found, out.n, u);
    CleanIsIntact(NO_COINS, out.n, u);
    if Empties(p, out) {
      RestoreEmptied(c, out.n, u);
      StillThere(c, false);
      UnstakedPut(p, q, lost, x, out.hash, false, lost + {out.hash});
    } else {
      RestorePartial(c, out.n, found, u);
      StillThere(c, found.coinStake);
      assert lost + {} == lost;
      UnstakedPut(p, q, lost, x, out.hash, found.coinStake, lost);
    }
  }

  lemma CleanIsIntact(found: Coins, n: nat, u: Undo)
    ensures RestoresCleanly(found, n, u) ==> !Missing(found, u)
  {
  }

  lemma UnstakedAt(m: CoinSet, lost: set<Txid>, x: CoinSet, t: Txid)
    requires Unstaked(m, lost, x)
    ensures t in x <==> t in m
    ensures t in m ==> x[t] == if t in lost then m[t].(coinStake := false) else m[t]
  {
  }

  lemma UnstakedPut(p: CoinSet, q: CoinSet, lost: set<Txid>, x: CoinSet, t: Txid, stake: bool, lost': set<Txid>)
    requires Unstaked(q, lost, x) && t in p && (forall k | k != t :: (k in q <==> k in p) && (k in p ==> q[k] == p[k]))
    requires lost <= lost' <= lost + {t} && (if t in lost' then stake == false else stake == p[t].coinStake)
    ensures Unstaked(p, lost', x[t := p[t].(coinStake := stake)])
  {
  }

  lemma SpendFacts(p: CoinSet, out: OutPoint, q: CoinSet, u: Undo)
    requires WellFormed(p) && Spend(Get(p, out.hash), out.n).Some?
    requires var s := Spend(Get(p, out.hash), out.n).value; q == Put(p, out.hash, s.0) && u == s.1
    ensures out.hash in p
    ensures var c := p[out.hash];
      && Clean(c) && Proper(c.vout) && !IsPruned(c) && out.n < |c.vout|
      && (Empties(p, out) <==> Spent(c, out.n).vout == [])
      && (out.hash in q ==> q[out.hash] == Spent(c, out.n))
  {
    SpentEmpty(p[out.hash], out.n);
  }

  lemma StillThere(c: Coins, stake: bool)
    requires !IsPruned(c)
    ensures !IsPruned(c.(coinStake := stake))
  {
  }

  // ----- all inputs of a transaction

  /** The coin set before the last input is spent. */
  function BeforeLast(m: CoinSet, vin: seq<OutPoint>): CoinSet
    requires vin != [] && SpendInputs(m, vin).Some?
  {
    SpendInputs(m, vin[..|vin| - 1]).value.coins
  }

  /** The transactions that these inputs leave without outputs. */
  function Emptied(m: CoinSet, vin: seq<OutPoint>): set<Txid>
    requires SpendInputs(m, vin).Some?
  {
    if vin == [] then {} else
      var last := vin[|vin| - 1];
      Emptied(m, vin[..|vin| - 1]) + if Empties(BeforeLast(m, vin), last) then {last.hash} else {}
  }

  /**
   Every transaction that is emptied was confirmed at a height other than 0, which the undo records use as a marker.
   */
  predicate Anchored(m: CoinSet, vin: seq<OutPoint>)
    requires SpendInputs(m, vin).Some?
  {
    vin == [] ||
    var last := vin[|vin| - 1];
    && Anchored(m, vin[..|vin| - 1])
    && (Empties(BeforeLast(m, vin), last) ==> Get(BeforeLast(m, vin), last.hash).height != 0)
  }

  /** No transaction that is emptied is a coinstake. */
  predicate KeepsStakes(m: CoinSet, vin: seq<OutPoint>)
    requires SpendInputs(m, vin).Some?
  {
    vin == [] ||
    var last := vin[|vin| - 1];
    && KeepsStakes(m, vin[..|vin| - 1])
    && (Empties(BeforeLast(m, vin), last) ==> !Get(BeforeLast(m, vin), last.hash).coinStake)
  }

  lemma LastInput(m: CoinSet, vin: seq<OutPoint>)
    requires vin != [] && SpendInputs(m, vin).Some?
    ensures SpendInputs(m, vin[..|vin| - 1]).Some?
    ensures var p, last, r := SpendInputs(m, vin[..|vin| - 1]).value, vin[|vin| - 1], SpendInputs(m, vin).value;
      && Spend(Get(p.coins, last.hash), last.n).Some?
      && var s := Spend(Get(p.coins, last.hash), last.n).value;
          r.coins == Put(p.coins, last.hash, s.0) && r.undo == p.undo + [s.1]
  {
  }

  /** Spending inputs removes the emptied transactions and leaves the flags of the others alone. */
  lemma {:induction false} SpendInputsEffect(m: CoinSet, vin: seq<OutPoint>)
    requires WellFormed(m) && SpendInputs(m, vin).Some?
    ensures var r := SpendInputs(m, vin).value;
      && WellFormed(r.coins) && |r.undo| == |vin|
      && Emptied(m, vin) <= m.Keys && r.coins.Keys == m.Keys - Emptied(m, vin)
      && (forall t | t in r.coins :: r.coins[t].coinStake == m[t].coinStake)
      && (KeepsStakes(m, vin) <==> forall t | t in Emptied(m, vin) :: !m[t].coinStake)
    decreases |vin|
  {
    hide WellFormed, Spend, Empties;
    if vin != [] {
      LastInput(m, vin);
      var front, last := vin[..|vin| - 1], vin[|vin| - 1];
      SpendInputsEffect(m, front);
      var p, r := SpendInputs(m, front).value, SpendInputs(m, vin).value;
      SpendStep(p.coins, last, r.coins, r.undo[|vin| - 1]);
    }
  }

  /** Restoring inputs last to first gives back the set before them, or reports an unanchored one. */
  lemma {:induction false} RestoreInputsExact(m: CoinSet, vin: seq<OutPoint>, lost: set<Txid>, x: CoinSet)
    requires WellFormed(m) && SpendInputs(m, vin).Some? && |SpendInputs(m, vin).value.undo| == |vin|
    requires Unstaked(SpendInputs(m, vin).value.coins, lost, x)
    ensures var r := RestoreInputs(x, vin, SpendInputs(m, vin).value.undo);
      if Anchored(m, vin) then r.clean && r.intact && Unstaked(m, lost + Emptied(m, vin), r.coins) else !r.clean
    decreases |vin|
  {
    hide WellFormed, Spend, Empties, Unstaked, RestoreInput;
    if vin == [] {
      assert lost + {} == lost;
    } else {
      LastInput(m, vin);
      var front, last := vin[..|vin| - 1], vin[|vin| - 1];
      SpendInputsEffect(m, front);
      var p, r := SpendInputs(m, front).value, SpendInputs(m, vin).value;
      var u := r.undo[|vin| - 1];
      assert r.undo[..|vin| - 1] == p.undo;
      RestoreStep(p.coins, last, r.coins, u, lost, x);
      var e := if Empties(p.coins, last) then {last.hash} else {};
      if !(Empties(p.coins, last) && p.coins[last.hash].height == 0) {
        RestoreInputsExact(m, front, lost + e, RestoreInput(x, last, u).coins);
        assert lost + e + Emptied(m, front) == lost + Emptied(m, vin);
      }
    }
  }

  // ----- one transaction

  predicate SpendsOk(m: CoinSet, tx: Tx) {
    tx.IsCoinBase() || SpendInputs(m, tx.vin).Some?
  }

  function EmptiedBy(m: CoinSet, tx: Tx): set<Txid>
    requires SpendsOk(m, tx)
  {
    if tx.IsCoinBase() then {} else Emptied(m, tx.vin)
  }

  predicate AnchoredTx(m: CoinSet, tx: Tx)
    requires SpendsOk(m, tx)
  {
    tx.IsCoinBase() || Anchored(m, tx.vin)
  }

  predicate KeepsStakesTx(m: CoinSet, tx: Tx)
    requires SpendsOk(m, tx)
  {
    tx.IsCoinBase() || KeepsStakes(m, tx.vin)
  }

  /** The coinstake flag that comes back wrong is noticed when the transaction itself is undone. */
  predicate FlagNoticed(m: CoinSet, tx: Tx, lost: set<Txid>) {
    tx.hash in lost && tx.hash in m && m[tx.hash].coinStake
  }

  lemma UpdateCoinsEffect(m: CoinSet, tx: Tx, height: int)
    requires WellFormed(m) && OutputsOk(tx) && tx.hash !in m && UpdateCoins(m, tx, height).Some?
    ensures SpendsOk(m, tx) && EmptiedBy(m, tx) <= m.Keys
    ensures var q := UpdateCoins(m, tx, height).value.coins;
      && WellFormed(q) && (!tx.IsCoinBase() ==> |UpdateCoins(m, tx, height).value.undo| == |tx.vin|)
      && q.Keys - {tx.hash} == m.Keys - EmptiedBy(m, tx)
      && (forall t | t in q && t != tx.hash :: t in m && q[t].coinStake == m[t].coinStake)
      && (tx.hash in q ==> q[tx.hash] == FromTx(tx, height))
      && (KeepsStakesTx(m, tx) <==> forall t | t in EmptiedBy(m, tx) :: !m[t].coinStake)
  {
    ClearedProper(tx.vout);
    if !tx.IsCoinBase() {
      SpendInputsEffect(m, tx.vin);
    }
  }

  /** The outputs found when a transaction is undone match it unless its coinstake flag was lost. */
  lemma OutputsMatchExact(tx: Tx, height: int, q: CoinSet, lost: set<Txid>, x: CoinSet)
    requires OutputsOk(tx) && Unstaked(q, lost, x)
    requires if IsPruned(FromTx(tx, height)) then tx.hash !in q else tx.hash in q && q[tx.hash] == FromTx(tx, height)
    ensures OutputsMatch(Get(x, tx.hash), tx, height) <==> !FlagNoticed(q, tx, lost)
  {
    ClearedAgain(tx.vout);
    assert ClearUnspendable([]) == [];
    assert IsPruned(NO_COINS);
    UnstakedAt(q, lost, x, tx.hash);
    var c := FromTx(tx, height);
    if tx.hash in q {
      StillThere(c, false);
      assert x[tx.hash].vout == c.vout;
    }
  }

  lemma UnstakedWithout(m1: CoinSet, tx: Tx, c: Coins, lost: set<Txid>, x: CoinSet)
    requires tx.hash !in m1 && Unstaked(Put(m1, tx.hash, c), lost, x)
    ensures Unstaked(m1, lost - {tx.hash}, x - {tx.hash})
  {
  }

  /** Undoing a transaction just after it was applied, on a set that may have lost coinstake flags already. */
  lemma DisconnectTxExact(m: CoinSet, tx: Tx, height: int, lost: set<Txid>, x: CoinSet)
    requires WellFormed(m) && OutputsOk(tx) && tx.hash !in m && UpdateCoins(m, tx, height).Some?
    requires Unstaked(UpdateCoins(m, tx, height).value.coins, lost, x)
    ensures SpendsOk(m, tx) && (!tx.IsCoinBase() ==> |UpdateCoins(m, tx, height).value.undo| == |tx.vin|)
    ensures var q, r := UpdateCoins(m, tx, height).value,
        DisconnectTx(x, tx, UpdateCoins(m, tx, height).value.undo, height);
      if AnchoredTx(m, tx)
      then (r.clean <==> !FlagNoticed(q.coins, tx, lost)) && r.intact
          && Unstaked(m, lost - {tx.hash} + EmptiedBy(m, tx), r.coins)
      else !r.clean
  {
    hide WellFormed, IsPruned, Unstaked, FromTx, OutputsMatch, FlagNoticed, Spend, SpendInputs, RestoreInputs, Anchored,
        Emptied, KeepsStakes;
    UpdateCoinsEffect(m, tx, height);
    var q := UpdateCoins(m, tx, height).value;
    OutputsMatchExact(tx, height, q.coins, lost, x);
    if tx.IsCoinBase() {
      UnstakedWithout(m, tx, FromTx(tx, height), lost, x);
      assert lost - {tx.hash} + {} == lost - {tx.hash};
    } else {
      var p := SpendInputs(m, tx.vin).value;
      SpendInputsEffect(m, tx.vin);
      UnstakedWithout(p.coins, tx, FromTx(tx, height), lost, x);
      RestoreInputsExact(m, tx.vin, lost - {tx.hash}, x - {tx.hash});
    }
  }

  // ----- a block

  /** Each transaction of the block is well formed and its identifier is not in the set when it is applied. */
  ghost predicate FreshBlock(m: CoinSet, txs: seq<Tx>, height: int) {
    txs == [] ||
    var front := txs[..|txs| - 1];
    var last := txs[|txs| - 1];
    FreshBlock(m, front, height) && OutputsOk(last) && (Connect(m, front, height).Some? ==>
        last.hash !in Connect(m, front, height).value.coins)
  }

  lemma LastTx(m: CoinSet, txs: seq<Tx>, height: int)
    requires txs != [] && Connect(m, txs, height).Some?
    ensures Connect(m, txs[..|txs| - 1], height).Some?
    ensures var p, last, r := Connect(m, txs[..|txs| - 1], height).value, txs[|txs| - 1], Connect(m, txs, height).value;
      && UpdateCoins(p.coins, last, height).Some? && SpendsOk(p.coins, last)
      && var q := UpdateCoins(p.coins, last, height).value; r.coins == q.coins && r.undo == p.undo + [q.undo]
  {
  }

  lemma {:induction false} ConnectKeeps(m: CoinSet, txs: seq<Tx>, height: int)
    requires WellFormed(m) && FreshBlock(m, txs, height) && Connect(m, txs, height).Some?
    ensures WellFormed(Connect(m, txs, height).value.coins) && UndoFits(txs, Connect(m, txs, height).value.undo)
    decreases |txs|
  {
    hide WellFormed, UpdateCoins;
    if txs != [] {
      LastTx(m, txs, height);
      var front := txs[..|txs| - 1];
      ConnectKeeps(m, front, height);
      UpdateCoinsEffect(Connect(m, front, height).value.coins, txs[|txs| - 1], height);
      var p, r := Connect(m, front, height).value.undo, Connect(m, txs, height).value.undo;
      assert forall i | 0 <= i < |front| :: front[i] == txs[i] && r[i] == p[i];
    }
  }

  predicate AnchoredBlock(m: CoinSet, txs: seq<Tx>, height: int)
    requires Connect(m, txs, height).Some?
  {
    txs == [] ||
    (LastTx(m, txs, height);
    AnchoredBlock(m, txs[..|txs| - 1], height) && AnchoredTx(Connect(m, txs[..|txs| - 1], height).value.coins,
        txs[|txs| - 1]))
  }

  /** The block fully spends no coinstake transaction. */
  predicate KeepsStakesBlock(m: CoinSet, txs: seq<Tx>, height: int)
    requires Connect(m, txs, height).Some?
  {
    txs == [] ||
    (LastTx(m, txs, height);
    KeepsStakesBlock(m, txs[..|txs| - 1], height) && KeepsStakesTx(Connect(m, txs[..|txs| - 1], height).value.coins,
        txs[|txs| - 1]))
  }

  /** The transactions whose coinstake flag is cleared once the block is undone. */
  function Lost(m: CoinSet, txs: seq<Tx>, height: int, lost: set<Txid>): set<Txid>
    requires Connect(m, txs, height).Some?
    decreases |txs|
  {
    if txs == [] then lost else
      LastTx(m, txs, height);
      var front, last := txs[..|txs| - 1], txs[|txs| - 1];
      Lost(m, front, height, lost - {last.hash} + EmptiedBy(Connect(m, front, height).value.coins, last))
  }

  predicate Unnoticed(m: CoinSet, txs: seq<Tx>, height: int, lost: set<Txid>)
    requires Connect(m, txs, height).Some?
    decreases |txs|
  {
    txs == [] ||
    (LastTx(m, txs, height);
    var front, last := txs[..|txs| - 1], txs[|txs| - 1];
    && !FlagNoticed(Connect(m, txs, height).value.coins, last, lost)
    && Unnoticed(m, front, height, lost - {last.hash} + EmptiedBy(Connect(m, front, height).value.coins, last)))
  }

  lemma {:induction false} DisconnectExact(m: CoinSet, txs: seq<Tx>, height: int, lost: set<Txid>, x: CoinSet)
    requires WellFormed(m) && FreshBlock(m, txs, height) && Connect(m, txs, height).Some?
    requires Unstaked(Connect(m, txs, height).value.coins, lost, x)
    ensures UndoFits(txs, Connect(m, txs, height).value.undo)
    ensures var r := Disconnect(x, txs, Connect(m, txs, height).value.undo, height);
      if AnchoredBlock(m, txs, height)
      then (r.clean <==> Unnoticed(m, txs, height, lost)) && r.intact
          && Unstaked(m, Lost(m, txs, height, lost), r.coins)
      else !r.clean
    decreases |txs|
  {
    hide WellFormed, Unstaked, UpdateCoins, DisconnectTx, AnchoredTx, EmptiedBy, FlagNoticed, SpendsOk;
    ConnectKeeps(m, txs, height);
    if txs != [] {
      LastTx(m, txs, height);
      var front, last := txs[..|txs| - 1], txs[|txs| - 1];
      ConnectKeeps(m, front, height);
      var p, r := Connect(m, front, height).value, Connect(m, txs, height).value;
      DisconnectTxExact(p.coins, last, height, lost, x);
      assert r.undo[..|front|] == p.undo && r.undo[|front|] == UpdateCoins(p.coins, last, height).value.undo;
      var d := DisconnectTx(x, last, r.undo[|front|], height);
      if AnchoredTx(p.coins, last) {
        DisconnectExact(m, front, height, lost - {last.hash} + EmptiedBy(p.coins, last), d.coins);
      }
    }
  }

  /** Clearing the flags of `lost` makes a visible difference to the set. */
  ghost predicate ShowsLoss(m: CoinSet, lost: set<Txid>) {
    exists t :: t in lost && t in m && m[t].coinStake
  }

  lemma UnstakedEqual(m: CoinSet, lost: set<Txid>, x: CoinSet)
    requires Unstaked(m, lost, x)
    ensures x == m <==> !ShowsLoss(m, lost)
  {
    if !ShowsLoss(m, lost) {
      assert forall t | t in m :: x[t] == m[t];
    } else {
      var t :| t in lost && t in m && m[t].coinStake;
      assert x[t] != m[t];
    }
  }

  lemma StakeTraceTx(p: CoinSet, tx: Tx, height: int, lost: set<Txid>)
    requires WellFormed(p) && OutputsOk(tx) && tx.hash !in p && UpdateCoins(p, tx, height).Some?
    ensures SpendsOk(p, tx)
    ensures var q := UpdateCoins(p, tx, height).value.coins;
      (!FlagNoticed(q, tx, lost) && !ShowsLoss(p, lost - {tx.hash} + EmptiedBy(p, tx))) <==>
          (KeepsStakesTx(p, tx) && !ShowsLoss(q, lost))
  {
    hide WellFormed, UpdateCoins, OutputsOk, KeepsStakesTx, SpendsOk, EmptiedBy;
    UpdateCoinsEffect(p, tx, height);
    var q, after := UpdateCoins(p, tx, height).value.coins, lost - {tx.hash} + EmptiedBy(p, tx);
    if ShowsLoss(q, lost) && !FlagNoticed(q, tx, lost) {
      var t :| t in lost && t in q && q[t].coinStake;
      assert t in after && t in p && p[t].coinStake;
    }
    if ShowsLoss(p, after) && KeepsStakesTx(p, tx) {
      var t :| t in after && t in p && p[t].coinStake;
      assert t in q.Keys - {tx.hash};
      assert t in lost && t in q && q[t].coinStake;
    }
    if !KeepsStakesTx(p, tx) {
      var t :| t in EmptiedBy(p, tx) && p[t].coinStake;
      assert t in after && t in p;
    }
  }

  lemma {:induction false} StakeTrace(m: CoinSet, txs: seq<Tx>, height: int, lost: set<Txid>)
    requires WellFormed(m) && FreshBlock(m, txs, height) && Connect(m, txs, height).Some?
    ensures (Unnoticed(m, txs, height, lost) && !ShowsLoss(m, Lost(m, txs, height, lost))) <==>
      (KeepsStakesBlock(m, txs, height) && !ShowsLoss(Connect(m, txs, height).value.coins, lost))
    decreases |txs|
  {
    hide WellFormed, UpdateCoins, OutputsOk, ShowsLoss, FlagNoticed, KeepsStakesTx, EmptiedBy, SpendsOk;
    if txs != [] {
      LastTx(m, txs, height);
      var front, last := txs[..|txs| - 1], txs[|txs| - 1];
      var p := Connect(m, front, height).value.coins;
      ConnectKeeps(m, front, height);
      StakeTraceTx(p, last, height, lost);
      StakeTrace(m, front, height, lost - {last.hash} + EmptiedBy(p, last));
    }
  }

  /**
   Disconnecting a block just after connecting it restores the coin set and reports clean exactly when
   the block fully spends no coinstake transaction and no transaction confirmed at height 0.
   */
  lemma DisconnectRestores(m: CoinSet, txs: seq<Tx>, height: int)
    requires WellFormed(m) && FreshBlock(m, txs, height) && Connect(m, txs, height).Some?
    ensures UndoFits(txs, Connect(m, txs, height).value.undo)
    ensures var c := Connect(m, txs, height).value; var r := Disconnect(c.coins, txs, c.undo, height);
      (r.clean && r.coins == m) <==> AnchoredBlock(m, txs, height) && KeepsStakesBlock(m, txs, height)
  {
    hide WellFormed, FreshBlock, Connect, Disconnect, ShowsLoss, Lost, Unnoticed, KeepsStakesBlock, AnchoredBlock;
    var c := Connect(m, txs, height).value;
    UnstakedSelf(c.coins);
    DisconnectExact(m, txs, height, {}, c.coins);
    StakeTrace(m, txs, height, {});
    var r := Disconnect(c.coins, txs, c.undo, height);
    if AnchoredBlock(m, txs, height) {
      UnstakedEqual(m, Lost(m, txs, height, {}), r.coins);
    }
  }

  lemma UnstakedSelf(m: CoinSet)
    ensures Unstaked(m, {}, m) && !ShowsLoss(m, {})
  {
  }

  /** Whatever the block spends, every field but the coinstake flag comes back. */
  lemma DisconnectRestoresRest(m: CoinSet, txs: seq<Tx>, height: int)
    requires WellFormed(m) && FreshBlock(m, txs, height) && Connect(m, txs, height).Some?
        && AnchoredBlock(m, txs, height)
    ensures UndoFits(txs, Connect(m, txs, height).value.undo)
    ensures var c := Connect(m, txs, height).value; var r := Disconnect(c.coins, txs, c.undo, height);
      r.intact && r.coins.Keys == m.Keys && forall t | t in m :: r.coins[t].(coinStake := m[t].coinStake) == m[t]
  {
    var c := Connect(m, txs, height).value;
    UnstakedSelf(c.coins);
    DisconnectExact(m, txs, height, {}, c.coins);
  }
}
