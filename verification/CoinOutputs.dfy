/**
 Connecting a block, one output at a time.  What the coin set shows of an output is told from the block alone: who
 created it, whether its script can ever succeed, and whether a later transaction of the block spends it.
 */
module CoinOutputs {
  import opened Wrappers
  import opened Coins
  import opened CoinView
  import opened CoinBlock

  /** An unspent output with what is kept about its transaction. */
  datatype Held = Held(out: TxOut, coinBase: bool, coinStake: bool, height: int, version: int)

  function HeldIn(c: Coins, n: nat): Option<Held> {
    if n < |c.vout| && c.vout[n].value != -1
    then Some(Held(c.vout[n], c.coinBase, c.coinStake, c.height, c.version)) else None
  }

  /** What the coin set shows of an output. */
  function Shown(m: CoinSet, o: OutPoint): Option<Held> {
    if o.hash in m then HeldIn(m[o.hash], o.n) else None
  }

  /** The one input of a coinbase names no output. */
  predicate Mints(tx: Tx) {
    tx.vin == [OutPoint(0, 0xffff_ffff)]
  }

  /** A coinstake spends a coin, and the first of its two or more outputs is empty. */
  predicate Stakes(tx: Tx) {
    && tx.vin != [] && tx.vin[0] != OutPoint(0, 0xffff_ffff)
    && |tx.vout| >= 2 && tx.vout[0] == TxOut(0, [])
  }

  /** What a transaction contributes as its output `n`: nothing if the script starts with the byte 0x6a. */
  function Made(tx: Tx, height: int, n: nat): Option<Held> {
    if n < |tx.vout| && !(tx.vout[n].script != [] && tx.vout[n].script[0] == 106)
    then Some(Held(tx.vout[n], Mints(tx), Stakes(tx), height, tx.version)) else None
  }

  /** An output after some transactions: the last one that made or spent it decides. */
  function After(m: CoinSet, txs: seq<Tx>, height: int, o: OutPoint): Option<Held> {
    if txs == [] then Shown(m, o) else
      var last := txs[|txs| - 1];
      if last.hash == o.hash then Made(last, height, o.n)
      else if !Mints(last) && o in last.vin then None
      else After(m, txs[..|txs| - 1], height, o)
  }

  ghost predicate AllDifferent(vin: seq<OutPoint>) {
    forall i, j | 0 <= i < j < |vin| :: vin[i] != vin[j]
  }

  /** Every input of every transaction names an output that is unspent by then, and none is named twice. */
  ghost predicate InputsThere(m: CoinSet, txs: seq<Tx>, height: int) {
    forall i | 0 <= i < |txs| && !Mints(txs[i]) :: InputsFound(m, txs, height, i)
  }

  ghost predicate InputsFound(m: CoinSet, txs: seq<Tx>, height: int, i: nat)
    requires i < |txs|
  {
    AllDifferent(txs[i].vin) && forall o | o in txs[i].vin :: After(m, txs[..i], height, o).Some?
  }

  // ----- spending

  lemma SpentHeld(c: Coins, n: nat, k: nat)
    requires IsAvailable(c, n)
    ensures HeldIn(Spent(c, n), k) == if k == n then None else HeldIn(c, k)
  {
    CleanupKeeps(c.(vout := c.vout[n := NULL_OUT]), k);
  }

  lemma PutShown(m: CoinSet, t: Txid, c: Coins, o: OutPoint)
    ensures Shown(Put(m, t, c), o) == if o.hash == t then HeldIn(c, o.n) else Shown(m, o)
  {
  }

  /** One spend succeeds exactly for an unspent output, and takes that output only. */
  lemma SpendShown(p: CoinSet, out: OutPoint, o: OutPoint)
    ensures Spend(Get(p, out.hash), out.n).Some? <==> Shown(p, out).Some?
    ensures Shown(p, out).Some? ==>
      Shown(Put(p, out.hash, Spend(Get(p, out.hash), out.n).value.0), o) == if o == out then None else Shown(p, o)
  {
    if Shown(p, out).Some? {
      var c := Get(p, out.hash);
      SpentHeld(c, out.n, o.n);
      PutShown(p, out.hash, Spent(c, out.n), o);
    }
  }

  /** Inputs can be spent exactly if they are unspent and all different, and then nothing else is taken. */
  lemma {:induction false} InputsShown(m: CoinSet, vin: seq<OutPoint>)
    ensures SpendInputs(m, vin).Some? <==> AllDifferent(vin) && forall o | o in vin :: Shown(m, o).Some?
    ensures SpendInputs(m, vin).Some? ==>
      forall o :: Shown(SpendInputs(m, vin).value.coins, o) == if o in vin then None else Shown(m, o)
    decreases |vin|
  {
    hide Spend, Put, Shown;
    if vin != [] {
      var front, last := vin[..|vin| - 1], vin[|vin| - 1];
      InputsShown(m, front);
      LastDiffers(front, last);
      assert front + [last] == vin;
      if SpendInputs(m, front).Some? {
        var p := SpendInputs(m, front).value.coins;
        SpendShown(p, last, last);
        if SpendInputs(m, vin).Some? {
          forall o ensures Shown(SpendInputs(m, vin).value.coins, o) == if o in vin then None else Shown(m, o) {
            SpendShown(p, last, o);
            assert o in vin <==> o in front || o == last;
          }
        }
      } else {
        assert forall o | o in front :: o in vin;
      }
    }
  }

  lemma LastDiffers(front: seq<OutPoint>, last: OutPoint)
    ensures AllDifferent(front + [last]) <==> AllDifferent(front) && last !in front
  {
    var vin := front + [last];
    if AllDifferent(vin) {
      forall i, j | 0 <= i < j < |front| ensures front[i] != front[j] {
        assert vin[i] != vin[j];
      }
      forall i | 0 <= i < |front| ensures front[i] != last {
        assert vin[i] != vin[|front|];
      }
    }
  }

  // ----- creating

  lemma KindExact(tx: Tx)
    ensures tx.IsCoinBase() <==> Mints(tx)
    ensures tx.IsCoinStake() <==> Stakes(tx)
  {
  }

  lemma MadeShown(tx: Tx, height: int, n: nat)
    requires OutputsOk(tx)
    ensures HeldIn(FromTx(tx, height), n) == Made(tx, height, n)
  {
    KindExact(tx);
    var v := EachSpendable(tx.vout);
    if n < |tx.vout| {
      assert v[n] == Spendable(tx.vout[n]);
      CleanupKeeps(FromTx(tx, height).(vout := v), n);
    }
  }

  lemma TxShown(m: CoinSet, tx: Tx, height: int)
    requires OutputsOk(tx) && tx.hash !in m
    ensures UpdateCoins(m, tx, height).Some? <==>
        Mints(tx) || (AllDifferent(tx.vin) && forall o | o in tx.vin :: Shown(m, o).Some?)
    ensures UpdateCoins(m, tx, height).Some? ==>
      forall o :: Shown(UpdateCoins(m, tx, height).value.coins, o) ==
          if o.hash == tx.hash then Made(tx, height, o.n)
          else if !Mints(tx) && o in tx.vin then None else Shown(m, o)
  {
    hide FromTx, Put, Shown, Made, SpendInputs, Mints, Stakes;
    KindExact(tx);
    if !tx.IsCoinBase() {
      InputsShown(m, tx.vin);
    }
    if UpdateCoins(m, tx, height).Some? {
      var p := if tx.IsCoinBase() then m else SpendInputs(m, tx.vin).value.coins;
      forall o ensures Shown(UpdateCoins(m, tx, height).value.coins, o) == if o.hash == tx.hash then
          Made(tx, height, o.n) else Shown(p, o)
      {
        PutShown(p, tx.hash, FromTx(tx, height), o);
        MadeShown(tx, height, o.n);
      }
    }
  }

  // ----- a block

  /**
   A block connects exactly if every input is unspent by its turn and named once, and then every output stands as the
   last transaction that made or spent it left it.
   */
  lemma {:induction false} ConnectShown(m: CoinSet, txs: seq<Tx>, height: int)
    requires FreshBlock(m, txs, height)
    ensures Connect(m, txs, height).Some? <==> InputsThere(m, txs, height)
    ensures Connect(m, txs, height).Some? ==>
      forall o :: Shown(Connect(m, txs, height).value.coins, o) == After(m, txs, height, o)
    decreases |txs|
  {
    hide UpdateCoins, Shown, Made, Mints, AllDifferent;
    if txs != [] {
      var front, last := txs[..|txs| - 1], txs[|txs| - 1];
      ConnectShown(m, front, height);
      ThereNext(m, txs, height);
      if Connect(m, front, height).Some? {
        TxShown(Connect(m, front, height).value.coins, last, height);
      }
    }
  }

  lemma ThereNext(m: CoinSet, txs: seq<Tx>, height: int)
    requires txs != []
    ensures var last := |txs| - 1;
      InputsThere(m, txs, height) <==>
          InputsThere(m, txs[..last], height) && (Mints(txs[last]) || InputsFound(m, txs, height, last))
  {
    var last := |txs| - 1;
    var front := txs[..last];
    forall i | 0 <= i < last ensures InputsFound(m, front, height, i) <==> InputsFound(m, txs, height, i) {
      assert front[..i] == txs[..i];
    }
    if InputsThere(m, txs, height) {
      forall i | 0 <= i < |front| && !Mints(front[i]) ensures InputsFound(m, front, height, i) {
        assert txs[i] == front[i] && InputsFound(m, txs, height, i);
      }
    }
    if InputsThere(m, front, height) && (Mints(txs[last]) || InputsFound(m, txs, height, last)) {
      forall i | 0 <= i < |txs| && !Mints(txs[i]) ensures InputsFound(m, txs, height, i) {
        if i < last {
          assert txs[i] == front[i] && InputsFound(m, front, height, i);
        }
      }
    }
  }

  /** So of what a block creates only the outputs that can be spent are there, unless they have been spent already. */
  lemma {:induction false} CreatedOutputs(m: CoinSet, txs: seq<Tx>, height: int, i: nat, n: nat)
    requires FreshBlock(m, txs, height) && Connect(m, txs, height).Some?
    requires i < |txs| && n < |txs[i].vout| && forall j | i < j < |txs| :: txs[j].hash != txs[i].hash
    ensures var c := Get(Connect(m, txs, height).value.coins, txs[i].hash);
      var script := txs[i].vout[n].script;
      && (IsAvailable(c, n) <==>
          && !(script != [] && script[0] == 106)
          && !exists j | i < j < |txs| :: !Mints(txs[j]) && OutPoint(txs[i].hash, n) in txs[j].vin)
      && (IsAvailable(c, n) ==>
          && c.vout[n] == txs[i].vout[n] && c.height == height && c.version == txs[i].version
          && c.coinBase == Mints(txs[i]) && c.coinStake == Stakes(txs[i]))
  {
    ConnectShown(m, txs, height);
    AfterCreated(m, txs, height, i, n);
  }

  lemma {:induction false} AfterCreated(m: CoinSet, txs: seq<Tx>, height: int, i: nat, n: nat)
    requires i < |txs| && forall j | i < j < |txs| :: txs[j].hash != txs[i].hash
    ensures var o := OutPoint(txs[i].hash, n);
      After(m, txs, height, o) == if exists j | i < j < |txs| :: !Mints(txs[j]) && o in txs[j].vin then None
          else Made(txs[i], height, n)
    decreases |txs|
  {
    hide Mints, Made;
    var last := |txs| - 1;
    if i < last {
      AfterCreated(m, txs[..last], height, i, n);
    }
  }

  // ----- undoing a transaction

  /** Trimmed coins are the same exactly if they show the same outputs. */
  lemma SameShown(a: Coins, b: Coins)
    requires Clean(a) && Clean(b) && Proper(a.vout) && Proper(b.vout)
    ensures SameCoins(a, b) <==> forall n: nat :: HeldIn(a, n) == HeldIn(b, n)
  {
    if forall n: nat :: HeldIn(a, n) == HeldIn(b, n) {
      if IsPruned(a) {
        forall i | 0 <= i < |b.vout| ensures b.vout[i].IsNull() {
          assert HeldIn(a, i) == HeldIn(b, i);
        }
      } else {
        assert a.vout != [] && HeldIn(a, |a.vout| - 1).Some?;
        assert HeldIn(b, |a.vout| - 1).Some?;
        assert HeldIn(b, |b.vout| - 1) == HeldIn(a, |b.vout| - 1);
        forall i | 0 <= i < |a.vout| ensures a.vout[i] == b.vout[i] {
          assert HeldIn(a, i) == HeldIn(b, i);
        }
        assert a.vout == b.vout;
      }
    }
  }

  /**
   What is found of a transaction matches it exactly if it shows what the transaction contributed; its version counts
   only if the transaction's is not negative.
   */
  lemma MatchExact(found: Coins, tx: Tx, height: int)
    requires OutputsOk(tx) && Clean(found) && Proper(found.vout)
    requires forall n: nat | n < |found.vout| :: found.vout[n].script == [] || found.vout[n].script[0] != 106
    ensures var f := found.(version := if tx.version < 0 then tx.version else found.version);
      OutputsMatch(found, tx, height) <==> forall n: nat :: HeldIn(f, n) == Made(tx, height, n)
  {
    hide Made;
    var f := found.(version := if tx.version < 0 then tx.version else found.version);
    assert EachSpendable(found.vout) == found.vout;
    ClearedProper(tx.vout);
    SameShown(f, FromTx(tx, height));
    forall n: nat ensures HeldIn(FromTx(tx, height), n) == Made(tx, height, n) {
      MadeShown(tx, height, n);
    }
  }
}
