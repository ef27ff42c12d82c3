/**
 Conservation of value: along every chain of connected blocks, what is unspent plus what was dropped as
 unspendable is the money supply recorded for the tip.
 */
module CoinSupply {
  import opened Wrappers
  import opened Collections
  import opened Coins
  import opened CoinView
  import opened CoinBlock

  // ----- values

  function Worth(o: TxOut): int {
    if o.IsNull() then 0 else o.value
  }

  function Value(vout: seq<TxOut>): int {
    if vout == [] then 0 else Value(vout[..|vout| - 1]) + Worth(vout[|vout| - 1])
  }

  ghost function SumOver<T>(s: set<T>, f: T -> int): int {
    if |s| == 0 then 0 else f(Pick(s)) + SumOver(s - {Pick(s)}, f)
  }

  lemma {:induction false} SumWithout<T>(s: set<T>, t: T, f: T -> int)
    requires t in s
    ensures SumOver(s, f) == f(t) + SumOver(s - {t}, f)
    decreases |s|
  {
    hide Pick;
    var k := Pick(s);
    if k != t {
      var a, b := s - {k}, s - {t};
      SumWithout(a, t, f);
      SumWithout(b, k, f);
      assert a - {t} == b - {k};
    }
  }

  lemma {:induction false} SumAgrees<T>(s: set<T>, f: T -> int, g: T -> int)
    requires forall t | t in s :: f(t) == g(t)
    ensures SumOver(s, f) == SumOver(s, g)
    decreases |s|
  {
    hide Pick;
    if |s| != 0 {
      SumAgrees(s - {Pick(s)}, f, g);
    }
  }

  function CoinValue(m: CoinSet): Txid -> int {
    (t: Txid) => Value(Get(m, t).vout)
  }

  /** The value of all coins in the set. */
  ghost function Total(m: CoinSet): int {
    SumOver(m.Keys, CoinValue(m))
  }

  lemma ValueOfNothing()
    ensures Value([]) == 0
  {
  }

  lemma TotalPut(m: CoinSet, t: Txid, c: Coins)
    ensures Total(Put(m, t, c)) == Total(m) - Value(Get(m, t).vout) + (if IsPruned(c) then 0 else Value(c.vout))
  {
    hide SumOver, Value;
    ValueOfNothing();
    var n := Put(m, t, c);
    var rest := m.Keys - {t};
    SumAgrees(rest, CoinValue(m), CoinValue(n));
    if t in m {
      SumWithout(m.Keys, t, CoinValue(m));
    } else {
      assert rest == m.Keys;
    }
    if t in n {
      SumWithout(n.Keys, t, CoinValue(n));
      assert n.Keys - {t} == rest;
    } else {
      assert n.Keys == rest;
    }
  }

  lemma {:induction false} ValueSet(vout: seq<TxOut>, n: nat, o: TxOut)
    requires n < |vout|
    ensures Value(vout[n := o]) == Value(vout) - Worth(vout[n]) + Worth(o)
  {
    var last := |vout| - 1;
    if n < last {
      ValueSet(vout[..last], n, o);
      assert vout[n := o][..last] == vout[..last][n := o];
    } else {
      assert vout[n := o][..last] == vout[..last];
    }
  }

  lemma {:induction false} ValueTrim(vout: seq<TxOut>)
    ensures Value(Trim(vout)) == Value(vout)
  {
    if !Trimmed(vout) {
      ValueTrim(vout[..|vout| - 1]);
    }
  }

  lemma {:induction false} ValueNull(vout: seq<TxOut>)
    requires forall i | 0 <= i < |vout| :: vout[i].IsNull()
    ensures Value(vout) == 0
  {
    if vout != [] {
      ValueNull(vout[..|vout| - 1]);
    }
  }

  // ----- what a transaction moves

  /** GetValueOut: all outputs, unspendable ones included. */
  function ValueOut(vout: seq<TxOut>): int {
    if vout == [] then 0 else ValueOut(vout[..|vout| - 1]) + vout[|vout| - 1].value
  }

  /** The value that disappears because its outputs can never be spent. */
  function Dropped(vout: seq<TxOut>): int {
    if vout == [] then 0 else
      var last := vout[|vout| - 1];
      Dropped(vout[..|vout| - 1]) + if IsUnspendable(last.script) then last.value else 0
  }

  /** The value of the output an input refers to. */
  function Amount(m: CoinSet, out: OutPoint): int {
    if IsAvailable(Get(m, out.hash), out.n) then Get(m, out.hash).vout[out.n].value else 0
  }

  /** GetValueIn, on the set before any of the inputs is spent. */
  function ValueIn(m: CoinSet, vin: seq<OutPoint>): int {
    if vin == [] then 0 else ValueIn(m, vin[..|vin| - 1]) + Amount(m, vin[|vin| - 1])
  }

  lemma {:induction false} EachValue(vout: seq<TxOut>)
    requires forall i | 0 <= i < |vout| :: vout[i].value >= 0
    ensures Value(EachSpendable(vout)) == ValueOut(vout) - Dropped(vout)
  {
    hide EachSpendable, Trim;
    if vout != [] {
      var last := |vout| - 1;
      EachValue(vout[..last]);
      assert EachSpendable(vout)[..last] == EachSpendable(vout[..last]);
    }
  }

  lemma ClearedValue(vout: seq<TxOut>)
    requires forall i | 0 <= i < |vout| :: vout[i].value >= 0
    ensures Value(ClearUnspendable(vout)) == ValueOut(vout) - Dropped(vout)
  {
    EachValue(vout);
    ValueTrim(EachSpendable(vout));
  }

  /** Spending one output lowers the total by its value. */
  lemma SpendLowers(p: CoinSet, out: OutPoint)
    requires WellFormed(p) && Spend(Get(p, out.hash), out.n).Some?
    ensures Total(Put(p, out.hash, Spend(Get(p, out.hash), out.n).value.0)) ==
        Total(p) - Get(p, out.hash).vout[out.n].value
  {
    var c := Get(p, out.hash);
    var s := Spent(c, out.n);
    TotalPut(p, out.hash, s);
    ValueSet(c.vout, out.n, NULL_OUT);
    ValueTrim(c.vout[out.n := NULL_OUT]);
    if IsPruned(s) {
      ValueNull(s.vout);
    }
  }

  /** Outputs not spent yet are still what they were. */
  lemma {:induction false} OutputsStay(m: CoinSet, vin: seq<OutPoint>, o: OutPoint)
    requires WellFormed(m) && SpendInputs(m, vin).Some?
        && IsAvailable(Get(SpendInputs(m, vin).value.coins, o.hash), o.n)
    ensures IsAvailable(Get(m, o.hash), o.n)
    ensures Get(m, o.hash).vout[o.n] == Get(SpendInputs(m, vin).value.coins, o.hash).vout[o.n]
    decreases |vin|
  {
    if vin != [] {
      LastInput(m, vin);
      var front, last := vin[..|vin| - 1], vin[|vin| - 1];
      SpendInputsEffect(m, front);
      var p := SpendInputs(m, front).value.coins;
      OutputStays(p, last, o);
      OutputsStay(m, front, o);
    }
  }

  lemma OutputStays(p: CoinSet, spent: OutPoint, o: OutPoint)
    requires WellFormed(p) && Spend(Get(p, spent.hash), spent.n).Some?
    requires IsAvailable(Get(Put(p, spent.hash, Spend(Get(p, spent.hash), spent.n).value.0), o.hash), o.n)
    ensures IsAvailable(Get(p, o.hash), o.n)
    ensures Get(p, o.hash).vout[o.n] == Get(Put(p, spent.hash, Spend(Get(p, spent.hash), spent.n).value.0),
        o.hash).vout[o.n]
  {
    var c := Get(p, spent.hash);
    if o.hash == spent.hash {
      assert Spent(c, spent.n).vout <= c.vout[spent.n := NULL_OUT];
    }
  }

  lemma {:induction false} SpendInputsLowers(m: CoinSet, vin: seq<OutPoint>)
    requires WellFormed(m) && SpendInputs(m, vin).Some?
    ensures forall j | 0 <= j < |vin| :: IsAvailable(Get(m, vin[j].hash), vin[j].n)
    ensures Total(SpendInputs(m, vin).value.coins) == Total(m) - ValueIn(m, vin)
    decreases |vin|
  {
    hide WellFormed, Spent, Total, Emptied, KeepsStakes;
    if vin != [] {
      LastInput(m, vin);
      var front, last := vin[..|vin| - 1], vin[|vin| - 1];
      SpendInputsEffect(m, front);
      SpendInputsLowers(m, front);
      var p := SpendInputs(m, front).value.coins;
      SpendLowers(p, last);
      OutputsStay(m, front, last);
      assert forall j | 0 <= j < |front| :: front[j] == vin[j];
    }
  }

  function TxIn(m: CoinSet, tx: Tx): int {
    if tx.IsCoinBase() then 0 else ValueIn(m, tx.vin)
  }

  /** One transaction: the total changes by what goes out less what comes in and what is dropped. */
  lemma UpdateCoinsBalance(m: CoinSet, tx: Tx, height: int)
    requires WellFormed(m) && OutputsOk(tx) && tx.hash !in m && UpdateCoins(m, tx, height).Some?
    ensures tx.IsCoinBase() || forall j | 0 <= j < |tx.vin| :: IsAvailable(Get(m, tx.vin[j].hash), tx.vin[j].n)
    ensures Total(UpdateCoins(m, tx, height).value.coins) + Dropped(tx.vout) == Total(m)
        + ValueOut(tx.vout) - TxIn(m, tx)
  {
    var c := FromTx(tx, height);
    ClearedValue(tx.vout);
    if IsPruned(c) {
      ValueNull(c.vout);
    }
    if tx.IsCoinBase() {
      TotalPut(m, tx.hash, c);
    } else {
      SpendInputsEffect(m, tx.vin);
      SpendInputsLowers(m, tx.vin);
      TotalPut(SpendInputs(m, tx.vin).value.coins, tx.hash, c);
    }
    assert Value([]) == 0;
  }

  // ----- blocks and chains

  /** What the transaction loop of a block accumulates. */
  function BlockOut(txs: seq<Tx>): int {
    if txs == [] then 0 else BlockOut(txs[..|txs| - 1]) + ValueOut(txs[|txs| - 1].vout)
  }

  function BlockIn(m: CoinSet, txs: seq<Tx>, height: int): int
    requires Connect(m, txs, height).Some?
  {
    if txs == [] then 0 else
      LastTx(m, txs, height);
      var front := txs[..|txs| - 1];
      BlockIn(m, front, height) + TxIn(Connect(m, front, height).value.coins, txs[|txs| - 1])
  }

  function BlockDropped(txs: seq<Tx>): int {
    if txs == [] then 0 else BlockDropped(txs[..|txs| - 1]) + Dropped(txs[|txs| - 1].vout)
  }

  lemma {:induction false} BlockBalance(m: CoinSet, txs: seq<Tx>, height: int)
    requires WellFormed(m) && FreshBlock(m, txs, height) && Connect(m, txs, height).Some?
    ensures Total(Connect(m, txs, height).value.coins) + BlockDropped(txs) == Total(m)
        + BlockOut(txs) - BlockIn(m, txs, height)
    decreases |txs|
  {
    hide WellFormed, UpdateCoins, Total, ValueOut, Dropped, TxIn, SpendsOk;
    if txs != [] {
      LastTx(m, txs, height);
      var front, last := txs[..|txs| - 1], txs[|txs| - 1];
      ConnectKeeps(m, front, height);
      BlockBalance(m, front, height);
      UpdateCoinsBalance(Connect(m, front, height).value.coins, last, height);
    }
  }

  datatype Block = Block(txs: seq<Tx>, height: int)

  /** The coin set and the money supply recorded in the index of each tip. */
  datatype Tip = Tip(coins: CoinSet, supply: int)

  function ConnectBlock(tip: Tip, b: Block): Option<Tip> {
    match Connect(tip.coins, b.txs, b.height)
    case None => None
    case Some(c) => Some(Tip(c.coins, tip.supply + BlockOut(b.txs) - BlockIn(tip.coins, b.txs, b.height)))
  }

  /** A run of connected blocks from the empty set, each with fresh transaction identifiers. */
  ghost predicate IsChain(blocks: seq<Block>, tips: seq<Tip>) {
    && |tips| == |blocks| + 1 && tips[0] == Tip(map[], 0)
    && forall k | 0 <= k < |blocks| ::
         && FreshBlock(tips[k].coins, blocks[k].txs, blocks[k].height)
         && ConnectBlock(tips[k], blocks[k]) == Some(tips[k + 1])
  }

  function ChainDropped(blocks: seq<Block>): int {
    if blocks == [] then 0 else ChainDropped(blocks[..|blocks| - 1]) + BlockDropped(blocks[|blocks| - 1].txs)
  }

  /** Along every such run: unspent value plus dropped value is the recorded money supply. */
  lemma {:induction false} SupplyConserved(blocks: seq<Block>, tips: seq<Tip>, k: nat)
    requires IsChain(blocks, tips) && k <= |blocks|
    ensures WellFormed(tips[k].coins)
    ensures Total(tips[k].coins) + ChainDropped(blocks[..k]) == tips[k].supply
  {
    if k > 0 {
      SupplyConserved(blocks, tips, k - 1);
      var tip, b := tips[k - 1], blocks[k - 1];
      assert ConnectBlock(tip, b) == Some(tips[k]);
      BlockBalance(tip.coins, b.txs, b.height);
      ConnectKeeps(tip.coins, b.txs, b.height);
      assert blocks[..k][..k - 1] == blocks[..k - 1];
    }
  }
}
