/**
 What undoing a block restores along a chain.  The first block of all adds no coins, so coins have positive
 heights, and then only the coinstake flag can be lost; a coinstake that still has its empty first output
 cannot be emptied without spending that.
 */
module CoinHistory {
  import opened Wrappers
  import opened Coins
  import opened CoinView
  import opened CoinBlock
  import opened CoinSupply

  // ----- heights

  ghost predicate Positive(m: CoinSet) {
    forall t | t in m :: m[t].height != 0
  }

  lemma {:induction false} InputsAnchored(m: CoinSet, vin: seq<OutPoint>)
    requires WellFormed(m) && Positive(m) && SpendInputs(m, vin).Some?
    ensures Anchored(m, vin) && Positive(SpendInputs(m, vin).value.coins)
    decreases |vin|
  {
    hide WellFormed, Spend, Empties;
    if vin != [] {
      LastInput(m, vin);
      var front, last := vin[..|vin| - 1], vin[|vin| - 1];
      InputsAnchored(m, front);
      SpendInputsEffect(m, front);
      var p, r := SpendInputs(m, front).value, SpendInputs(m, vin).value;
      SpendStep(p.coins, last, r.coins, r.undo[|vin| - 1]);
    }
  }

  lemma TxAnchored(m: CoinSet, tx: Tx, height: int)
    requires WellFormed(m) && Positive(m) && UpdateCoins(m, tx, height).Some? && height != 0
    ensures SpendsOk(m, tx) && AnchoredTx(m, tx) && Positive(UpdateCoins(m, tx, height).value.coins)
  {
    hide WellFormed, ClearUnspendable, SpendInputs;
    if !tx.IsCoinBase() {
      InputsAnchored(m, tx.vin);
    }
  }

  lemma {:induction false} BlockAnchored(m: CoinSet, txs: seq<Tx>, height: int)
    requires WellFormed(m) && Positive(m) && FreshBlock(m, txs, height) && Connect(m, txs, height).Some? && height != 0
    ensures AnchoredBlock(m, txs, height) && Positive(Connect(m, txs, height).value.coins)
    decreases |txs|
  {
    hide WellFormed, UpdateCoins, AnchoredTx, Positive;
    if txs != [] {
      LastTx(m, txs, height);
      var front := txs[..|txs| - 1];
      ConnectKeeps(m, front, height);
      BlockAnchored(m, front, height);
      TxAnchored(Connect(m, front, height).value.coins, txs[|txs| - 1], height);
    }
  }

  // ----- markers

  /** A coinstake still has the empty first output that makes it one. */
  predicate HasMarker(c: Coins) {
    c.vout != [] && c.vout[0].IsEmpty()
  }

  ghost predicate Marked(m: CoinSet) {
    forall t | t in m && m[t].coinStake :: HasMarker(m[t])
  }

  predicate TakesMarker(m: CoinSet, out: OutPoint) {
    Get(m, out.hash).coinStake && out.n == 0
  }

  /** None of the inputs is the first output of a coinstake. */
  predicate SparesMarkers(m: CoinSet, vin: seq<OutPoint>)
    requires SpendInputs(m, vin).Some?
  {
    vin == [] || (SparesMarkers(m, vin[..|vin| - 1]) && !TakesMarker(BeforeLast(m, vin), vin[|vin| - 1]))
  }

  predicate SparesMarkersTx(m: CoinSet, tx: Tx)
    requires SpendsOk(m, tx)
  {
    tx.IsCoinBase() || SparesMarkers(m, tx.vin)
  }

  predicate SparesMarkersBlock(m: CoinSet, txs: seq<Tx>, height: int)
    requires Connect(m, txs, height).Some?
  {
    txs == [] ||
    (LastTx(m, txs, height);
    SparesMarkersBlock(m, txs[..|txs| - 1], height) && SparesMarkersTx(Connect(m, txs[..|txs| - 1], height).value.coins,
        txs[|txs| - 1]))
  }

  /** Spending another output leaves the marker, and so leaves something. */
  lemma MarkerStays(c: Coins, n: nat)
    requires HasMarker(c) && n != 0 && n < |c.vout|
    ensures HasMarker(Spent(c, n))
  {
    var v := c.vout[n := NULL_OUT];
    assert !v[0].IsNull();
    assert |Trim(v)| > 0;
  }

  lemma SpendKeepsMarkers(p: CoinSet, out: OutPoint, q: CoinSet, u: Undo)
    requires WellFormed(p) && Marked(p) && Spend(Get(p, out.hash), out.n).Some? && !TakesMarker(p, out)
    requires var s := Spend(Get(p, out.hash), out.n).value; q == Put(p, out.hash, s.0) && u == s.1
    ensures Marked(q) && (Empties(p, out) ==> !Get(p, out.hash).coinStake)
  {
    hide Spend, Spent, WellFormed, IsPruned;
    SpendStep(p, out, q, u);
    SpendFacts(p, out, q, u);
    if p[out.hash].coinStake {
      MarkerStays(p[out.hash], out.n);
    }
  }

  lemma {:induction false} InputsKeepStakes(m: CoinSet, vin: seq<OutPoint>)
    requires WellFormed(m) && Marked(m) && SpendInputs(m, vin).Some? && SparesMarkers(m, vin)
    ensures KeepsStakes(m, vin) && Marked(SpendInputs(m, vin).value.coins)
    decreases |vin|
  {
    hide WellFormed, Spend, Empties, Marked, TakesMarker;
    if vin != [] {
      LastInput(m, vin);
      var front, last := vin[..|vin| - 1], vin[|vin| - 1];
      InputsKeepStakes(m, front);
      SpendInputsEffect(m, front);
      var p, r := SpendInputs(m, front).value, SpendInputs(m, vin).value;
      SpendKeepsMarkers(p.coins, last, r.coins, r.undo[|vin| - 1]);
    }
  }

  /** A new coinstake comes with its marker: an empty output is neither null nor unspendable. */
  lemma StakeIsMarked(tx: Tx, height: int)
    requires OutputsOk(tx) && tx.IsCoinStake()
    ensures HasMarker(FromTx(tx, height))
  {
    var v := EachSpendable(tx.vout);
    assert v[0] == tx.vout[0] && !v[0].IsNull();
    assert |Trim(v)| > 0;
  }

  lemma TxKeepsStakes(m: CoinSet, tx: Tx, height: int)
    requires WellFormed(m) && Marked(m) && OutputsOk(tx) && UpdateCoins(m, tx, height).Some?
    requires SpendsOk(m, tx) && SparesMarkersTx(m, tx)
    ensures KeepsStakesTx(m, tx) && Marked(UpdateCoins(m, tx, height).value.coins)
  {
    hide WellFormed, ClearUnspendable, SpendInputs, HasMarker, KeepsStakes, SparesMarkers;
    if !tx.IsCoinBase() {
      InputsKeepStakes(m, tx.vin);
    }
    if tx.IsCoinStake() {
      StakeIsMarked(tx, height);
    }
  }

  /** A block that spends no marker empties no coinstake. */
  lemma {:induction false} BlockKeepsStakes(m: CoinSet, txs: seq<Tx>, height: int)
    requires WellFormed(m) && Marked(m) && FreshBlock(m, txs, height) && Connect(m, txs, height).Some?
        && SparesMarkersBlock(m, txs, height)
    ensures KeepsStakesBlock(m, txs, height) && Marked(Connect(m, txs, height).value.coins)
    decreases |txs|
  {
    hide WellFormed, UpdateCoins, KeepsStakesTx, SparesMarkersTx, Marked, OutputsOk;
    if txs != [] {
      LastTx(m, txs, height);
      var front := txs[..|txs| - 1];
      ConnectKeeps(m, front, height);
      BlockKeepsStakes(m, front, height);
      TxKeepsStakes(Connect(m, front, height).value.coins, txs[|txs| - 1], height);
    }
  }

  // ----- along a chain

  /** Every block has a positive height: the first of all, at height 0, is not connected. */
  ghost predicate HeightsPositive(blocks: seq<Block>) {
    forall k | 0 <= k < |blocks| :: blocks[k].height != 0
  }

  ghost predicate NoMarkerSpent(blocks: seq<Block>, tips: seq<Tip>, n: nat)
    requires IsChain(blocks, tips) && n <= |blocks|
  {
    forall k | 0 <= k < n ::
        Connects(blocks, tips, k) && SparesMarkersBlock(tips[k].coins, blocks[k].txs, blocks[k].height)
  }

  ghost predicate Connects(blocks: seq<Block>, tips: seq<Tip>, k: nat)
    requires k < |blocks| && |tips| == |blocks| + 1
  {
    var c := Connect(tips[k].coins, blocks[k].txs, blocks[k].height);
    c.Some? && c.value.coins == tips[k + 1].coins
  }

  lemma ChainConnects(blocks: seq<Block>, tips: seq<Tip>, k: nat)
    requires IsChain(blocks, tips) && k < |blocks|
    ensures Connects(blocks, tips, k) && FreshBlock(tips[k].coins, blocks[k].txs, blocks[k].height)
  {
    assert ConnectBlock(tips[k], blocks[k]) == Some(tips[k + 1]);
  }

  lemma {:induction false} ChainSound(blocks: seq<Block>, tips: seq<Tip>, k: nat)
    requires IsChain(blocks, tips) && HeightsPositive(blocks) && k <= |blocks|
    ensures WellFormed(tips[k].coins) && Positive(tips[k].coins)
    ensures NoMarkerSpent(blocks, tips, k) ==> Marked(tips[k].coins)
  {
    hide WellFormed, Connect, FreshBlock, SparesMarkersBlock, KeepsStakesBlock, AnchoredBlock;
    SupplyConserved(blocks, tips, k);
    if k > 0 {
      ChainSound(blocks, tips, k - 1);
      ChainConnects(blocks, tips, k - 1);
      var m, b := tips[k - 1].coins, blocks[k - 1];
      BlockAnchored(m, b.txs, b.height);
      if NoMarkerSpent(blocks, tips, k) {
        assert NoMarkerSpent(blocks, tips, k - 1);
        assert Connects(blocks, tips, k - 1) && SparesMarkersBlock(m, b.txs, b.height);
        BlockKeepsStakes(m, b.txs, b.height);
      }
    }
  }

  /**
   Undoing any block of any chain puts every output and every field but the coinstake flag back; it restores
   the coin set and is clean exactly if the block emptied no coinstake; and it always does as long as no
   block has spent the empty first output of one.
   */
  lemma ChainUndone(blocks: seq<Block>, tips: seq<Tip>, k: nat)
    requires IsChain(blocks, tips) && HeightsPositive(blocks) && k < |blocks|
    ensures Connects(blocks, tips, k)
    ensures var m, b := tips[k].coins, blocks[k]; var c := Connect(m, b.txs, b.height).value;
      && UndoFits(b.txs, c.undo)
      && var r := Disconnect(c.coins, b.txs, c.undo, b.height);
      && r.intact && r.coins.Keys == m.Keys && (forall t | t in m :: r.coins[t].(coinStake := m[t].coinStake) == m[t])
      && (r.clean && r.coins == m <==> KeepsStakesBlock(m, b.txs, b.height))
      && (NoMarkerSpent(blocks, tips, k + 1) ==> r.clean && r.coins == m)
  {
    hide WellFormed, Connect, Disconnect, FreshBlock, SparesMarkersBlock, KeepsStakesBlock, AnchoredBlock;
    var m, b := tips[k].coins, blocks[k];
    ChainSound(blocks, tips, k);
    ChainConnects(blocks, tips, k);
    BlockAnchored(m, b.txs, b.height);
    DisconnectRestores(m, b.txs, b.height);
    DisconnectRestoresRest(m, b.txs, b.height);
    if NoMarkerSpent(blocks, tips, k + 1) {
      assert NoMarkerSpent(blocks, tips, k);
      assert Connects(blocks, tips, k) && SparesMarkersBlock(m, b.txs, b.height);
      BlockKeepsStakes(m, b.txs, b.height);
    }
  }

  // ----- the exception is real

  const NOWHERE := OutPoint(0, NULL_INDEX)
  const MARKER := TxOut(0, [])
  const PAY := TxOut(5, [1])

  const MINT := Tx(1, 1, [NOWHERE], [PAY])
  const SECOND := Tx(2, 1, [NOWHERE], [MARKER])
  const STAKE := Tx(3, 1, [OutPoint(1, 0)], [MARKER, PAY])
  const THIRD := Tx(4, 1, [NOWHERE], [MARKER])
  const SPENDER := Tx(5, 1, [OutPoint(3, 1), OutPoint(3, 0)], [MARKER, PAY])

  function Minted(h1: int): CoinSet { map[1 := Coins(true, false, [PAY], h1, 1)] }

  function Staked(h2: int): CoinSet {
    map[2 := Coins(true, false, [MARKER], h2, 1), 3 := Coins(false, true, [MARKER, PAY], h2, 1)]
  }

  predicate ProofOfStake(b: Block) { |b.txs| > 1 && b.txs[1].IsCoinStake() }

  /** Up to the last height for proof of work all blocks are that, and above it none is. */
  predicate InPhase(b: Block, lastPow: int) { ProofOfStake(b) <==> b.height > lastPow }

  lemma Kept(vout: seq<TxOut>)
    requires vout != [] && !vout[|vout| - 1].IsNull() && forall i | 0 <= i < |vout| :: !IsUnspendable(vout[i].script)
    ensures ClearUnspendable(vout) == vout
  {
    assert EachSpendable(vout) == vout;
  }

  lemma ConnectOne(m: CoinSet, a: Tx, height: int)
    ensures Connect(m, [a], height).Some? <==> UpdateCoins(m, a, height).Some?
    ensures UpdateCoins(m, a, height).Some? ==>
        Connect(m, [a], height).value.coins == UpdateCoins(m, a, height).value.coins
    ensures OutputsOk(a) && a.hash !in m ==> FreshBlock(m, [a], height)
  {
    var txs := [a];
    assert txs[..0] == [];
    assert Connect(m, txs[..0], height) == Some(Connected(m, [])) && FreshBlock(m, txs[..0], height);
  }

  lemma ConnectTwo(m: CoinSet, a: Tx, b: Tx, height: int)
    requires UpdateCoins(m, a, height).Some? && OutputsOk(a) && OutputsOk(b) && a.hash !in m
        && b.hash !in UpdateCoins(m, a, height).value.coins
    ensures var p := UpdateCoins(m, a, height).value.coins;
      && Connect(m, [a], height).Some? && Connect(m, [a], height).value.coins == p && FreshBlock(m, [a, b], height)
      && (Connect(m, [a, b], height).Some? <==> UpdateCoins(p, b, height).Some?)
      && (UpdateCoins(p, b, height).Some? ==>
          Connect(m, [a, b], height).value.coins == UpdateCoins(p, b, height).value.coins)
  {
    ConnectOne(m, a, height);
    assert [a, b][..1] == [a];
  }

  lemma SpendOne(m: CoinSet, out: OutPoint, c: Coins)
    requires Spend(Get(m, out.hash), out.n).Some? && Spend(Get(m, out.hash), out.n).value.0 == c
    ensures SpendInputs(m, [out]).Some? && SpendInputs(m, [out]).value.coins == Put(m, out.hash, c)
    ensures Emptied(m, [out]) == if c.vout == [] then {out.hash} else {}
  {
    var vin := [out];
    assert vin[..0] == [];
    assert SpendInputs(m, vin[..0]) == Some(Updated(m, [])) && Emptied(m, vin[..0]) == {};
    assert BeforeLast(m, vin) == m;
  }

  lemma SpendTwo(m: CoinSet, a: OutPoint, b: OutPoint, c: Coins, d: Coins)
    requires Spend(Get(m, a.hash), a.n).Some? && Spend(Get(m, a.hash), a.n).value.0 == c && c.vout != []
    requires var p := Put(m, a.hash, c);
        Spend(Get(p, b.hash), b.n).Some? && Spend(Get(p, b.hash), b.n).value.0 == d && d.vout == []
    ensures SpendInputs(m, [a, b]).Some? && SpendInputs(m, [a, b]).value.coins == Put(Put(m, a.hash, c), b.hash, d)
    ensures Emptied(m, [a, b]) == {b.hash}
  {
    var vin := [a, b];
    assert vin[..1] == [a];
    SpendOne(m, a, c);
    assert BeforeLast(m, vin) == Put(m, a.hash, c);
  }

  /** The paying output is spent, then the empty first one. */
  lemma StakeSpent(c: Coins)
    requires c.vout == [MARKER, PAY]
    ensures Spend(c, 1).Some? && Spend(c, 1).value.0 == c.(vout := [MARKER])
    ensures Spend(c.(vout := [MARKER]), 0).Some? && Spend(c.(vout := [MARKER]), 0).value.0 == c.(vout := [])
  {
    var d := c.(vout := [MARKER]);
    assert c.vout[1 := NULL_OUT] == [MARKER, NULL_OUT];
    assert [MARKER, NULL_OUT][..1] == [MARKER];
    assert Trim([MARKER]) == [MARKER] && Trim([MARKER, NULL_OUT]) == Trim([MARKER]);
    assert d.vout[0 := NULL_OUT] == [NULL_OUT];
    NullGoes();
  }

  lemma NullGoes()
    ensures Trim([NULL_OUT]) == []
  {
    assert [NULL_OUT][..0] == [];
  }

  lemma FirstBlock(h1: int)
    ensures FreshBlock(map[], [MINT], h1) && Connect(map[], [MINT], h1).Some?
    ensures Connect(map[], [MINT], h1).value.coins == Minted(h1)
  {
    Kept(MINT.vout);
    ConnectOne(map[], MINT, h1);
  }

  lemma SecondBlock(h1: int, h2: int)
    ensures FreshBlock(Minted(h1), [SECOND, STAKE], h2) && Connect(Minted(h1), [SECOND, STAKE], h2).Some?
    ensures Connect(Minted(h1), [SECOND, STAKE], h2).value.coins == Staked(h2)
  {
    hide SpendInputs, ClearUnspendable;
    Kept(SECOND.vout);
    Kept(STAKE.vout);
    var m := Minted(h1);
    var p := m[2 := Staked(h2)[2]];
    assert UpdateCoins(m, SECOND, h2).value.coins == p;
    ConnectTwo(m, SECOND, STAKE, h2);
    assert m[1].vout[0 := NULL_OUT] == [NULL_OUT];
    NullGoes();
    SpendOne(p, OutPoint(1, 0), m[1].(vout := []));
    assert Put(p, 1, m[1].(vout := []))[3 := Staked(h2)[3]] == Staked(h2);
  }

  /** Coins that hold the coinstake with both its outputs, and nothing of what the last block adds. */
  ghost predicate HoldsStake(m: CoinSet) {
    3 in m && m[3].coinStake && m[3].vout == [MARKER, PAY] && 4 !in m && 5 !in m
  }

  lemma ThirdBlock(m: CoinSet, h3: int)
    requires HoldsStake(m)
    ensures FreshBlock(m, [THIRD, SPENDER], h3) && Connect(m, [THIRD, SPENDER], h3).Some?
    ensures Connect(m, [THIRD], h3).Some?
    ensures var p := Connect(m, [THIRD], h3).value.coins; SpendsOk(p, SPENDER) && EmptiedBy(p, SPENDER) == {3}
  {
    hide SpendInputs, ClearUnspendable, Emptied;
    Kept(THIRD.vout);
    Kept(SPENDER.vout);
    var p := m[4 := Coins(true, false, [MARKER], h3, 1)];
    assert UpdateCoins(m, THIRD, h3).value.coins == p;
    ConnectTwo(m, THIRD, SPENDER, h3);
    var c := m[3];
    StakeSpent(c);
    SpendTwo(p, OutPoint(3, 1), OutPoint(3, 0), c.(vout := [MARKER]), c.(vout := []));
  }

  lemma BaseEmpties(m: CoinSet, tx: Tx)
    requires tx.IsCoinBase()
    ensures EmptiedBy(m, tx) == {}
  {
  }

  /** What the last block loses: the flag of the coinstake, and nothing that its undoing would notice. */
  lemma ThirdLoses(m: CoinSet, h3: int)
    requires HoldsStake(m)
    ensures Connect(m, [THIRD, SPENDER], h3).Some?
    ensures Unnoticed(m, [THIRD, SPENDER], h3, {}) && Lost(m, [THIRD, SPENDER], h3, {}) == {3}
  {
    hide Connect, EmptiedBy, FreshBlock;
    ThirdBlock(m, h3);
    var txs, front := [THIRD, SPENDER], [THIRD];
    assert txs[..1] == front && front[..0] == [];
    LastTx(m, txs, h3);
    LastTx(m, front, h3);
    assert {} - {5} + {3} == {3};
    BaseEmpties(Connect(m, front[..0], h3).value.coins, THIRD);
    assert Lost(m, front, h3, {3}) == {3} - {4} + {};
    assert Unnoticed(m, front[..0], h3, {3} - {4} + {});
    assert Unnoticed(m, front, h3, {3});
  }

  /**
   In any coins that hold the coinstake, whatever else they hold: spending it whole and undoing that is clean but loses
   the flag.
   */
  lemma FlagLostIn(m: CoinSet, h3: int)
    requires WellFormed(m) && Positive(m) && HoldsStake(m) && h3 != 0
    ensures Connect(m, [THIRD, SPENDER], h3).Some? && UndoFits([THIRD, SPENDER],
        Connect(m, [THIRD, SPENDER], h3).value.undo)
    ensures var c := Connect(m, [THIRD, SPENDER], h3).value;
      var r := Disconnect(c.coins, [THIRD, SPENDER], c.undo, h3);
      r.clean && r.coins != m && 3 in r.coins && r.coins[3] == m[3].(coinStake := false)
  {
    hide Connect, FreshBlock, Disconnect, Lost, Unnoticed, AnchoredBlock, WellFormed, Positive;
    var txs := [THIRD, SPENDER];
    ThirdBlock(m, h3);
    BlockAnchored(m, txs, h3);
    ThirdLoses(m, h3);
    var c := Connect(m, txs, h3).value;
    UnstakedSelf(c.coins);
    DisconnectExact(m, txs, h3, {}, c.coins);
    UnstakedAt(m, {3}, Disconnect(c.coins, txs, c.undo, h3).coins, 3);
  }

  lemma ThreeBlocks(h1: int, h2: int, h3: int) returns (blocks: seq<Block>, tips: seq<Tip>)
    ensures blocks == [Block([MINT], h1), Block([SECOND, STAKE], h2), Block([THIRD, SPENDER], h3)]
    ensures IsChain(blocks, tips) && tips[2].coins == Staked(h2)
  {
    hide Connect, FreshBlock, WellFormed, ClearUnspendable;
    blocks := [Block([MINT], h1), Block([SECOND, STAKE], h2), Block([THIRD, SPENDER], h3)];
    FirstBlock(h1);
    SecondBlock(h1, h2);
    ThirdBlock(Staked(h2), h3);
    var first := ConnectBlock(Tip(map[], 0), blocks[0]).value;
    var second := ConnectBlock(first, blocks[1]).value;
    var third := ConnectBlock(second, blocks[2]).value;
    tips := [Tip(map[], 0), first, second, third];
  }

  /**
   At any heights around the last one for proof of work: a block of proof of work mints coins, one of proof of stake
   stakes them, and the next one spends its coinstake whole, with the paying output as the kernel of its own. Undoing
   that is clean but loses the flag. What other blocks in between do to other coins does not matter, by `FlagLostIn`.
   */
  lemma StakeFlagLost(h1: int, h2: int, h3: int, lastPow: int) returns (blocks: seq<Block>, tips: seq<Tip>)
    requires 0 < h1 <= lastPow < h2 < h3
    ensures blocks == [Block([MINT], h1), Block([SECOND, STAKE], h2), Block([THIRD, SPENDER], h3)]
    ensures IsChain(blocks, tips) && HeightsPositive(blocks)
    ensures forall k | 0 <= k < 3 :: blocks[k].txs[0].IsCoinBase() && InPhase(blocks[k], lastPow)
    ensures 3 in tips[2].coins && tips[2].coins[3] == FromTx(STAKE, h2) && STAKE.IsCoinStake()
    ensures var m := tips[2].coins;
        Connect(m, blocks[2].txs, h3).Some? && UndoFits(blocks[2].txs, Connect(m, blocks[2].txs, h3).value.undo)
    ensures var m, c := tips[2].coins, Connect(tips[2].coins, blocks[2].txs, h3).value;
      var r := Disconnect(c.coins, blocks[2].txs, c.undo, h3);
      r.clean && r.coins != m && 3 in r.coins && r.coins[3] == m[3].(coinStake := false)
  {
    hide Connect, FreshBlock, Disconnect, ClearUnspendable, WellFormed, IsChain;
    blocks, tips := ThreeBlocks(h1, h2, h3);
    Kept(STAKE.vout);
    ChainSound(blocks, tips, 2);
    FlagLostIn(Staked(h2), h3);
  }
}
