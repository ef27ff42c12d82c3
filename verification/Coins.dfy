/**
 The unspent outputs of one transaction: trimming, pruning, spending an output and putting it back.
 */
module Coins {
  import opened Wrappers

  type Txid = nat
  type Script = seq<nat>

  const OP_RETURN: nat := 0x6a

  datatype TxOut = TxOut(value: int, script: Script) {
    predicate IsNull() { value == -1 }
    predicate IsEmpty() { value == 0 && script == [] }
  }

  const NULL_OUT := TxOut(-1, [])

  predicate IsUnspendable(script: Script) { |script| > 0 && script[0] == OP_RETURN }

  datatype OutPoint = OutPoint(hash: Txid, n: nat)

  const NULL_INDEX: nat := 0xffff_ffff

  predicate IsNullPoint(o: OutPoint) { o.hash == 0 && o.n == NULL_INDEX }

  datatype Coins = Coins(coinBase: bool, coinStake: bool, vout: seq<TxOut>, height: int, version: int)

  const NO_COINS := Coins(false, false, [], 0, 0)

  // ----- trimming and pruning

  predicate Trimmed(vout: seq<TxOut>) {
    vout == [] || !vout[|vout| - 1].IsNull()
  }

  /** Remove spent outputs at the end. */
  function Trim(vout: seq<TxOut>): (r: seq<TxOut>)
    ensures Trimmed(r) && r <= vout
    ensures forall i | |r| <= i < |vout| :: vout[i].IsNull()
  {
    if Trimmed(vout) then vout else Trim(vout[..|vout| - 1])
  }

  function Cleanup(c: Coins): Coins {
    c.(vout := Trim(c.vout))
  }

  predicate Clean(c: Coins) { Trimmed(c.vout) }

  predicate IsPruned(c: Coins) {
    forall i | 0 <= i < |c.vout| :: c.vout[i].IsNull()
  }

  predicate IsAvailable(c: Coins, n: nat) {
    n < |c.vout| && !c.vout[n].IsNull()
  }

  /** Pruned coins stand for no coins at all, whatever their other fields. */
  function Normal(c: Coins): Coins {
    if IsPruned(c) then NO_COINS else c
  }

  /** The equality the source defines: any two pruned values are equal. */
  predicate SameCoins(a: Coins, b: Coins) {
    (IsPruned(a) && IsPruned(b)) || a == b
  }

  lemma SameIsNormal(a: Coins, b: Coins)
    ensures SameCoins(a, b) <==> Normal(a) == Normal(b)
    ensures IsPruned(a) ==> Normal(a) == Coins(false, false, [], 0, 0)
  {
    assert IsPruned(NO_COINS);
  }

  /** For trimmed coins, being pruned is having no outputs: the test that the lookup uses. */
  lemma CleanPruned(c: Coins)
    requires Clean(c)
    ensures IsPruned(c) <==> c.vout == []
  {
    if c.vout != [] {
      assert !c.vout[|c.vout| - 1].IsNull();
    }
  }

  /** Trimming does not change whether coins are pruned, nor any output that is available. */
  lemma CleanupKeeps(c: Coins, n: nat)
    ensures IsPruned(Cleanup(c)) <==> IsPruned(c)
    ensures IsAvailable(Cleanup(c), n) <==> IsAvailable(c, n)
    ensures IsAvailable(c, n) ==> Cleanup(c).vout[n] == c.vout[n]
  {
    var t := Trim(c.vout);
    if !IsPruned(c) {
      var i :| 0 <= i < |c.vout| && !c.vout[i].IsNull();
      assert i < |t| && t[i] == c.vout[i];
    }
    if !IsPruned(Cleanup(c)) {
      var i :| 0 <= i < |t| && !t[i].IsNull();
      assert c.vout[i] == t[i];
    }
  }

  // ----- spending

  /** What a spend leaves behind so that it can be undone; the metadata only if it was the last output. */
  datatype Undo = Undo(txout: TxOut, coinBase: bool, coinStake: bool, height: int, version: int)

  function Spent(c: Coins, n: nat): Coins
    requires n < |c.vout|
  {
    Cleanup(c.(vout := c.vout[n := NULL_OUT]))
  }

  function SpendUndo(c: Coins, n: nat): Undo
    requires n < |c.vout|
  {
    if Spent(c, n).vout == [] then Undo(c.vout[n], c.coinBase, c.coinStake, c.height, c.version)
    else Undo(c.vout[n], false, false, 0, 0)
  }

  function Spend(c: Coins, n: nat): Option<(Coins, Undo)> {
    if !IsAvailable(c, n) then None else Some((Spent(c, n), SpendUndo(c, n)))
  }

  /** Null outputs carry no script: true of everything a valid transaction puts into the set. */
  predicate Proper(vout: seq<TxOut>) {
    forall i | 0 <= i < |vout| :: vout[i].IsNull() ==> vout[i] == NULL_OUT
  }

  /** Put an output back, extending the list with null outputs if it is too short. */
  function PutBack(vout: seq<TxOut>, n: nat, o: TxOut): (r: seq<TxOut>)
    ensures |r| >= n + 1
  {
    var padded := if |vout| < n + 1 then vout + seq(n + 1 - |vout|, _ => NULL_OUT) else vout;
    padded[n := o]
  }

  /** Putting the spent output back gives the outputs before the spend. */
  lemma PutBackUndoes(c: Coins, n: nat)
    requires Clean(c) && Proper(c.vout) && IsAvailable(c, n)
    ensures PutBack(Spent(c, n).vout, n, c.vout[n]) == c.vout
    ensures !IsAvailable(Spent(c, n), n)
  {
    var v, last := c.vout[n := NULL_OUT], |c.vout| - 1;
    var t := Trim(v);
    if n < last {
      assert !v[last].IsNull();
      assert t == v;
    }
    var r := PutBack(t, n, c.vout[n]);
    assert |r| == |c.vout|;
    assert forall i | 0 <= i < |t| :: t[i] == v[i];
  }

  /** A spend leaves no outputs exactly when it took the last available one. */
  lemma SpentEmpty(c: Coins, n: nat)
    requires Clean(c) && IsAvailable(c, n)
    ensures Clean(Spent(c, n)) && (Proper(c.vout) ==> Proper(Spent(c, n).vout))
    ensures IsPruned(Spent(c, n)) <==> Spent(c, n).vout == []
    ensures !IsPruned(c)
    ensures Spent(c, n) == c.(vout := Spent(c, n).vout)
  {
    CleanPruned(Spent(c, n));
  }

  /** A spend keeps the output, and what is known of its transaction only if it was the last output available. */
  lemma UndoExact(c: Coins, n: nat)
    requires Clean(c) && IsAvailable(c, n)
    ensures Spend(c, n).Some?
    ensures Spend(c, n).value.1 ==
        if forall k: nat | k != n :: !IsAvailable(c, k) then
          Undo(c.vout[n], c.coinBase, c.coinStake, c.height, c.version)
        else Undo(c.vout[n], false, false, 0, 0)
  {
    var v := c.vout[n := NULL_OUT];
    SpentEmpty(c, n);
    if k: nat :| k != n && IsAvailable(c, k) {
      CleanupKeeps(c.(vout := v), k);
      assert IsAvailable(Spent(c, n), k);
    } else {
      forall i | 0 <= i < |v| ensures v[i].IsNull() {
        assert i == n || !IsAvailable(c, i);
      }
      assert IsPruned(Spent(c, n));
    }
  }
}
