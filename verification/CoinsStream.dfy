/** Writing and reading unspent outputs, as the loops of the source do it. */
module CoinsStream {
  import opened Wrappers
  import opened Arithmetic
  import opened Bits
  import opened Coins
  import opened Compressor
  import opened CompressorWidth
  import opened CoinsCodec

  /** The number of mask bytes up to the last one that is not zero, and how many of them are not zero. */
  method CalcMaskSize(vout: seq<TxOut>) returns (nBytes: nat, nNonzero: nat)
    ensures nBytes == MaskSize(vout) && nNonzero == NonZero(vout, Blocks(vout))
  {
    hide MaskByte;
    nBytes, nNonzero := 0, 0;
    var b := 0;
    while 2 + b * 8 < |vout|
      invariant b <= Blocks(vout) && nBytes == LastUsed(vout, b) && nNonzero == NonZero(vout, b)
      decreases |vout| - b
    {
      var zero := true;
      var i := 0;
      ghost var w := Window(vout, b);
      while i < 8 && 2 + b * 8 + i < |vout|
        invariant i <= 8 && (zero <==> forall k | 0 <= k < i :: !w[k])
      {
        assert w[i] == Left(vout, 2 + 8 * b + i);
        if !vout[2 + b * 8 + i].IsNull() {
          zero := false;
        }
        i := i + 1;
      }
      ByteZero(vout, b, i);
      if !zero {
        nBytes := b + 1;
        nNonzero := nNonzero + 1;
      }
      b := b + 1;
    }
  }

  lemma ByteZero(vout: seq<TxOut>, b: nat, n: nat)
    requires n <= 8 && (n == 8 || 2 + 8 * b + n >= |vout|)
    ensures MaskByte(vout, b) == 0 <==> forall k | 0 <= k < n :: !Window(vout, b)[k]
  {
    var w := Window(vout, b);
    if MaskByte(vout, b) == 0 {
      forall k | 0 <= k < n ensures !w[k] {
        PackZero(w, k);
      }
    } else if forall k | 0 <= k < n :: !w[k] {
      PackNone(w);
    }
  }

  // ----- writing

  method MakeByte(vout: seq<TxOut>, b: nat) returns (chAvail: nat)
    ensures chAvail == MaskByte(vout, b)
  {
    hide Pow, Pack, Or;
    chAvail := 0;
    ghost var w := Window(vout, b);
    var i := 0;
    PackEmpty();
    assert w[..0] == [];
    while i < 8 && 2 + b * 8 + i < |vout|
      invariant i <= 8 && chAvail == Pack(w[..i])
    {
      assert w[i] == Left(vout, 2 + 8 * b + i);
      BitJoins(w, i);
      if !vout[2 + b * 8 + i].IsNull() {
        chAvail := Or(chAvail, Pow(2, i));
      }
      i := i + 1;
    }
    ByteDone(w, i);
  }

  /** Outputs that do not exist count as spent. */
  lemma {:induction false} ByteDone(w: seq<bool>, i: nat)
    requires i <= |w| && forall k | i <= k < |w| :: !w[k]
    ensures Pack(w) == Pack(w[..i])
    decreases |w| - i
  {
    if i < |w| {
      ByteDone(w, i + 1);
      assert w[..i + 1] == w[..i] + [false];
      PackLast(w[..i], false);
    } else {
      assert w[..i] == w;
    }
  }

  lemma {:induction false} MaskTokensNext(vout: seq<TxOut>, b: nat, n: nat)
    requires b <= n
    ensures MaskTokens(vout, b, n + 1) == MaskTokens(vout, b, n) + [Byte(MaskByte(vout, n))]
    decreases n - b
  {
    hide MaskByte;
    if b < n {
      MaskTokensNext(vout, b + 1, n);
    } else {
      assert MaskTokens(vout, b + 1, n + 1) == [];
    }
  }

  method Serialize(c: Coins) returns (ts: seq<Token>)
    requires Storable(c)
    ensures ts == Tokens(c)
  {
    hide MaskByte, OutTokens, MaskTokens, LastUsed, NonZero, Compressed, Stores, StoredFits;
    var vout := c.vout;
    var nMaskSize, nMaskCode := CalcMaskSize(vout);
    var first := |vout| > 0 && !vout[0].IsNull();
    var second := |vout| > 1 && !vout[1].IsNull();
    CodeNatural(c);
    assert first || second || nMaskCode > 0;
    var code := 16 * (nMaskCode - (if first || second then 0 else 1)) + (if c.coinBase then 1 else 0)
        + (if c.coinStake then 2 else 0) + (if first then 4 else 0) + (if second then 8 else 0);
    ts := [Int(c.version), Num(code)];
    ghost var head := ts;
    NoTokens(vout);
    for b := 0 to nMaskSize
      invariant ts == head + MaskTokens(vout, 0, b)
    {
      var chAvail := MakeByte(vout, b);
      MaskTokensNext(vout, 0, b);
      ts := ts + [Byte(chAvail)];
    }
    ghost var masked := ts;
    for i := 0 to |vout|
      invariant ts + OutTokens(vout, i) == masked + OutTokens(vout, 0)
    {
      OutTokensNext(vout, i);
      if !vout[i].IsNull() {
        var x := CompressAmount(vout[i].value);
        ts := ts + [Amount(x), Bytes(vout[i].script)];
      }
    }
    assert ts + [] == ts;
    ts := ts + [Int(c.height)];
  }

  lemma NoTokens(vout: seq<TxOut>)
    ensures MaskTokens(vout, 0, 0) == [] && OutTokens(vout, |vout|) == []
  {
  }

  lemma OutTokensNext(vout: seq<TxOut>, i: nat)
    requires i < |vout|
    ensures OutTokens(vout, i) == (if vout[i].IsNull() || vout[i].value < 0 then [] else
        [Amount(Stored(vout[i].value)), Bytes(vout[i].script)]) + OutTokens(vout, i + 1)
  {
  }

  // ----- reading

  method ReadMaskBytes(ts: seq<Token>, count: nat, start: seq<bool>) returns (r: Option<(seq<bool>, seq<Token>)>)
    ensures r == ReadMask(ts, count, start)
  {
    hide Unpack, Pow;
    var us, left, avail := ts, count, start;
    while left > 0
      invariant ReadMask(us, left, avail) == ReadMask(ts, count, start)
      decreases |us|
    {
      if us == [] || !us[0].Byte? {
        return None;
      }
      var chAvail := us[0].b;
      ghost var was := avail;
      for p := 0 to 8
        invariant avail == was + Unpack(chAvail, 8)[..p]
      {
        UnpackBit(chAvail, 8, p);
        avail := avail + [(chAvail / Pow(2, p)) % 2 == 1];
      }
      assert Unpack(chAvail, 8)[..8] == Unpack(chAvail, 8);
      us := us[1..];
      if chAvail != 0 {
        left := left - 1;
      }
    }
    return Some((avail, us));
  }

  method ReadOutputs(avail: seq<bool>, ts: seq<Token>) returns (r: Option<(seq<TxOut>, seq<Token>)>)
    ensures r == ReadOuts(avail, 0, [], ts)
  {
    hide Decompressed, Stores;
    var us, vout := ts, [];
    for i := 0 to |avail|
      invariant ReadOuts(avail, i, vout, us) == ReadOuts(avail, 0, [], ts)
    {
      var o := NULL_OUT;
      if avail[i] {
        if |us| < 2 || !us[0].Amount? || !us[1].Bytes? {
          return None;
        }
        var amount := DecompressAmount(us[0].x);
        o := TxOut(Signed(amount), us[1].script);
        us := us[2..];
      }
      vout := vout + [o];
    }
    return Some((vout, us));
  }

  method TrimSpent(vout: seq<TxOut>) returns (r: seq<TxOut>)
    ensures r == Trim(vout)
  {
    r := vout;
    while |r| > 0 && r[|r| - 1].IsNull()
      invariant Trim(r) == Trim(vout)
    {
      r := r[..|r| - 1];
    }
  }

  /** Reads any stream; a stream that ends early or holds something else in a place is an error. */
  method Unserialize(ts: seq<Token>) returns (r: Option<(Coins, seq<Token>)>)
    ensures r == Parse(ts)
  {
    hide ReadMask, ReadOuts, Trim;
    if |ts| < 2 || !ts[0].Int? || !ts[1].Num? {
      return None;
    }
    var code := ts[1].n;
    var first, second := (code / 4) % 2 == 1, (code / 8) % 2 == 1;
    var masked := ReadMaskBytes(ts[2..], code / 16 + (if first || second then 0 else 1), [first, second]);
    if masked.None? {
      return None;
    }
    var outs := ReadOutputs(masked.value.0, masked.value.1);
    if outs.None? {
      return None;
    }
    var rest := outs.value.1;
    if rest == [] || !rest[0].Int? {
      return None;
    }
    var vout := TrimSpent(outs.value.0);
    return Some((Coins(code % 2 == 1, (code / 2) % 2 == 1, vout, rest[0].i, ts[0].i), rest[1..]));
  }

  /** The stream behind the coins is untouched, and they come back as they were exactly if no amount has wrapped. */
  method StoreAndLoad(c: Coins, rest: seq<Token>) returns (r: Option<(Coins, seq<Token>)>)
    requires Storable(c)
    ensures r.Some? && r.value.1 == rest && (r.value.0 == c <==> AmountsFit(c.vout))
  {
    hide Tokens, Parse, AmountsFit;
    var ts := Serialize(c);
    RoundTrip(c, rest);
    r := Unserialize(ts + rest);
  }
}
