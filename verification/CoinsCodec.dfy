/**
 How unspent outputs are stored: a header code, a bit mask of the outputs from the third on, the outputs
 that are left, and the height.  Streams are sequences of tokens; how a single number or script is turned
 into bytes is not looked into.
 */
module CoinsCodec {
  import opened Wrappers
  import opened Arithmetic
  import opened Bits
  import opened Coins
  import opened Compressor
  import opened CompressorWidth

  datatype Token = Int(i: int) | Num(n: nat) | Amount(x: U64) | Byte(b: nat) | Bytes(script: Script)

  // ----- the mask

  predicate Left(vout: seq<TxOut>, i: nat) { i < |vout| && !vout[i].IsNull() }

  /** The eight outputs of mask byte `b`. */
  function Window(vout: seq<TxOut>, b: nat): (w: seq<bool>)
    ensures |w| == 8 && forall i | 0 <= i < 8 :: w[i] == Left(vout, 2 + 8 * b + i)
  {
    seq(8, i requires 0 <= i < 8 => Left(vout, 2 + 8 * b + i))
  }

  function MaskByte(vout: seq<TxOut>, b: nat): nat { Pack(Window(vout, b)) }

  /** The number of mask bytes that outputs reach into. */
  function Blocks(vout: seq<TxOut>): nat { if |vout| <= 2 then 0 else (|vout| + 5) / 8 }

  function LastUsed(vout: seq<TxOut>, n: nat): (r: nat)
    ensures r <= n
  {
    if n == 0 then 0 else if MaskByte(vout, n - 1) != 0 then n else LastUsed(vout, n - 1)
  }

  function NonZero(vout: seq<TxOut>, n: nat): nat {
    if n == 0 then 0 else NonZero(vout, n - 1) + if MaskByte(vout, n - 1) != 0 then 1 else 0
  }

  function MaskSize(vout: seq<TxOut>): nat { LastUsed(vout, Blocks(vout)) }

  lemma {:induction false} LastUsedExact(vout: seq<TxOut>, n: nat)
    ensures LastUsed(vout, n) > 0 ==> MaskByte(vout, LastUsed(vout, n) - 1) != 0
    ensures forall b | LastUsed(vout, n) <= b < n :: MaskByte(vout, b) == 0
    ensures NonZero(vout, n) == NonZero(vout, LastUsed(vout, n))
  {
    if n > 0 {
      LastUsedExact(vout, n - 1);
    }
  }

  /** Beyond the mask nothing is left. */
  lemma BeyondMask(vout: seq<TxOut>, i: nat)
    requires i >= 2 + 8 * MaskSize(vout)
    ensures !Left(vout, i)
  {
    LastUsedExact(vout, Blocks(vout));
    var b := (i - 2) / 8;
    if i < |vout| {
      assert b < Blocks(vout) && MaskByte(vout, b) == 0;
      PackZero(Window(vout, b), (i - 2) % 8);
      assert Window(vout, b)[(i - 2) % 8] == Left(vout, 2 + 8 * b + (i - 2) % 8);
    }
  }

  // ----- writing

  function Code(c: Coins): int {
    var first, second := Left(c.vout, 0), Left(c.vout, 1);
    16 * (NonZero(c.vout, Blocks(c.vout)) - (if first || second then 0 else 1))
      + (if c.coinBase then 1 else 0) + (if c.coinStake then 2 else 0) + (if first then 4 else 0)
          + (if second then 8 else 0)
  }

  function MaskTokens(vout: seq<TxOut>, b: nat, n: nat): seq<Token>
    decreases n - b
  {
    if b >= n then [] else [Byte(MaskByte(vout, b))] + MaskTokens(vout, b + 1, n)
  }

  /** The 64-bit number that is written for an amount. */
  ghost function Stored(value: nat): U64 { Compressed(value) % WIDE }

  /** A 64-bit number read as signed: the one in range that differs by nothing or by 2^64. */
  function Signed(n: U64): (r: int)
    ensures -0x8000_0000_0000_0000 <= r < 0x8000_0000_0000_0000
    ensures r == n || r == n - 0x1_0000_0000_0000_0000
  {
    if n < WIDE / 2 then n else n - WIDE
  }

  /** The amount that is read for it, as a signed number. */
  ghost function Loaded(x: U64): int { Signed(Decompressed(x) % WIDE) }

  ghost function OutTokens(vout: seq<TxOut>, i: nat): seq<Token>
    decreases |vout| - i
  {
    if i >= |vout| then [] else
      (if vout[i].IsNull() || vout[i].value < 0 then [] else [Amount(Stored(vout[i].value)), Bytes(vout[i].script)])
      + OutTokens(vout, i + 1)
  }

  /** Only coins with something left can be stored; amounts are not negative signed 64-bit numbers. */
  ghost predicate Storable(c: Coins) {
    Clean(c) && Proper(c.vout) && !IsPruned(c) && AmountsOk(c.vout)
  }

  ghost predicate AmountsOk(vout: seq<TxOut>) {
    forall i | 0 <= i < |vout| && !vout[i].IsNull() :: 0 <= vout[i].value < WIDE / 2
  }

  /** No stored amount wraps: so for all amounts of money, see `MoneyFits`. */
  ghost predicate AmountsFit(vout: seq<TxOut>)
    requires AmountsOk(vout)
  {
    forall i | 0 <= i < |vout| && !vout[i].IsNull() :: StoredFits(vout[i].value)
  }

  lemma LoadedExact(v: nat)
    requires v < WIDE / 2
    ensures Loaded(Stored(v)) == v <==> StoredFits(v)
  {
    hide Compressed, Decompressed, StoredFits;
    BackExact(v, Stored(v));
  }

  lemma {:induction false} SomeByte(vout: seq<TxOut>, n: nat, b: nat)
    requires b < n && MaskByte(vout, b) != 0
    ensures NonZero(vout, n) > 0
  {
    if b < n - 1 {
      SomeByte(vout, n - 1, b);
    }
  }

  /** The assertion in front of the header code: some output is left. */
  lemma CodeNatural(c: Coins)
    requires !IsPruned(c)
    ensures (Left(c.vout, 0) || Left(c.vout, 1) || NonZero(c.vout, Blocks(c.vout)) > 0) && Code(c) >= 0
  {
    var i :| 0 <= i < |c.vout| && !c.vout[i].IsNull();
    if !Left(c.vout, 0) && !Left(c.vout, 1) {
      assert i >= 2;
      var b, p := (i - 2) / 8, (i - 2) % 8;
      assert Window(c.vout, b)[p] == Left(c.vout, 2 + 8 * b + p);
      if MaskByte(c.vout, b) == 0 {
        PackZero(Window(c.vout, b), p);
      }
      SomeByte(c.vout, Blocks(c.vout), b);
    }
  }

  ghost function Tokens(c: Coins): seq<Token>
    requires !IsPruned(c)
  {
    CodeNatural(c);
    [Int(c.version), Num(Code(c))] + MaskTokens(c.vout, 0, MaskSize(c.vout)) + OutTokens(c.vout, 0) + [Int(c.height)]
  }

  // ----- reading

  ghost function ReadMask(ts: seq<Token>, code: nat, acc: seq<bool>): Option<(seq<bool>, seq<Token>)> {
    if code == 0 then Some((acc, ts))
    else if ts == [] || !ts[0].Byte? then None
    else ReadMask(ts[1..], if ts[0].b != 0 then code - 1 else code, acc + Unpack(ts[0].b, 8))
  }

  ghost function ReadOuts(avail: seq<bool>, i: nat, acc: seq<TxOut>, ts: seq<Token>): Option<(seq<TxOut>, seq<Token>)>
    decreases |avail| - i
  {
    if i >= |avail| then Some((acc, ts))
    else if !avail[i] then ReadOuts(avail, i + 1, acc + [NULL_OUT], ts)
    else if |ts| < 2 || !ts[0].Amount? || !ts[1].Bytes? then None
    else ReadOuts(avail, i + 1, acc + [TxOut(Loaded(ts[0].x), ts[1].script)], ts[2..])
  }

  /** What any stream of tokens is read as. */
  ghost function Parse(ts: seq<Token>): Option<(Coins, seq<Token>)> {
    if |ts| < 2 || !ts[0].Int? || !ts[1].Num? then None else
      var code := ts[1].n;
      var first, second := (code / 4) % 2 == 1, (code / 8) % 2 == 1;
      match ReadMask(ts[2..], code / 16 + (if first || second then 0 else 1), [first, second])
      case None => None
      case Some((avail, us)) =>
        match ReadOuts(avail, 0, [], us)
        case None => None
        case Some((vout, vs)) =>
          if vs == [] || !vs[0].Int? then None
          else Some((Cleanup(Coins(code % 2 == 1, (code / 2) % 2 == 1, vout, vs[0].i, ts[0].i)), vs[1..]))
  }

  // ----- reading undoes writing

  ghost function Windows(vout: seq<TxOut>, b: nat, n: nat): seq<bool>
    decreases n - b
  {
    if b >= n then [] else Window(vout, b) + Windows(vout, b + 1, n)
  }

  lemma {:induction false} WindowsAt(vout: seq<TxOut>, b: nat, n: nat, k: nat)
    requires b <= n && k < 8 * (n - b)
    ensures |Windows(vout, b, n)| == 8 * (n - b) && Windows(vout, b, n)[k] == Left(vout, 2 + 8 * b + k)
    decreases n - b
  {
    if b + 1 < n {
      WindowsAt(vout, b + 1, n, if k < 8 then 0 else k - 8);
    } else {
      assert Windows(vout, b + 1, n) == [];
    }
  }

  ghost function NonZeroFrom(vout: seq<TxOut>, b: nat, n: nat): nat
    decreases n - b
  {
    if b >= n then 0 else (if MaskByte(vout, b) != 0 then 1 else 0) + NonZeroFrom(vout, b + 1, n)
  }

  lemma {:induction false} NonZeroSplit(vout: seq<TxOut>, b: nat, n: nat)
    requires b <= n
    ensures NonZero(vout, n) == NonZero(vout, b) + NonZeroFrom(vout, b, n)
    decreases n - b
  {
    if b < n {
      NonZeroSplit(vout, b + 1, n);
    }
  }

  lemma ByteUnpacks(vout: seq<TxOut>, b: nat)
    ensures Unpack(MaskByte(vout, b), 8) == Window(vout, b)
  {
    UnpackPack(Window(vout, b));
  }

  /** The reader stops exactly behind the last mask byte, since that one is not zero. */
  lemma {:induction false} ReadMaskExact(vout: seq<TxOut>, b: nat, n: nat, acc: seq<bool>, rest: seq<Token>)
    requires b <= n && (b < n ==> MaskByte(vout, n - 1) != 0)
    ensures b < n ==> NonZeroFrom(vout, b, n) > 0
    ensures ReadMask(MaskTokens(vout, b, n) + rest, NonZeroFrom(vout, b, n), acc) ==
        Some((acc + Windows(vout, b, n), rest))
    decreases n - b
  {
    hide MaskByte, Window, Unpack;
    if b < n {
      ReadMaskExact(vout, b + 1, n, acc + Window(vout, b), rest);
      ByteUnpacks(vout, b);
      var ts := MaskTokens(vout, b, n) + rest;
      assert ts[0] == Byte(MaskByte(vout, b)) && ts[1..] == MaskTokens(vout, b + 1, n) + rest;
      assert acc + Window(vout, b) + Windows(vout, b + 1, n) == acc + Windows(vout, b, n);
    } else {
      assert MaskTokens(vout, b, n) + rest == rest;
      assert acc + Windows(vout, b, n) == acc;
    }
  }

  /** An output after its amount was stored and loaded. */
  ghost function Reread(o: TxOut): TxOut {
    if o.value < 0 then NULL_OUT else TxOut(Loaded(Stored(o.value)), o.script)
  }

  /** The outputs as the reader puts them back: what is left, and null in the other places. */
  ghost function Filled(vout: seq<TxOut>, i: nat, n: nat): seq<TxOut>
    decreases n - i
  {
    if i >= n then [] else [if Left(vout, i) then Reread(vout[i]) else NULL_OUT] + Filled(vout, i + 1, n)
  }

  lemma {:induction false} NothingMore(vout: seq<TxOut>, i: nat)
    requires forall k: nat | k >= i :: !Left(vout, k)
    ensures OutTokens(vout, i) == []
    decreases |vout| - i
  {
    if i < |vout| {
      assert !Left(vout, i);
      NothingMore(vout, i + 1);
    }
  }

  /** One output that is left is read from its two tokens. */
  lemma ReadLeft(vout: seq<TxOut>, avail: seq<bool>, i: nat, acc: seq<TxOut>, rest: seq<Token>)
    requires i < |avail| && avail[i] && Left(vout, i) && vout[i].value >= 0
    ensures ReadOuts(avail, i, acc, OutTokens(vout, i) + rest) ==
        ReadOuts(avail, i + 1, acc + [Reread(vout[i])], OutTokens(vout, i + 1) + rest)
  {
    hide Stored, Loaded;
    var ts := OutTokens(vout, i) + rest;
    assert ts[0] == Amount(Stored(vout[i].value)) && ts[1] == Bytes(vout[i].script);
    assert ts[2..] == OutTokens(vout, i + 1) + rest;
    assert TxOut(Loaded(ts[0].x), ts[1].script) == Reread(vout[i]);
  }

  lemma {:induction false} ReadOutsExact(vout: seq<TxOut>, avail: seq<bool>, i: nat, acc: seq<TxOut>, rest: seq<Token>)
    requires i <= |avail| && (forall k | 0 <= k < |avail| :: avail[k] == Left(vout, k))
        && (forall k: nat | k >= |avail| :: !Left(vout, k))
    requires AmountsOk(vout)
    ensures ReadOuts(avail, i, acc, OutTokens(vout, i) + rest) == Some((acc + Filled(vout, i, |avail|), rest))
    decreases |avail| - i
  {
    hide Stored, Loaded, OutTokens, Reread;
    if i == |avail| {
      NothingMore(vout, i);
      assert [] + rest == rest && acc + [] == acc;
    } else {
      var o := if Left(vout, i) then Reread(vout[i]) else NULL_OUT;
      ReadOutsExact(vout, avail, i + 1, acc + [o], rest);
      assert acc + [o] + Filled(vout, i + 1, |avail|) == acc + Filled(vout, i, |avail|);
      if Left(vout, i) {
        ReadLeft(vout, avail, i, acc, rest);
      } else {
        SkipNull(vout, i);
      }
    }
  }

  lemma SkipNull(vout: seq<TxOut>, i: nat)
    requires !Left(vout, i)
    ensures OutTokens(vout, i) == OutTokens(vout, i + 1)
  {
    if i < |vout| {
      assert [] + OutTokens(vout, i + 1) == OutTokens(vout, i + 1);
    }
  }

  lemma {:induction false} FilledAt(vout: seq<TxOut>, i: nat, n: nat, k: nat)
    requires i <= n && k < n - i
    ensures |Filled(vout, i, n)| == n - i && Filled(vout, i, n)[k] == if Left(vout, i + k) then Reread(vout[i + k]) else
        NULL_OUT
    decreases n - i
  {
    hide Reread;
    if i + 1 < n {
      FilledAt(vout, i + 1, n, if k == 0 then 0 else k - 1);
    } else {
      assert Filled(vout, i + 1, n) == [];
    }
  }

  lemma {:induction false} TrimPadded(vout: seq<TxOut>, s: seq<TxOut>)
    requires Trimmed(vout) && vout <= s && forall i | |vout| <= i < |s| :: s[i].IsNull()
    ensures Trim(s) == vout
    decreases |s|
  {
    if |s| > |vout| {
      TrimPadded(vout, s[..|s| - 1]);
    }
  }

  /** Trimmed, the outputs read are the outputs written exactly if no amount has wrapped. */
  lemma FilledTrims(vout: seq<TxOut>, n: nat)
    requires Trimmed(vout) && Proper(vout) && AmountsOk(vout) && forall k: nat | k >= n :: !Left(vout, k)
    ensures Trim(Filled(vout, 0, n)) == vout <==> AmountsFit(vout)
  {
    hide Stored, Loaded, StoredFits;
    assert |vout| <= n by { if |vout| > 0 { assert Left(vout, |vout| - 1); } }
    var s := Filled(vout, 0, n);
    if n == 0 {
      assert s == [];
    } else {
      forall k | 0 <= k < n ensures |s| == n && s[k] == if Left(vout, k) then Reread(vout[k]) else NULL_OUT {
        FilledAt(vout, 0, n, k);
      }
      assert |s| == n by { FilledAt(vout, 0, n, 0); }
      forall k | 0 <= k < |vout| ensures s[k] == vout[k] <==> vout[k].IsNull() || StoredFits(vout[k].value) {
        if !vout[k].IsNull() {
          LoadedExact(vout[k].value);
        }
      }
      if AmountsFit(vout) {
        assert vout == s[..|vout|];
      }
    }
    if AmountsFit(vout) {
      TrimPadded(vout, s);
    }
  }

  lemma Layout(c: Coins, rest: seq<Token>)
    requires !IsPruned(c)
    ensures var ts := Tokens(c) + rest;
      && Code(c) >= 0 && |ts| >= 2 && ts[0] == Int(c.version) && ts[1] == Num(Code(c))
      && ts[2..] == MaskTokens(c.vout, 0, MaskSize(c.vout)) + (OutTokens(c.vout, 0) + ([Int(c.height)] + rest))
  {
    hide OutTokens, MaskTokens, MaskSize, Code;
    CodeNatural(c);
  }

  lemma ParseParts(ts: seq<Token>, code: nat, count: nat, start: seq<bool>, avail: seq<bool>, us: seq<Token>,
      vout: seq<TxOut>, vs: seq<Token>)
    requires |ts| >= 2 && ts[0].Int? && ts[1] == Num(code)
    requires start == [(code / 4) % 2 == 1, (code / 8) % 2 == 1]
        && count == code / 16 + (if start[0] || start[1] then 0 else 1)
    requires ReadMask(ts[2..], count, start) == Some((avail, us))
    requires ReadOuts(avail, 0, [], us) == Some((vout, vs)) && vs != [] && vs[0].Int?
    ensures Parse(ts) == Some((Cleanup(Coins(code % 2 == 1, (code / 2) % 2 == 1, vout, vs[0].i, ts[0].i)), vs[1..]))
  {
    hide ReadMask, ReadOuts, Cleanup;
  }

  /** Reading consumes exactly what was written; it undoes the writing exactly if no amount has wrapped. */
  lemma RoundTrip(c: Coins, rest: seq<Token>)
    requires Storable(c)
    ensures Parse(Tokens(c) + rest).Some? && Parse(Tokens(c) + rest).value.1 == rest
    ensures Parse(Tokens(c) + rest).value.0 == c <==> AmountsFit(c.vout)
  {
    hide Tokens, OutTokens, MaskTokens, ReadMask, ReadOuts, Filled, Windows, MaskSize, Code, Parse, NonZero, Left,
        IsPruned, Blocks, Trim, AmountsOk, AmountsFit;
    var vout := c.vout;
    Layout(c, rest);
    CodeFields(c);
    var code: nat, start, more := Code(c), [Left(vout, 0), Left(vout, 1)], [Int(c.height)] + rest;
    MaskReads(vout, OutTokens(vout, 0) + more);
    var avail := start + Windows(vout, 0, MaskSize(vout));
    AvailExact(vout);
    ReadOutsExact(vout, avail, 0, [], more);
    assert [] + Filled(vout, 0, |avail|) == Filled(vout, 0, |avail|);
    FilledTrims(vout, |avail|);
    ParseParts(Tokens(c) + rest, code, NonZero(vout, Blocks(vout)), start, avail, OutTokens(vout, 0) + more,
        Filled(vout, 0, |avail|), more);
    assert more[1..] == rest;
  }

  /** The header code: its low bits are the two flags and the first two outputs, the rest counts mask bytes. */
  lemma CodeFields(c: Coins)
    requires Code(c) >= 0
    ensures var code := Code(c);
      && (code % 2 == 1 <==> c.coinBase) && ((code / 2) % 2 == 1 <==> c.coinStake)
      && ((code / 4) % 2 == 1 <==> Left(c.vout, 0)) && ((code / 8) % 2 == 1 <==> Left(c.vout, 1))
      && code / 16 + (if Left(c.vout, 0) || Left(c.vout, 1) then 0 else 1) == NonZero(c.vout, Blocks(c.vout))
  {
    hide NonZero, Left;
    var first, second := Left(c.vout, 0), Left(c.vout, 1);
    CodeBits(NonZero(c.vout, Blocks(c.vout)) - (if first || second then 0 else 1), c.coinBase, c.coinStake, first,
        second);
  }

  lemma CodeBits(k: int, p: bool, q: bool, r: bool, s: bool)
    requires 16 * k + (if p then 1 else 0) + (if q then 2 else 0) + (if r then 4 else 0) + (if s then 8 else 0) >= 0
    ensures var code := 16 * k + (if p then 1 else 0) + (if q then 2 else 0) + (if r then 4 else 0)
        + (if s then 8 else 0);
      (code % 2 == 1 <==> p) && ((code / 2) % 2 == 1 <==> q) && ((code / 4) % 2 == 1 <==> r)
          && ((code / 8) % 2 == 1 <==> s) && code / 16 == k
  {
    var c3 := 2 * k + if s then 1 else 0;
    var c2 := 2 * c3 + if r then 1 else 0;
    var c1 := 2 * c2 + if q then 1 else 0;
    var code := 2 * c1 + if p then 1 else 0;
    LowBit(k, s);
    LowBit(c3, r);
    LowBit(c2, q);
    LowBit(c1, p);
    assert code / 4 == code / 2 / 2 && code / 8 == code / 2 / 2 / 2 && code / 16 == code / 2 / 2 / 2 / 2;
  }

  lemma LowBit(x: int, b: bool)
    ensures var y := 2 * x + if b then 1 else 0; y / 2 == x && (y % 2 == 1 <==> b)
  {
  }

  lemma MaskReads(vout: seq<TxOut>, tail: seq<Token>)
    ensures ReadMask(MaskTokens(vout, 0, MaskSize(vout)) + tail, NonZero(vout, Blocks(vout)),
        [Left(vout, 0), Left(vout, 1)])
         == Some(([Left(vout, 0), Left(vout, 1)] + Windows(vout, 0, MaskSize(vout)), tail))
  {
    hide ReadMask, MaskTokens, Windows, MaskByte;
    LastUsedExact(vout, Blocks(vout));
    NonZeroSplit(vout, 0, MaskSize(vout));
    ReadMaskExact(vout, 0, MaskSize(vout), [Left(vout, 0), Left(vout, 1)], tail);
  }

  lemma AvailExact(vout: seq<TxOut>)
    ensures var avail := [Left(vout, 0), Left(vout, 1)] + Windows(vout, 0, MaskSize(vout));
      && (forall k | 0 <= k < |avail| :: avail[k] == Left(vout, k)) && (forall k: nat | k >= |avail| :: !Left(vout, k))
  {
    hide MaskSize;
    var n := MaskSize(vout);
    var avail := [Left(vout, 0), Left(vout, 1)] + Windows(vout, 0, n);
    assert |avail| == 2 + 8 * n by { if n > 0 { WindowsAt(vout, 0, n, 0); } }
    forall k | 2 <= k < |avail| ensures avail[k] == Left(vout, k) {
      WindowsAt(vout, 0, n, k - 2);
    }
    forall k: nat | k >= |avail| ensures !Left(vout, k) {
      BeyondMask(vout, k);
    }
  }
}
