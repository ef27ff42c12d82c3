/** Encoding and decoding Base58 in place, in buffers sized by the two ratios of logarithms. */
module Base58Codec {
  import opened Wrappers
  import opened Arithmetic
  import opened Digits
  import opened Base58

  function Zeros(z: nat): seq<nat> { seq(z, _ => 0) }

  lemma Padded(z: nat, t: seq<nat>, base: nat)
    requires t == [] || t[0] != 0
    ensures LeadingZeros(Zeros(z) + t) == z && Number(Zeros(z) + t, base) == Number(t, base)
  {
    var s := Zeros(z) + t;
    ZerosCount(s, z);
    DropZeros(s, z, base);
    assert s[z..] == t;
  }

  /** What is left of a number after its leading zeros. */
  lemma Stripped(s: seq<nat>, z: nat, base: nat)
    requires z <= |s| && (forall i | 0 <= i < z :: s[i] == 0) && (z < |s| ==> s[z] != 0)
    ensures LeadingZeros(s) == z && Number(s, base) == Number(s[z..], base)
  {
    ZerosCount(s, z);
    DropZeros(s, z, base);
  }

  lemma NumberLast(s: seq<nat>, k: nat, base: nat)
    requires k < |s|
    ensures Number(s[..k + 1], base) == Number(s[..k], base) * base + s[k]
  {
    assert s[..k + 1][..k] == s[..k];
  }

  /** The number of a prefix stays below what the buffer holds. */
  lemma PrefixFits(s: seq<nat>, k: nat, base: nat, limit: nat)
    requires base > 0 && k <= |s| && AreDigits(s, base) && Pow(base, |s|) <= limit
    ensures Number(s[..k], base) < limit
  {
    NumberBound(s[..k], base);
    PowGrows(base, k, |s|);
  }

  /** Append one more character's digit to a buffer that has room for all of them. */
  method PushDigit(buffer: array<nat>, base: nat, factor: nat, ghost s: seq<nat>, ghost k: nat, digit: nat)
    requires base > 0 && factor > 0 && AreDigits(buffer[..], base) && AreDigits(s, factor) && k < |s| && digit == s[k]
    requires Pow(factor, |s|) <= Pow(base, buffer.Length) && Number(buffer[..], base) == Number(s[..k], factor)
    modifies buffer
    ensures AreDigits(buffer[..], base) && Number(buffer[..], base) == Number(s[..k + 1], factor)
  {
    hide Pow, Number, Balanced;
    NumberLast(s, k, factor);
    PrefixFits(s, k + 1, factor, Pow(base, buffer.Length));
    ghost var was := buffer[..];
    var carry := MulAdd(buffer, base, factor, digit);
    NoCarry(buffer[..], was, base, factor, digit, carry);
    assert carry == 0;
  }

  method FirstNonZero(s: seq<nat>) returns (z: nat)
    ensures z <= |s| && (forall i | 0 <= i < z :: s[i] == 0) && (z < |s| ==> s[z] != 0)
  {
    z := 0;
    while z < |s| && s[z] == 0
      invariant z <= |s| && forall i | 0 <= i < z :: s[i] == 0
    {
      z := z + 1;
    }
  }

  // ----- encoding

  method EncodeBase58(bytes: seq<nat>) returns (str: string)
    requires AreDigits(bytes, 256)
    ensures IsBase58(str) && Stands(str, bytes)
  {
    hide Pow, Number, LeadingZeros, DigitOf, CharOf;
    var zeroes := FirstNonZero(bytes);
    Stripped(bytes, zeroes, 256);
    ghost var rest := bytes[zeroes..];
    var b58 := new nat[(|bytes| - zeroes) * 138 / 100 + 1](_ => 0);
    EncodeRoom(|rest|);
    EmptyNumber(b58[..], rest, 58, 256);
    var i := zeroes;
    while i < |bytes|
      invariant zeroes <= i <= |bytes| && AreDigits(b58[..], 58)
          && Number(b58[..], 58) == Number(rest[..i - zeroes], 256)
    {
      PushDigit(b58, 58, 256, rest, i - zeroes, bytes[i]);
      i := i + 1;
    }
    assert rest[..|rest|] == rest;
    str := ToText(zeroes, b58[..]);
  }

  lemma EmptyNumber(s: seq<nat>, t: seq<nat>, base: nat, other: nat)
    requires base > 0 && forall i | 0 <= i < |s| :: s[i] == 0
    ensures AreDigits(s, base) && Number(s, base) == Number(t[..0], other)
  {
    DropZeros(s, |s|, base);
  }

  /** Leading ones, then the digits without their own leading zeros. */
  method ToText(zeroes: nat, ds: seq<nat>) returns (str: string)
    requires AreDigits(ds, 58)
    ensures IsBase58(str) && LeadingZeros(Values(str)) == zeroes && Number(Values(str), 58) == Number(ds, 58)
  {
    hide Number, LeadingZeros, DigitOf, CharOf;
    var it := FirstNonZero(ds);
    Stripped(ds, it, 58);
    Padded(zeroes, ds[it..], 58);
    ghost var first := it;
    OneIsZero();
    str := seq(zeroes, _ => '1');
    while it < |ds|
      invariant first <= it <= |ds| && |str| == zeroes + it - first
      invariant forall k | 0 <= k < |str| :: DigitOf(str[k]) == Some(if k < zeroes then 0 else ds[first + k - zeroes])
    {
      CharDigit(ds[it]);
      str := str + [CharOf(ds[it])];
      it := it + 1;
    }
    assert Values(str) == Zeros(zeroes) + ds[first..];
  }

  lemma OneIsZero()
    ensures DigitOf('1') == Some(0)
  {
  }

  // ----- decoding

  /** What a C string holds: everything before the first null character. */
  function CString(s: string): (r: string)
    ensures |r| <= |s| && r == s[..|r|]
  {
    if s == [] || s[0] == '\0' then [] else [s[0]] + CString(s[1..])
  }

  /** Spaces, then base58 characters from `i` to `j`, then spaces. */
  ghost predicate Framed(s: string, i: nat, j: nat) {
    && i <= j <= |s|
    && (forall k | 0 <= k < i :: IsSpace(s[k])) && (forall k | j <= k < |s| :: IsSpace(s[k]))
    && (forall k | i <= k < j :: DigitOf(s[k]).Some?)
  }

  ghost predicate Decodes(s: string, i: nat, j: nat, bytes: seq<nat>) {
    Framed(s, i, j) && IsBase58(s[i..j]) && Stands(s[i..j], bytes)
  }

  lemma NotFramed(s: string, k: nat)
    requires k < |s| && !IsSpace(s[k]) && DigitOf(s[k]).None?
    ensures forall i: nat, j: nat :: !Framed(s, i, j)
  {
  }

  lemma NotFramedTwice(s: string, a: nat, b: nat, c: nat)
    requires a < b < c < |s| && !IsSpace(s[a]) && IsSpace(s[b]) && !IsSpace(s[c])
    ensures forall i: nat, j: nat :: !Framed(s, i, j)
  {
    forall i: nat, j: nat ensures !Framed(s, i, j) {
      if i <= b < j <= |s| && DigitOf(s[b]).Some? {
        DigitChar(s[b]);
      }
    }
  }

  method SkipSpaces(s: string, from: nat) returns (p: nat)
    requires from <= |s|
    ensures from <= p <= |s| && (forall k | from <= k < p :: IsSpace(s[k])) && (p < |s| ==> !IsSpace(s[p]))
  {
    p := from;
    while p < |s| && IsSpace(s[p])
      invariant from <= p <= |s| && forall k | from <= k < p :: IsSpace(s[k])
    {
      p := p + 1;
    }
  }

  /** A text decodes exactly if, spaces around it aside, it is made of base58 characters. */
  method DecodeBase58(str: string) returns (r: Option<seq<nat>>)
    ensures r.Some? ==> exists i: nat, j: nat :: Decodes(CString(str), i, j, r.value)
    ensures r.None? ==> forall i: nat, j: nat :: !Framed(CString(str), i, j)
  {
    hide Pow, Number, LeadingZeros, DigitOf, CharOf, IsSpace, CString, Stands;
    var s := CString(str);
    var start := SkipSpaces(s, 0);
    var first := start;
    while first < |s| && s[first] == '1'
      invariant start <= first <= |s| && forall k | start <= k < first :: s[k] == '1'
    {
      first := first + 1;
    }
    OneIsZero();
    var end, b256 := ReadDigits(s, first);
    if end < |s| && !IsSpace(s[end]) {
      NotFramed(s, end);
      return None;
    }
    var p := SkipSpaces(s, end);
    if p < |s| {
      NotFramedTwice(s, start, end, p);
      return None;
    }
    var it := FirstNonZero(b256[..]);
    r := Some(Zeros(first - start) + b256[it..]);
    DecodedText(s, start, first, end, b256[..], it);
    assert Decodes(s, start, end, r.value);
  }

  /** Convert characters until a space, the end, or one that is not in the alphabet. */
  method ReadDigits(s: string, first: nat) returns (end: nat, b256: array<nat>)
    requires first <= |s|
    ensures first <= end <= |s| && (end < |s| ==> IsSpace(s[end]) || DigitOf(s[end]).None?)
    ensures IsBase58(s[first..end]) && (forall k | first <= k < end :: !IsSpace(s[k]))
    ensures fresh(b256) && AreDigits(b256[..], 256) && Number(b256[..], 256) == Number(Values(s[first..end]), 58)
  {
    hide Pow, Number, DigitOf, IsSpace, Values;
    end := first;
    b256 := new nat[(|s| - first) * 733 / 1000 + 1](_ => 0);
    DecodeRoom(|s| - first);
    ghost var digits: seq<nat> := [];
    EmptyNumber(b256[..], digits, 256, 58);
    assert digits[..0] == digits;
    while end < |s| && !IsSpace(s[end]) && DigitOf(s[end]).Some?
      invariant first <= end <= |s| && forall k | first <= k < end :: DigitOf(s[k]).Some? && !IsSpace(s[k])
      invariant |digits| == end - first && AreDigits(digits, 58) && forall k | 0 <= k < |digits| ::
          digits[k] == DigitOf(s[first + k]).value
      invariant AreDigits(b256[..], 256) && Number(b256[..], 256) == Number(digits, 58)
    {
      DigitChar(s[end]);
      ghost var more := digits + [DigitOf(s[end]).value];
      assert more[..end - first] == digits && more[..end - first + 1] == more;
      RoomFor(end + 1 - first, |s| - first, Pow(256, b256.Length));
      PushDigit(b256, 256, 58, more, end - first, DigitOf(s[end]).value);
      digits := more;
      end := end + 1;
    }
    assert digits == Values(s[first..end]) by { ValuesAre(s[first..end], digits); }
  }

  lemma ValuesAre(s: string, ds: seq<nat>)
    requires |s| == |ds| && forall k | 0 <= k < |s| :: DigitOf(s[k]) == Some(ds[k])
    ensures IsBase58(s) && Values(s) == ds
  {
  }

  lemma RoomFor(k: nat, n: nat, limit: nat)
    requires k <= n && Pow(58, n) <= limit
    ensures Pow(58, k) <= limit
  {
    PowGrows(58, k, n);
  }

  lemma DecodedText(s: string, start: nat, first: nat, end: nat, buffer: seq<nat>, it: nat)
    requires start <= first <= end <= |s| && IsBase58(s[first..end])
    requires (forall k | start <= k < first :: s[k] == '1') && (first < end ==> s[first] != '1')
    requires AreDigits(buffer, 256) && Number(buffer, 256) == Number(Values(s[first..end]), 58)
    requires it <= |buffer| && (forall i | 0 <= i < it :: buffer[i] == 0) && (it < |buffer| ==> buffer[it] != 0)
    ensures IsBase58(s[start..end]) && Stands(s[start..end], Zeros(first - start) + buffer[it..])
  {
    hide Number, LeadingZeros, DigitOf, Values, Zeros;
    var z, digits := first - start, Values(s[first..end]);
    CoreValues(s, start, first, end);
    Padded(z, digits, 58);
    Stripped(buffer, it, 256);
    Padded(z, buffer[it..], 256);
    PaddedDigits(z, buffer[it..], 256);
  }

  lemma PaddedDigits(z: nat, t: seq<nat>, base: nat)
    requires AreDigits(t, base) && base > 0
    ensures AreDigits(Zeros(z) + t, base)
  {
  }

  lemma CoreValues(s: string, start: nat, first: nat, end: nat)
    requires start <= first <= end <= |s| && IsBase58(s[first..end])
    requires (forall k | start <= k < first :: s[k] == '1') && (first < end ==> s[first] != '1')
    ensures IsBase58(s[start..end]) && Values(s[start..end]) == Zeros(first - start) + Values(s[first..end])
    ensures var ds := Values(s[first..end]); ds == [] || ds[0] != 0
  {
    hide DigitOf;
    OneIsZero();
    var core, tail, z := s[start..end], s[first..end], first - start;
    assert forall k | z <= k < |core| :: core[k] == tail[k - z];
    assert Values(core) == Zeros(z) + Values(tail);
    if first < end {
      NotOne(s[first]);
    }
  }

  lemma NotOne(c: char)
    requires DigitOf(c).Some? && c != '1'
    ensures DigitOf(c).value != 0
  {
  }

  // ----- round trips

  lemma {:induction false} NoNull(s: string)
    requires IsBase58(s)
    ensures CString(s) == s
  {
    if s != [] {
      DigitChar(s[0]);
      NoNull(s[1..]);
    }
  }

  /** The base58 text between the spaces is the only one. */
  lemma FramedWhole(s: string, i: nat, j: nat)
    requires IsBase58(s) && Framed(s, i, j)
    ensures s[i..j] == s
  {
    hide DigitOf, IsSpace;
    if 0 < i {
      DigitChar(s[0]);
    } else if j < |s| {
      DigitChar(s[j]);
    }
  }

  /** Decoding undoes encoding for every byte string. */
  method EncodeThenDecode(bytes: seq<nat>) returns (back: Option<seq<nat>>)
    requires AreDigits(bytes, 256)
    ensures back == Some(bytes)
  {
    hide DigitOf, Stands, Number;
    var str := EncodeBase58(bytes);
    back := DecodeBase58(str);
    NoNull(str);
    assert Framed(str, 0, |str|);
    ghost var i: nat, j: nat :| Decodes(str, i, j, back.value);
    FramedWhole(str, i, j);
    OneByteString(str, bytes, back.value);
  }

  /** Encoding undoes decoding for every text of base58 characters. */
  method DecodeThenEncode(str: string) returns (bytes: Option<seq<nat>>, back: string)
    requires IsBase58(str)
    ensures bytes.Some? && back == str
  {
    hide DigitOf, Stands, Number;
    bytes := DecodeBase58(str);
    NoNull(str);
    assert Framed(str, 0, |str|);
    ghost var i: nat, j: nat :| Decodes(str, i, j, bytes.value);
    FramedWhole(str, i, j);
    Known(str, bytes.value);
    back := EncodeBase58(bytes.value);
    OneText(str, back, bytes.value);
  }

  lemma Known(str: string, bytes: seq<nat>)
    requires IsBase58(str) && Stands(str, bytes)
    ensures AreDigits(bytes, 256)
  {
  }
}
