/**
 * Fixed-width big-endian byte encoding of integers (`int.to_bytes(len, 'big')`)
 * and lowercase hexadecimal rendering of bytes (`bytes.hex()`), with decoders
 * that invert them.
 */
module HexCodec {
  import opened Wrappers

  type byte = x: int | 0 <= x < 256

  function Pow256(k: nat): (p: nat)
    ensures p >= 1
  {
    if k == 0 then 1 else 256 * Pow256(k - 1)
  }

  /** The last `len` base-256 digits of `n`, most significant first. */
  function ToBytesBE(n: nat, len: nat): (bs: seq<byte>)
    ensures |bs| == len
  {
    if len == 0 then [] else ToBytesBE(n / 256, len - 1) + [n % 256]
  }

  /** The number a big-endian byte string denotes. */
  function FromBytesBE(bs: seq<byte>): nat {
    if bs == [] then 0 else FromBytesBE(bs[..|bs| - 1]) * 256 + bs[|bs| - 1]
  }

  lemma {:induction false} FromBytesBound(bs: seq<byte>)
    ensures FromBytesBE(bs) < Pow256(|bs|)
  {
    if bs != [] {
      FromBytesBound(bs[..|bs| - 1]);
    }
  }

  /** Encoding a number that fits and decoding it gives the number back. */
  lemma {:induction false} BytesRoundTrip(n: nat, len: nat)
    requires n < Pow256(len)
    ensures FromBytesBE(ToBytesBE(n, len)) == n
  {
    if len > 0 {
      BytesRoundTrip(n / 256, len - 1);
      var bs := ToBytesBE(n, len);
      assert bs[..|bs| - 1] == ToBytesBE(n / 256, len - 1);
    }
  }

  /** Decoding and re-encoding at the same width gives the bytes back. */
  lemma {:induction false} BytesRoundTripBack(bs: seq<byte>)
    ensures ToBytesBE(FromBytesBE(bs), |bs|) == bs
  {
    if bs != [] {
      var init := bs[..|bs| - 1];
      BytesRoundTripBack(init);
      var n := FromBytesBE(bs);
      assert n / 256 == FromBytesBE(init) && n % 256 == bs[|bs| - 1];
      assert bs == init + [bs[|bs| - 1]];
    }
  }

  /** `int.to_bytes(len, 'big')`: fails on a negative number or one too wide for `len` bytes. */
  function IntToBytes(n: int, len: nat): (r: Option<seq<byte>>)
    ensures r.Some? <==> 0 <= n < Pow256(len)
    ensures r.Some? ==> |r.value| == len && FromBytesBE(r.value) == n
  {
    if 0 <= n < Pow256(len) then
      BytesRoundTrip(n, len);
      Some(ToBytesBE(n, len))
    else None
  }

  const HexDigits: string := "0123456789abcdef"

  predicate IsLowerHex(c: char) {
    '0' <= c <= '9' || 'a' <= c <= 'f'
  }

  /** The value of a hexadecimal digit of either case. */
  function DigitValue(c: char): Option<nat> {
    if '0' <= c <= '9' then Some(c as int - '0' as int)
    else if 'a' <= c <= 'f' then Some(c as int - 'a' as int + 10)
    else if 'A' <= c <= 'F' then Some(c as int - 'A' as int + 10)
    else None
  }

  lemma DigitValueOfHexDigit(d: nat)
    requires d < 16
    ensures IsLowerHex(HexDigits[d]) && DigitValue(HexDigits[d]) == Some(d)
  {
  }

  /** `bytes.hex()`: two lowercase digits per byte, high nibble first. */
  function Hex(bs: seq<byte>): (s: string)
    ensures |s| == 2 * |bs|
    ensures forall i :: 0 <= i < |s| ==> IsLowerHex(s[i])
  {
    if bs == [] then ""
    else
      DigitValueOfHexDigit(bs[0] / 16);
      DigitValueOfHexDigit(bs[0] % 16);
      [HexDigits[bs[0] / 16], HexDigits[bs[0] % 16]] + Hex(bs[1..])
  }

  /** A strict decoder: an even number of hexadecimal digits, nothing else. */
  function UnHex(s: string): Option<seq<byte>>
    decreases |s|
  {
    if s == [] then Some([])
    else if |s| == 1 then None
    else match (DigitValue(s[0]), DigitValue(s[1]), UnHex(s[2..]))
      case (Some(hi), Some(lo), Some(rest)) =>
        if hi < 16 && lo < 16 then Some([hi * 16 + lo] + rest) else None
      case _ => None
  }

  lemma {:induction false} HexRoundTrip(bs: seq<byte>)
    ensures UnHex(Hex(bs)) == Some(bs)
  {
    if bs != [] {
      var b := bs[0];
      DigitValueOfHexDigit(b / 16);
      DigitValueOfHexDigit(b % 16);
      var hi := b / 16;
      var lo := b % 16;
      var s := Hex(bs);
      assert s[0] == HexDigits[hi] && s[1] == HexDigits[lo];
      assert s[2..] == Hex(bs[1..]);
      HexRoundTrip(bs[1..]);
      assert hi * 16 + lo == b;
      assert UnHex(s) == Some([hi * 16 + lo] + bs[1..]);
      assert [b] + bs[1..] == bs;
    }
  }
}
