/**
 * Lowercase base16 (section 8 of RFC 4648) as Go's `fmt.Sprintf("%x", ...)` prints a byte
 * array, and the prefix-decoding behaviour of Go's `hex.DecodeString`.
 */
module Hex {
  import opened Wrappers

  newtype byte = x: int | 0 <= x < 256

  predicate IsLowerHexDigit(c: char) {
    '0' <= c <= '9' || 'a' <= c <= 'f'
  }

  /** Value of a hex digit; like Go's decoder, both cases of a-f are accepted. */
  function HexValue(c: char): (r: Option<int>)
    ensures r.Some? ==> 0 <= r.value < 16
    ensures r.Some? <==> IsLowerHexDigit(c) || 'A' <= c <= 'F'
  {
    if '0' <= c <= '9' then Some(c as int - '0' as int)
    else if 'a' <= c <= 'f' then Some(c as int - 'a' as int + 10)
    else if 'A' <= c <= 'F' then Some(c as int - 'A' as int + 10)
    else None
  }

  /** The lowercase digit printed for a nibble; decoding it gives the nibble back. */
  function HexDigit(v: int): (c: char)
    requires 0 <= v < 16
    ensures IsLowerHexDigit(c)
    ensures HexValue(c) == Some(v)
    ensures c == '0' <==> v == 0
  {
    if v < 10 then ('0' as int + v) as char else ('a' as int + (v - 10)) as char
  }

  /** The i-th nibble of a byte string, high nibble of each byte first. */
  function Nibble(bs: seq<byte>, i: int): int
    requires 0 <= i < 2 * |bs|
  {
    if i % 2 == 0 then bs[i / 2] as int / 16 else bs[i / 2] as int % 16
  }

  /** `%x` of a byte array: two lowercase digits per byte. */
  function EncodeHex(bs: seq<byte>): (s: string)
    ensures |s| == 2 * |bs|
    ensures forall i :: 0 <= i < |s| ==> IsLowerHexDigit(s[i])
  {
    if bs == [] then []
    else [HexDigit(bs[0] as int / 16), HexDigit(bs[0] as int % 16)] + EncodeHex(bs[1..])
  }

  /**
   * `hex.DecodeString` with its error ignored: the bytes decoded from the leading pairs
   * of valid digits, up to the first invalid digit or a trailing odd digit.
   */
  function DecodeHex(s: string): (bs: seq<byte>)
    ensures 2 * |bs| <= |s|
  {
    if |s| < 2 then []
    else match (HexValue(s[0]), HexValue(s[1]))
      case (Some(hi), Some(lo)) => [(hi * 16 + lo) as byte] + DecodeHex(s[2..])
      case _ => []
  }

  /** Each character of the encoding is the digit of the matching nibble. */
  lemma {:induction false} EncodeHexAt(bs: seq<byte>, i: int)
    requires 0 <= i < 2 * |bs|
    ensures EncodeHex(bs)[i] == HexDigit(Nibble(bs, i))
  {
    if i >= 2 {
      EncodeHexAt(bs[1..], i - 2);
      assert EncodeHex(bs)[i] == EncodeHex(bs[1..])[i - 2];
      assert bs[1..][(i - 2) / 2] == bs[i / 2];
    }
  }

  /** Decoding an encoding gives back every byte. */
  lemma {:induction false} DecodeEncodeHex(bs: seq<byte>)
    ensures DecodeHex(EncodeHex(bs)) == bs
  {
    if bs != [] {
      var s := EncodeHex(bs);
      var hi, lo := bs[0] as int / 16, bs[0] as int % 16;
      assert s[0] == HexDigit(hi) && s[1] == HexDigit(lo);
      assert s[2..] == EncodeHex(bs[1..]);
      DecodeEncodeHex(bs[1..]);
      assert (hi * 16 + lo) as byte == bs[0];
    }
  }

  /** Encoding the decoding of a lowercase string of whole pairs gives the string back. */
  lemma {:induction false} EncodeDecodeHex(s: string)
    requires |s| % 2 == 0
    requires forall i :: 0 <= i < |s| ==> IsLowerHexDigit(s[i])
    ensures |DecodeHex(s)| * 2 == |s|
    ensures EncodeHex(DecodeHex(s)) == s
  {
    if s != [] {
      var hi, lo := HexValue(s[0]).value, HexValue(s[1]).value;
      var b := (hi * 16 + lo) as byte;
      EncodeDecodeHex(s[2..]);
      assert DecodeHex(s) == [b] + DecodeHex(s[2..]);
      assert b as int / 16 == hi && b as int % 16 == lo;
      assert HexDigit(hi) == s[0] && HexDigit(lo) == s[1];
      assert s == [s[0], s[1]] + s[2..];
    }
  }
}
