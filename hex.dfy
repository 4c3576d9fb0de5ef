/**
 * Bytes and their lowercase hexadecimal encoding, as produced by Go's
 * hex.EncodeToString: two lowercase hex digits per byte, high nibble first.
 */
module Hex {
  import opened Wrappers

  newtype byte = x: int | 0 <= x < 256

  const Digits: string := "0123456789abcdef"

  predicate IsLowerHexDigit(c: char) {
    '0' <= c <= '9' || 'a' <= c <= 'f'
  }

  function Digit(v: int): (c: char)
    requires 0 <= v < 16
    ensures IsLowerHexDigit(c)
  {
    Digits[v]
  }

  /** The inverse of Digit on the sixteen lowercase digits. */
  function DigitValue(c: char): (v: int)
    requires IsLowerHexDigit(c)
    ensures 0 <= v < 16 && Digit(v) == c
  {
    if c <= '9' then c as int - '0' as int else c as int - 'a' as int + 10
  }

  lemma DigitInjective(v: int)
    requires 0 <= v < 16
    ensures DigitValue(Digit(v)) == v
  {
  }

  /** hex.EncodeToString */
  function Encode(bs: seq<byte>): (s: string)
    ensures |s| == 2 * |bs|
    ensures forall i :: 0 <= i < |s| ==> IsLowerHexDigit(s[i])
    ensures forall i :: 0 <= i < |bs| ==>
      s[2 * i] == Digit(bs[i] as int / 16) && s[2 * i + 1] == Digit(bs[i] as int % 16)
  {
    if bs == [] then []
    else
      var rest := Encode(bs[1..]);
      assert forall i :: 1 <= i < |bs| ==> bs[i] == bs[1..][i - 1];
      [Digit(bs[0] as int / 16), Digit(bs[0] as int % 16)] + rest
  }

  /** Reads an even-length string of lowercase hex digits back into bytes. */
  function Decode(s: string): (r: Option<seq<byte>>)
    ensures r.Some? ==> 2 * |r.value| == |s|
    decreases |s|
  {
    if s == [] then Some([])
    else if |s| == 1 || !IsLowerHexDigit(s[0]) || !IsLowerHexDigit(s[1]) then None
    else
      match Decode(s[2..])
      case None => None
      case Some(rest) => Some([(16 * DigitValue(s[0]) + DigitValue(s[1])) as byte] + rest)
  }

  /** Decoding undoes encoding. */
  lemma {:induction false} DecodeEncode(bs: seq<byte>)
    ensures Decode(Encode(bs)) == Some(bs)
  {
    if bs != [] {
      var s := Encode(bs);
      var hi, lo := bs[0] as int / 16, bs[0] as int % 16;
      DigitInjective(hi);
      DigitInjective(lo);
      assert s[2..] == Encode(bs[1..]);
      DecodeEncode(bs[1..]);
      assert [bs[0]] + bs[1..] == bs;
    }
  }

  /** A byte built from two digits splits back into them. */
  lemma Nibbles(hi: int, lo: int)
    requires 0 <= hi < 16 && 0 <= lo < 16
    ensures (16 * hi + lo) / 16 == hi && (16 * hi + lo) % 16 == lo
  {
  }

  /** Encoding undoes decoding: every string Decode accepts is an encoding. */
  lemma {:induction false} EncodeDecode(s: string)
    requires Decode(s).Some?
    ensures Encode(Decode(s).value) == s
  {
    if s != [] {
      var hi, lo := DigitValue(s[0]), DigitValue(s[1]);
      Nibbles(hi, lo);
      var b := (16 * hi + lo) as byte;
      var rest := Decode(s[2..]).value;
      assert Decode(s).value == [b] + rest;
      EncodeDecode(s[2..]);
      assert ([b] + rest)[1..] == rest;
      assert Encode([b] + rest) == [Digit(hi), Digit(lo)] + s[2..];
      assert s == [s[0], s[1]] + s[2..];
    }
  }
}
