/** Byte strings and their lowercase hexadecimal spelling (Go's
    `encoding/hex`, and the `%x` verb of `fmt` applied to a byte slice). */
module Bytes {
  import opened Wrappers

  type byte = x: int | 0 <= x < 256

  const HexDigits: string := "0123456789abcdef"

  predicate IsLowerHexDigit(c: char) {
    ('0' <= c <= '9') || ('a' <= c <= 'f')
  }

  function HexDigit(n: int): (c: char)
    requires 0 <= n < 16
    ensures IsLowerHexDigit(c)
  {
    HexDigits[n]
  }

  /** The value of one hexadecimal digit; `encoding/hex` accepts both
      cases. */
  function HexValue(c: char): Option<int> {
    if '0' <= c <= '9' then Some(c as int - '0' as int)
    else if 'a' <= c <= 'f' then Some(c as int - 'a' as int + 10)
    else if 'A' <= c <= 'F' then Some(c as int - 'A' as int + 10)
    else None
  }

  lemma HexValueOfDigit(n: int)
    requires 0 <= n < 16
    ensures HexValue(HexDigit(n)) == Some(n)
  {
  }

  /** hex.EncodeToString: two lowercase digits per byte, high nibble first. */
  function HexEncode(bs: seq<byte>): (s: string)
    ensures |s| == 2 * |bs|
    ensures forall k :: 0 <= k < |s| ==> IsLowerHexDigit(s[k])
  {
    if |bs| == 0 then ""
    else [HexDigit(bs[0] / 16), HexDigit(bs[0] % 16)] + HexEncode(bs[1..])
  }

  /** hex.DecodeString: fails on an odd length or a non-hex character. */
  function HexDecode(s: string): (r: Option<seq<byte>>)
    ensures r.Some? ==> 2 * |r.value| == |s|
  {
    if |s| == 0 then Some([])
    else if |s| == 1 then None
    else match (HexValue(s[0]), HexValue(s[1]))
      case (Some(h), Some(l)) =>
        (match HexDecode(s[2..])
         case Some(rest) => Some([(h * 16 + l) as byte] + rest)
         case None => None)
      case _ => None
  }

  /** Decoding the hexadecimal spelling of a byte string gives it back. */
  lemma {:induction false} HexRoundTrip(bs: seq<byte>)
    ensures HexDecode(HexEncode(bs)) == Some(bs)
  {
    if |bs| > 0 {
      var h, l := bs[0] / 16, bs[0] % 16;
      HexValueOfDigit(h);
      HexValueOfDigit(l);
      HexRoundTrip(bs[1..]);
      HexDecodePair(HexDigit(h), HexDigit(l), HexEncode(bs[1..]), h, l);
      assert HexEncode(bs) == [HexDigit(h), HexDigit(l)] + HexEncode(bs[1..]);
      assert bs == [bs[0]] + bs[1..];
    }
  }

  /** Decoding one digit pair in front of a decodable rest. */
  lemma HexDecodePair(a: char, b: char, t: string, x: int, y: int)
    requires HexValue(a) == Some(x) && HexValue(b) == Some(y) && 0 <= x < 16 && 0 <= y < 16
    requires HexDecode(t).Some?
    ensures HexDecode([a, b] + t) == Some([(x * 16 + y) as byte] + HexDecode(t).value)
  {
    assert ([a, b] + t)[2..] == t;
  }

  /** A string of odd length is never a hexadecimal byte string. */
  lemma HexDecodeOddLength(s: string)
    requires |s| % 2 == 1
    ensures HexDecode(s) == None
  {
  }
}
