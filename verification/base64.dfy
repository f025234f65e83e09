/** The standard base64 alphabet with `=` padding, section 4 of RFC 4648,
    as Go's `base64.StdEncoding` decodes it: carriage returns and line
    feeds are skipped, padding is mandatory and may only end the input, and
    unused trailing bits are not checked (the non-strict decoder). */
module Base64 {
  import opened Wrappers
  import opened Bytes

  /** The character of a 6-bit value: A-Z, a-z, 0-9, '+', '/'. */
  function Char(n: int): char
    requires 0 <= n < 64
  {
    if n < 26 then (('A' as int) + n) as char
    else if n < 52 then (('a' as int) + n - 26) as char
    else if n < 62 then (('0' as int) + n - 52) as char
    else if n == 62 then '+'
    else '/'
  }

  /** The 6-bit value of an alphabet character. */
  function Sextet(c: char): (r: Option<int>)
    ensures r.Some? ==> 0 <= r.value < 64
  {
    if 'A' <= c <= 'Z' then Some(c as int - 'A' as int)
    else if 'a' <= c <= 'z' then Some(c as int - 'a' as int + 26)
    else if '0' <= c <= '9' then Some(c as int - '0' as int + 52)
    else if c == '+' then Some(62)
    else if c == '/' then Some(63)
    else None
  }

  lemma SextetOfChar(n: int)
    requires 0 <= n < 64
    ensures Sextet(Char(n)) == Some(n)
    ensures Char(n) != '=' && Char(n) != '\r' && Char(n) != '\n'
  {
  }

  /** Encoding: three bytes to four characters, a short final group padded
      with '='. */
  function Encode(bs: seq<byte>): (s: string)
    ensures |s| % 4 == 0
    ensures |bs| > 0 <==> |s| > 0
  {
    if |bs| == 0 then ""
    else if |bs| == 1 then
      [Char(bs[0] / 4), Char((bs[0] % 4) * 16), '=', '=']
    else if |bs| == 2 then
      [Char(bs[0] / 4), Char((bs[0] % 4) * 16 + bs[1] / 16), Char((bs[1] % 16) * 4), '=']
    else
      [Char(bs[0] / 4), Char((bs[0] % 4) * 16 + bs[1] / 16),
       Char((bs[1] % 16) * 4 + bs[2] / 64), Char(bs[2] % 64)] + Encode(bs[3..])
  }

  /** The input with every '\r' and '\n' removed. */
  function DropNewlines(s: string): (r: string)
    ensures forall k :: 0 <= k < |r| ==> r[k] != '\r' && r[k] != '\n'
  {
    if |s| == 0 then ""
    else if s[0] == '\r' || s[0] == '\n' then DropNewlines(s[1..])
    else [s[0]] + DropNewlines(s[1..])
  }

  lemma {:induction false} DropNewlinesNone(s: string)
    requires forall k :: 0 <= k < |s| ==> s[k] != '\r' && s[k] != '\n'
    ensures DropNewlines(s) == s
  {
    if |s| > 0 {
      DropNewlinesNone(s[1..]);
      assert s == [s[0]] + s[1..];
    }
  }

  function Triple(a: int, b: int, c: int, d: int): seq<byte>
    requires 0 <= a < 64 && 0 <= b < 64 && 0 <= c < 64 && 0 <= d < 64
  {
    [a * 4 + b / 16, (b % 16) * 16 + c / 4, (c % 4) * 64 + d]
  }

  /** A group of four alphabet characters. */
  function DecodeFull(q: string): Option<seq<byte>>
    requires |q| == 4
  {
    match (Sextet(q[0]), Sextet(q[1]), Sextet(q[2]), Sextet(q[3]))
    case (Some(a), Some(b), Some(c), Some(d)) => Some(Triple(a, b, c, d))
    case _ => None
  }

  /** The last group, which may end in one or two '='. */
  function DecodeFinal(q: string): Option<seq<byte>>
    requires |q| == 4
  {
    if q[2] == '=' && q[3] == '=' then
      match (Sextet(q[0]), Sextet(q[1]))
      case (Some(a), Some(b)) => Some([(a * 4 + b / 16) as byte])
      case _ => None
    else if q[3] == '=' then
      match (Sextet(q[0]), Sextet(q[1]), Sextet(q[2]))
      case (Some(a), Some(b), Some(c)) => Some([(a * 4 + b / 16) as byte, ((b % 16) * 16 + c / 4) as byte])
      case _ => None
    else DecodeFull(q)
  }

  function DecodeGroups(s: string): Option<seq<byte>>
    decreases |s|
  {
    if |s| == 0 then Some([])
    else if |s| < 4 then None
    else if |s| == 4 then DecodeFinal(s)
    else match DecodeFull(s[..4])
      case None => None
      case Some(head) =>
        match DecodeGroups(s[4..])
        case None => None
        case Some(tail) => Some(head + tail)
  }

  /** base64.StdEncoding.DecodeString */
  function Decode(s: string): Option<seq<byte>> {
    DecodeGroups(DropNewlines(s))
  }

  lemma EncodeAlphabet(bs: seq<byte>)
    ensures forall k :: 0 <= k < |Encode(bs)| ==> Encode(bs)[k] != '\r' && Encode(bs)[k] != '\n'
  {
    if |bs| >= 3 {
      EncodeAlphabet(bs[3..]);
    }
  }

  /** Decoding the encoding of a byte string gives it back. */
  lemma {:induction false} RoundTrip(bs: seq<byte>)
    ensures Decode(Encode(bs)) == Some(bs)
  {
    EncodeAlphabet(bs);
    DropNewlinesNone(Encode(bs));
    GroupsRoundTrip(bs);
  }

  lemma OneByteGroup(x: byte)
    ensures DecodeFinal([Char(x / 4), Char((x % 4) * 16), '=', '=']) == Some([x])
  {
    var a, b := x / 4, (x % 4) * 16;
    SextetOfChar(a);
    SextetOfChar(b);
    assert a * 4 + b / 16 == x;
  }

  lemma TwoByteGroup(x: byte, y: byte)
    ensures DecodeFinal([Char(x / 4), Char((x % 4) * 16 + y / 16), Char((y % 16) * 4), '=']) == Some([x, y])
  {
    var a, b, c := x / 4, (x % 4) * 16 + y / 16, (y % 16) * 4;
    SextetOfChar(a);
    SextetOfChar(b);
    SextetOfChar(c);
    assert a * 4 + b / 16 == x;
    assert b % 16 == y / 16;
    assert c / 4 == y % 16;
  }

  lemma ThreeByteGroup(x: byte, y: byte, z: byte)
    ensures DecodeFull([Char(x / 4), Char((x % 4) * 16 + y / 16), Char((y % 16) * 4 + z / 64), Char(z % 64)])
            == Some([x, y, z])
  {
    var a, b, c, d := x / 4, (x % 4) * 16 + y / 16, (y % 16) * 4 + z / 64, z % 64;
    SextetOfChar(a);
    SextetOfChar(b);
    SextetOfChar(c);
    SextetOfChar(d);
    assert a * 4 + b / 16 == x;
    assert b % 16 == y / 16;
    assert c / 4 == y % 16;
    assert c % 4 == z / 64;
  }

  lemma ThreeByteGroupFinal(x: byte, y: byte, z: byte)
    ensures DecodeFinal([Char(x / 4), Char((x % 4) * 16 + y / 16), Char((y % 16) * 4 + z / 64), Char(z % 64)])
            == Some([x, y, z])
  {
    ThreeByteGroup(x, y, z);
    SextetOfChar(z % 64);
  }

  function Group(x: byte, y: byte, z: byte): string {
    [Char(x / 4), Char((x % 4) * 16 + y / 16), Char((y % 16) * 4 + z / 64), Char(z % 64)]
  }

  lemma {:induction false} GroupsRoundTrip(bs: seq<byte>)
    ensures DecodeGroups(Encode(bs)) == Some(bs)
  {
    if |bs| == 1 {
      OneByteRoundTrip(bs);
    } else if |bs| == 2 {
      TwoByteRoundTrip(bs);
    } else if |bs| >= 3 {
      var g := Group(bs[0], bs[1], bs[2]);
      var rest := Encode(bs[3..]);
      assert Encode(bs) == g + rest;
      GroupsRoundTrip(bs[3..]);
      GroupStep(bs[0], bs[1], bs[2], bs[3..], rest);
      assert bs == [bs[0], bs[1], bs[2]] + bs[3..];
    }
  }

  lemma OneByteRoundTrip(bs: seq<byte>)
    requires |bs| == 1
    ensures DecodeGroups(Encode(bs)) == Some(bs)
  {
    OneByteGroup(bs[0]);
    assert Encode(bs) == [Char(bs[0] / 4), Char((bs[0] % 4) * 16), '=', '='];
    assert bs == [bs[0]];
  }

  lemma TwoByteRoundTrip(bs: seq<byte>)
    requires |bs| == 2
    ensures DecodeGroups(Encode(bs)) == Some(bs)
  {
    TwoByteGroup(bs[0], bs[1]);
    assert Encode(bs) == [Char(bs[0] / 4), Char((bs[0] % 4) * 16 + bs[1] / 16), Char((bs[1] % 16) * 4), '='];
    assert bs == [bs[0], bs[1]];
  }

  lemma GroupStep(x: byte, y: byte, z: byte, tail: seq<byte>, rest: string)
    requires rest == Encode(tail)
    requires DecodeGroups(rest) == Some(tail)
    ensures DecodeGroups(Group(x, y, z) + rest) == Some([x, y, z] + tail)
  {
    var s := Group(x, y, z) + rest;
    if |rest| == 0 {
      ThreeByteGroupFinal(x, y, z);
      assert s == Group(x, y, z);
      assert tail == [];
      assert [x, y, z] + tail == [x, y, z];
    } else {
      ThreeByteGroup(x, y, z);
      assert s[..4] == Group(x, y, z);
      assert s[4..] == rest;
    }
  }
}
