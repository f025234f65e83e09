/** The hub-side helpers of the terminal interface: sending a cast with one
    link, and rewriting a message's JSON form for display, with base64 hash
    fields spelled as `0x` hex and timestamps as dates. */
module FcTools {
  import opened Wrappers
  import opened Bytes
  import opened Json
  import opened Farcaster
  import Base64

  /** The data of a cast with one URL embed: a mainnet CAST_ADD of the
      plain cast type, whatever the length of the text. */
  function SendCastData(fid: nat, body: string, link: string, now: int): (d: MessageData)
    ensures d.msgType == CastAdd && d.fid == fid && d.network == Mainnet
    ensures 0 <= now - FarcasterEpoch < TwoTo32 ==> d.timestamp + FarcasterEpoch == now
    ensures CastAddBodyOf(d).text == body && CastAddBodyOf(d).castType == PlainCast
    ensures Urls(CastAddBodyOf(d).embeds) == [link]
  {
    MessageData(CastAdd, fid, ToUint32(now - FarcasterEpoch), Mainnet,
                AddBody(CastAddBody(body, [], [], [UrlEmbed(link)], PlainCast)))
  }

  /** SendCast: builds, signs and submits the cast; the result is the data
      that was sent. A seed of the wrong length makes Ed25519 key
      derivation panic, which is an error result here. */
  function SendCast(hub: Hub, crypto: Crypto, fid: nat, privateKey: seq<byte>, body: string,
                    link: string, now: int): (r: Result<MessageData>)
    ensures r.Ok? <==> |privateKey| == 32
                       && hub.submit(CreateMessage(SendCastData(fid, body, link, now), privateKey, crypto)).Ok?
    ensures r.Ok? ==> r.value == SendCastData(fid, body, link, now)
  {
    if |privateKey| != 32 then Err("ed25519: bad seed length")
    else
      var data := SendCastData(fid, body, link, now);
      match hub.submit(CreateMessage(data, privateKey, crypto))
      case Err(e) => Err("Error submitting message: " + e)
      case Ok(_) => Ok(data)
  }

  /** MarshalOptions */
  datatype MarshalOptions = MarshalOptions(bytes2Hash: bool, timestamp2Date: bool)

  /** The keys whose base64 values are spelled as hex. */
  predicate IsHashKey(k: string) {
    k == "hash" || k == "signature" || k == "signer"
  }

  /** The replacement of a hash field: its standard base64 decoding spelled
      as `0x` and lowercase hex. A value that is not a string fails the
      type assertion; one that is not base64 panics. */
  function HashValue(v: Json): (r: Result<Json>)
    ensures r.Ok? <==> v.JString? && Base64.Decode(v.s).Some?
    ensures r.Ok? ==> r.value == JString("0x" + HexEncode(Base64.Decode(v.s).value))
  {
    if !v.JString? then Err("interface conversion: interface {} is not string")
    else match Base64.Decode(v.s)
      case None => Err("Field value is not base64")
      case Some(bs) => Ok(JString("0x" + HexEncode(bs)))
  }

  /** The replacement of a timestamp field: the number of seconds since the
      Farcaster epoch, truncated, as a Unix time written out by
      `formatTime`. A value that is not a float64 fails the type
      assertion. */
  function TimestampValue(v: Json, formatTime: int -> string): (r: Result<Json>)
    ensures r.Ok? <==> v.JFloat?
    ensures r.Ok? ==> r.value == JString(formatTime(Truncate(v.r) + FarcasterEpoch))
  {
    if !v.JFloat? then Err("interface conversion: interface {} is not float64")
    else Ok(JString(formatTime(Truncate(v.r) + FarcasterEpoch)))
  }

  /** replaceHashFields: the rewritten tree, or the panic that stops it. A
      replaced value is not descended into; every other object member and
      every array element is rewritten in turn, in order. */
  function Rewrite(j: Json, opts: MarshalOptions, formatTime: int -> string): (r: Result<Json>)
    decreases j, 1
    ensures j.JObject? ==>
              (r.Ok? <==> forall i :: 0 <= i < |j.members| ==> RewriteMember(j.members[i], opts, formatTime).Ok?)
    ensures r.Ok? && j.JObject? ==>
              r.value.JObject? && |r.value.members| == |j.members| && Keys(r.value.members) == Keys(j.members)
              && forall i :: 0 <= i < |j.members| ==>
                   r.value.members[i] == Member(j.members[i].key, RewriteMember(j.members[i], opts, formatTime).value)
    ensures j.JArray? ==>
              (r.Ok? <==> forall i :: 0 <= i < |j.items| ==> Rewrite(j.items[i], opts, formatTime).Ok?)
    ensures r.Ok? && j.JArray? ==>
              r.value.JArray? && |r.value.items| == |j.items|
              && forall i :: 0 <= i < |j.items| ==> r.value.items[i] == Rewrite(j.items[i], opts, formatTime).value
    ensures !j.JObject? && !j.JArray? ==> r == Ok(j)
  {
    match j
    case JObject(ms) =>
      (match RewriteMembers(ms, opts, formatTime)
       case Err(e) => Err(e)
       case Ok(ms') => Ok(JObject(ms')))
    case JArray(items) =>
      (match RewriteItems(items, opts, formatTime)
       case Err(e) => Err(e)
       case Ok(items') => Ok(JArray(items')))
    case _ => Ok(j)
  }

  /** One member's new value: an enabled hash key is decoded from base64,
      an enabled timestamp becomes a date, and any other value is
      rewritten in its turn. */
  function RewriteMember(m: Member, opts: MarshalOptions, formatTime: int -> string): (r: Result<Json>)
    decreases m, 2
    ensures opts.bytes2Hash && IsHashKey(m.key) ==>
              (r.Ok? <==> m.value.JString? && Base64.Decode(m.value.s).Some?)
              && (r.Ok? ==> r.value == JString("0x" + HexEncode(Base64.Decode(m.value.s).value)))
    ensures !(opts.bytes2Hash && IsHashKey(m.key)) && opts.timestamp2Date && m.key == "timestamp" ==>
              (r.Ok? <==> m.value.JFloat?)
              && (r.Ok? ==> r.value == JString(formatTime(Truncate(m.value.r) + FarcasterEpoch)))
    ensures (!(opts.bytes2Hash && IsHashKey(m.key)) && !(opts.timestamp2Date && m.key == "timestamp"))
            ==> r == Rewrite(m.value, opts, formatTime)
  {
    if opts.bytes2Hash && IsHashKey(m.key) then HashValue(m.value)
    else if opts.timestamp2Date && m.key == "timestamp" then TimestampValue(m.value, formatTime)
    else Rewrite(m.value, opts, formatTime)
  }

  /** The members rewritten one by one, keys and order kept; the first
      failure stops the walk. */
  function RewriteMembers(ms: seq<Member>, opts: MarshalOptions, formatTime: int -> string): (r: Result<seq<Member>>)
    decreases ms, 0
    ensures r.Ok? <==> forall i :: 0 <= i < |ms| ==> RewriteMember(ms[i], opts, formatTime).Ok?
    ensures r.Ok? ==> |r.value| == |ms| && Keys(r.value) == Keys(ms)
                      && forall i :: 0 <= i < |ms| ==>
                           r.value[i] == Member(ms[i].key, RewriteMember(ms[i], opts, formatTime).value)
  {
    if |ms| == 0 then Ok([])
    else match RewriteMember(ms[0], opts, formatTime)
      case Err(e) => Err(e)
      case Ok(v) =>
        match RewriteMembers(ms[1..], opts, formatTime)
        case Err(e) =>
          assert forall i :: 1 <= i < |ms| ==> ms[1..][i - 1] == ms[i];
          Err(e)
        case Ok(rest) =>
          assert forall i :: 1 <= i < |ms| ==> ms[1..][i - 1] == ms[i];
          Ok([Member(ms[0].key, v)] + rest)
  }

  /** The items rewritten one by one, in order; the first failure stops the
      walk. */
  function RewriteItems(items: seq<Json>, opts: MarshalOptions, formatTime: int -> string): (r: Result<seq<Json>>)
    decreases items, 0
    ensures r.Ok? <==> forall i :: 0 <= i < |items| ==> Rewrite(items[i], opts, formatTime).Ok?
    ensures r.Ok? ==> |r.value| == |items|
                      && forall i :: 0 <= i < |items| ==> r.value[i] == Rewrite(items[i], opts, formatTime).value
  {
    if |items| == 0 then Ok([])
    else match Rewrite(items[0], opts, formatTime)
      case Err(e) => Err(e)
      case Ok(v) =>
        match RewriteItems(items[1..], opts, formatTime)
        case Err(e) =>
          assert forall i :: 1 <= i < |items| ==> items[1..][i - 1] == items[i];
          Err(e)
        case Ok(rest) =>
          assert forall i :: 1 <= i < |items| ==> items[1..][i - 1] == items[i];
          Ok([v] + rest)
  }

  /** A field the rewrite cannot convert, somewhere it looks: an enabled
      hash key whose value is not a base64 string, or an enabled timestamp
      that is not a number. Replaced values are not looked into. */
  predicate BadField(j: Json, opts: MarshalOptions)
    decreases j, 1
  {
    match j
    case JObject(ms) => exists i :: 0 <= i < |ms| && BadMember(ms[i], opts)
    case JArray(items) => exists i :: 0 <= i < |items| && BadField(items[i], opts)
    case _ => false
  }

  predicate BadMember(m: Member, opts: MarshalOptions)
    decreases m, 2
  {
    if opts.bytes2Hash && IsHashKey(m.key) then !(m.value.JString? && Base64.Decode(m.value.s).Some?)
    else if opts.timestamp2Date && m.key == "timestamp" then !m.value.JFloat?
    else BadField(m.value, opts)
  }

  /** The rewrite fails exactly when the tree holds a field it cannot
      convert. */
  lemma {:induction false} RewriteFailsIff(j: Json, opts: MarshalOptions, formatTime: int -> string)
    decreases j, 1
    ensures Rewrite(j, opts, formatTime).Err? <==> BadField(j, opts)
  {
    match j
    case JObject(ms) =>
      forall i | 0 <= i < |ms|
        ensures RewriteMember(ms[i], opts, formatTime).Err? <==> BadMember(ms[i], opts)
      {
        RewriteMemberFailsIff(ms[i], opts, formatTime);
      }
    case JArray(items) =>
      forall i | 0 <= i < |items|
        ensures Rewrite(items[i], opts, formatTime).Err? <==> BadField(items[i], opts)
      {
        RewriteFailsIff(items[i], opts, formatTime);
      }
    case _ =>
  }

  lemma {:induction false} RewriteMemberFailsIff(m: Member, opts: MarshalOptions, formatTime: int -> string)
    decreases m, 2
    ensures RewriteMember(m, opts, formatTime).Err? <==> BadMember(m, opts)
  {
    if !(opts.bytes2Hash && IsHashKey(m.key)) && !(opts.timestamp2Date && m.key == "timestamp") {
      RewriteFailsIff(m.value, opts, formatTime);
    }
  }

  /** With both options off the tree comes back unchanged. */
  lemma {:induction false} RewriteOff(j: Json, formatTime: int -> string)
    decreases j, 1
    ensures Rewrite(j, MarshalOptions(false, false), formatTime) == Ok(j)
  {
    match j
    case JObject(ms) => RewriteMembersOff(ms, formatTime);
    case JArray(items) => RewriteItemsOff(items, formatTime);
    case _ =>
  }

  lemma {:induction false} RewriteMembersOff(ms: seq<Member>, formatTime: int -> string)
    decreases ms, 0
    ensures RewriteMembers(ms, MarshalOptions(false, false), formatTime) == Ok(ms)
  {
    if |ms| > 0 {
      RewriteOff(ms[0].value, formatTime);
      RewriteMembersOff(ms[1..], formatTime);
      assert [Member(ms[0].key, ms[0].value)] + ms[1..] == ms;
    }
  }

  lemma {:induction false} RewriteItemsOff(items: seq<Json>, formatTime: int -> string)
    decreases items, 0
    ensures RewriteItems(items, MarshalOptions(false, false), formatTime) == Ok(items)
  {
    if |items| > 0 {
      RewriteOff(items[0], formatTime);
      RewriteItemsOff(items[1..], formatTime);
      assert [items[0]] + items[1..] == items;
    }
  }

  /** A hash field written in base64 reads back, after the rewrite and
      without its `0x`, as the bytes it encoded. */
  lemma HashFieldRoundTrip(bs: seq<byte>, k: string, opts: MarshalOptions, formatTime: int -> string)
    requires opts.bytes2Hash && IsHashKey(k)
    ensures var r := RewriteMember(Member(k, JString(Base64.Encode(bs))), opts, formatTime);
            r.Ok? && r.value.JString? && |r.value.s| >= 2 && r.value.s[..2] == "0x"
            && HexDecode(r.value.s[2..]) == Some(bs)
  {
    Base64.RoundTrip(bs);
    HexRoundTrip(bs);
    var s := "0x" + HexEncode(bs);
    assert s[2..] == HexEncode(bs);
  }
}
