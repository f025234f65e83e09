/** The command-line Farcaster client: posting a lemon3 cast and reading
    casts back from a hub. */
module FcClient {
  import opened Wrappers
  import opened Bytes
  import opened Text
  import opened Farcaster
  import opened Lemon3Cast
  import Lemon3Dag
  import Json

  /** The web gateway whose URL is placed before the lemon3 link. */
  const GatewayPrefix: string := "https://lemon3.vrypan.workers.dev/"

  /** The longest text a plain cast may carry; longer texts make a long
      cast. */
  const MaxCastText: nat := 320

  /** The body of a lemon3 cast: the text and two URL embeds, the gateway
      link and then the lemon3 link. */
  function CastBody(text: string, cid: string): (b: CastAddBody)
    ensures Urls(b.embeds) == [GatewayPrefix + cid, Lemon3Scheme + cid]
    ensures b.castType == PlainCast <==> |text| <= MaxCastText
    ensures b.text == text && b.mentions == [] && b.mentionsPositions == []
  {
    CastAddBody(text, [], [], [UrlEmbed(GatewayPrefix + cid), UrlEmbed(Lemon3Scheme + cid)],
                if |text| <= MaxCastText then PlainCast else LongCast)
  }

  /** The gateway link is never mistaken for a lemon3 link. */
  lemma GatewayIsNotLemon3(cid: string)
    ensures !IsLemon3Url(GatewayPrefix + cid)
  {
    assert (GatewayPrefix + cid)[0] == 'h';
    HasPrefixHead(GatewayPrefix + cid, Lemon3Scheme);
  }

  /** Reading the lemon3 cid of a cast this client builds gives back the cid
      it was built with. */
  lemma CastBodyRoundTrip(text: string, cid: string)
    ensures L3CidFromCast(CastBody(text, cid)) == cid
  {
    var urls := Urls(CastBody(text, cid).embeds);
    GatewayIsNotLemon3(cid);
    PrefixOfConcat(Lemon3Scheme, cid);
    assert IsLemon3Url(urls[1]);
  }

  /** A cast message carrying the body `CastBody` builds, whose cid the
      node serves as the document of a readable metadata record, reads back
      as a lemon3 cast with that cid and that record. */
  lemma PostedCastReadsBack(msg: Message, text: string, cid: string, m: Lemon3Dag.Metadata,
                            dagGet: string -> Result<seq<Json.Member>>)
    requires msg.data.body == AddBody(CastBody(text, cid))
    requires cid != "" && dagGet(cid) == Ok(Lemon3Dag.ToDoc(m)) && Lemon3Dag.Readable(m)
    ensures var r := FromPbMessage(msg, dagGet);
            r.Ok? && r.value.Some? && r.value.value.lemon3Cid == cid
            && r.value.value.lemon3Data == m && r.value.value.text == text
  {
    CastBodyRoundTrip(text, cid);
    Lemon3Dag.ReadToDoc(m);
  }

  /** The data of the cast message: a mainnet CAST_ADD by `fid`, stamped
      with the time in seconds since the Farcaster epoch, cut to 32 bits. */
  function CastData(fid: nat, text: string, cid: string, now: int): (d: MessageData)
    ensures d.msgType == CastAdd && d.fid == fid && d.network == Mainnet
    ensures 0 <= now - FarcasterEpoch < TwoTo32 ==> d.timestamp + FarcasterEpoch == now
    ensures CastAddBodyOf(d) == CastBody(text, cid)
  {
    MessageData(CastAdd, fid, ToUint32(now - FarcasterEpoch), Mainnet, AddBody(CastBody(text, cid)))
  }

  /** Cast. `key` is the hex private seed behind a two-character prefix
      assumed to be "0x"; `now` is the Unix time. The result is the hex hash
      the hub gives the accepted message. Fatal errors of the program are
      error results here. */
  function Cast(hub: Hub, crypto: Crypto, username: string, key: string, text: string,
                cid: string, now: int): (r: Result<string>)
    ensures r.Ok? ==> |key| >= 2 && HexDecode(key[2..]).Some? && |HexDecode(key[2..]).value| == 32
    ensures r.Ok? ==> hub.fidByUsername(username).Ok?
    ensures r.Ok? ==>
              var seed := HexDecode(key[2..]).value;
              var sent := CreateMessage(CastData(hub.fidByUsername(username).value, text, cid, now), seed, crypto);
              hub.submit(sent).Ok? && r.value == HexEncode(hub.submit(sent).value.hash)
    ensures r.Ok? <==>
              && |key| >= 2 && HexDecode(key[2..]).Some? && |HexDecode(key[2..]).value| == 32
              && hub.fidByUsername(username).Ok?
              && hub.submit(CreateMessage(CastData(hub.fidByUsername(username).value, text, cid, now),
                                          HexDecode(key[2..]).value, crypto)).Ok?
    ensures |key| >= 2 && HexDecode(key[2..]).Some? && |HexDecode(key[2..]).value| == 32
            && hub.fidByUsername(username).Err? ==>
              r == Err("Unable to get FID for " + username + ": " + hub.fidByUsername(username).msg)
  {
    if |key| < 2 then Err("slice bounds out of range")
    else match HexDecode(key[2..])
      case None => Err("Private key error")
      case Some(seed) =>
        if |seed| != 32 then Err("ed25519: bad seed length")
        else match hub.fidByUsername(username)
          case Err(e) => Err("Unable to get FID for " + username + ": " + e)
          case Ok(fid) =>
            var sent := CreateMessage(CastData(fid, text, cid, now), seed, crypto);
            match hub.submit(sent)
            case Err(e) => Err("Error submitting message: " + e)
            case Ok(accepted) => Ok(HexEncode(accepted.hash))
  }

  /** The non-empty strings of `us`, in order. */
  function NonEmpty(us: seq<string>): (r: seq<string>)
    ensures |r| <= |us|
    ensures forall u :: u in r <==> u in us && u != ""
  {
    if |us| == 0 then []
    else if us[0] == "" then NonEmpty(us[1..])
    else [us[0]] + NonEmpty(us[1..])
  }

  /** The filter works piecewise, so it keeps the non-empty strings in
      their original order. */
  lemma {:induction false} NonEmptyAppend(a: seq<string>, b: seq<string>)
    ensures NonEmpty(a + b) == NonEmpty(a) + NonEmpty(b)
  {
    if |a| > 0 {
      assert (a + b)[0] == a[0] && (a + b)[1..] == a[1..] + b;
      NonEmptyAppend(a[1..], b);
    } else {
      assert a + b == b;
    }
  }

  /** Dropping empty URLs does not change which lemon3 link comes first. */
  lemma {:induction false} FirstLemon3CidNonEmpty(us: seq<string>)
    ensures FirstLemon3Cid(NonEmpty(us)) == FirstLemon3Cid(us)
  {
    if |us| > 0 {
      FirstLemon3CidNonEmpty(us[1..]);
      if us[0] == "" {
        assert !IsLemon3Url(us[0]);
      } else {
        assert NonEmpty(us)[0] == us[0] && NonEmpty(us)[1..] == NonEmpty(us[1..]);
      }
    }
  }

  /** CastGetEmbedUrls. `hash` is the cast hash behind a two-character
      prefix assumed to be "0x". */
  function CastGetEmbedUrls(hub: Hub, username: string, hash: string): (r: Result<seq<string>>)
    ensures r.Ok? ==> hub.fidByUsername(username).Ok? && |hash| >= 2 && HexDecode(hash[2..]).Some?
    ensures r.Ok? ==>
              var cast := hub.getCast(hub.fidByUsername(username).value, HexDecode(hash[2..]).value);
              cast.Ok? && r.value == NonEmpty(Urls(CastAddBodyOf(cast.value.data).embeds))
    ensures r.Ok? <==>
              && hub.fidByUsername(username).Ok? && |hash| >= 2 && HexDecode(hash[2..]).Some?
              && hub.getCast(hub.fidByUsername(username).value, HexDecode(hash[2..]).value).Ok?
    ensures hub.fidByUsername(username).Ok? && |hash| >= 2 && HexDecode(hash[2..]).None? ==>
              r == Err("Error parsing hash " + hash)
  {
    match hub.fidByUsername(username)
    case Err(e) => Err("Unable to get FID for " + username + ": " + e)
    case Ok(fid) =>
      if |hash| < 2 then Err("slice bounds out of range")
      else match HexDecode(hash[2..])
        case None => Err("Error parsing hash " + hash)
        case Some(hashBytes) =>
          match hub.getCast(fid, hashBytes)
          case Err(e) => Err("Failed to get cast: " + e)
          case Ok(cast) => Ok(NonEmpty(Urls(CastAddBodyOf(cast.data).embeds)))
  }

  /** GetCastsByFname: the user's casts, as the hub pages them. */
  function GetCastsByFname(hub: Hub, username: string, pageSize: nat, reverse: bool): (r: Result<seq<Message>>)
    ensures r.Ok? <==> hub.fidByUsername(username).Ok?
                       && hub.castsByFid(hub.fidByUsername(username).value, pageSize, reverse).Ok?
    ensures r.Ok? ==> r.value == hub.castsByFid(hub.fidByUsername(username).value, pageSize, reverse).value
  {
    match hub.fidByUsername(username)
    case Err(e) => Err("Unable to get FID for " + username + ": " + e)
    case Ok(fid) =>
      match hub.castsByFid(fid, pageSize, reverse)
      case Err(e) => Err("Failed to get casts for " + username + ": " + e)
      case Ok(msgs) => Ok(msgs)
  }
}
