/** The casts the terminal interface lists: the message, its rendering and
    the rendering's height in lines, and the enclosure once it has been
    fetched. */
module CastItem {
  import opened Wrappers
  import opened Text
  import opened Farcaster
  import LocalDb
  import Enclosure
  import CastView

  datatype CastItem = CastItem(
    msg: Message,
    rendered: string,
    height: nat,
    enclosure: Option<Enclosure.Enclosure>)

  /** NewCastItem: not rendered yet, no enclosure. */
  function NewCastItem(msg: Message): (c: CastItem)
    ensures c.msg == msg && c.rendered == "" && c.height == 0 && c.enclosure.None?
  {
    CastItem(msg, "", 0, None)
  }

  /** What rendering needs besides the store: the hub for display names,
      and the terminal libraries' date formatting, word wrapping at 79
      columns, and `%.2f`-style size formatting. */
  datatype Renderer = Renderer(
    hub: Hub,
    formatTime: int -> string,
    wrap: string -> string,
    formatSize: Enclosure.ScaledSize -> string)

  /** The summary line under the text: the enclosure's name, type and size
      once it is loaded, otherwise the first URL as it is; nothing when
      there is no embed or its URL is empty. */
  function Summary(body: CastAddBody, enc: Option<Enclosure.Enclosure>,
                   formatSize: Enclosure.ScaledSize -> string): (s: string)
    ensures |body.embeds| == 0 || Url(body.embeds[0]) == "" <==> s == ""
    ensures s != "" && enc.None? ==> s == "\n" + Url(body.embeds[0])
    ensures s != "" && enc.Some? ==>
              HasPrefix(s, "\n" + enc.value.fileName + " " + enc.value.fileType + " ")
              && s[|"\n" + enc.value.fileName + " " + enc.value.fileType + " "|..]
                 == formatSize(Enclosure.HumanReadableSize(enc.value.size))
  {
    if |body.embeds| > 0 && Url(body.embeds[0]) != "" then
      if enc.Some? then
        var e := enc.value;
        var prefix := "\n" + e.fileName + " " + e.fileType + " ";
        PrefixOfConcat(prefix, formatSize(Enclosure.HumanReadableSize(e.size)));
        prefix + formatSize(Enclosure.HumanReadableSize(e.size))
      else "\n" + Url(body.embeds[0])
    else ""
  }

  /** Render: lays the cast out in its box and counts the box's lines. The
      store comes back after the display-name lookups. */
  function Render(db: seq<LocalDb.Entry>, r: Renderer, c: CastItem): (res: (Result<CastItem>, seq<LocalDb.Entry>))
    requires LocalDb.Sorted(db)
    ensures LocalDb.Sorted(res.1)
    ensures var body := CastAddBodyOf(c.msg.data);
            res.0.Ok? <==> CastView.ValidPositions(body.text, body.mentionsPositions, |body.mentions|, 0)
    ensures res.0.Ok? ==> res.0.value.msg == c.msg && res.0.value.enclosure == c.enclosure
                          && res.0.value.height == Count(res.0.value.rendered, '\n')
    ensures res.0.Ok? ==> exists out :: res.0.value.rendered == CastView.Framed(out)
                                        && res.0.value.height == Count(out, '\n') + 2
    ensures var body := CastAddBodyOf(c.msg.data);
            var (t, db1) := CastView.MentionText(db, r.hub, body);
            var (author, db2) := CastView.FidToFname(db1, r.hub, c.msg.data.fid);
            res.0.Ok? ==>
              res.1 == db2
              && res.0.value.rendered
                 == CastView.Framed(CastView.Header(author, c.msg.hash, c.msg.data.timestamp, r.formatTime)
                                    + r.wrap(t.value) + Summary(body, c.enclosure, r.formatSize))
  {
    var body := CastAddBodyOf(c.msg.data);
    var (text, db1) := CastView.MentionText(db, r.hub, body);
    match text
    case Err(e) => (Err(e), db1)
    case Ok(t) =>
      var (author, db2) := CastView.FidToFname(db1, r.hub, c.msg.data.fid);
      var out := CastView.Header(author, c.msg.hash, c.msg.data.timestamp, r.formatTime)
                 + r.wrap(t) + Summary(body, c.enclosure, r.formatSize);
      var rendered := CastView.Framed(out);
      CastView.FramedHeight(out);
      (Ok(c.(rendered := rendered, height := Count(rendered, '\n'))), db2)
  }

  /** The list draws a cast as FormatCast does, except below the text: a
      cast without embeds is drawn identically by both. */
  lemma RenderIsFormatCast(db: seq<LocalDb.Entry>, r: Renderer, c: CastItem)
    requires LocalDb.Sorted(db)
    requires |CastAddBodyOf(c.msg.data).embeds| == 0
    ensures var res := Render(db, r, c);
            var f := CastView.FormatCast(db, r.hub, c.msg, r.formatTime, r.wrap);
            res.1 == f.1 && (res.0.Ok? <==> f.0.Ok?)
            && (res.0.Ok? ==> res.0.value.rendered == f.0.value)
  {
    var body := CastAddBodyOf(c.msg.data);
    assert CastView.EmbedLines(body.embeds) == "";
    assert Summary(body, c.enclosure, r.formatSize) == "";
  }

  /** The cid a cast's first embed links to: the URL with the enclosure
      scheme removed, or the URL itself when it lacks the scheme. */
  function LinkedCid(body: CastAddBody): (cid: Option<string>)
    ensures cid.Some? <==> |body.embeds| > 0
  {
    if |body.embeds| == 0 then None
    else Some(TrimPrefix(Url(body.embeds[0]), Enclosure.EnclosureScheme))
  }

  /** GetEnclosure: looks the linked enclosure up (cache first, then IPFS)
      and keeps it, or forgets any earlier one on failure. A cast without
      embeds panics on the index. */
  function GetEnclosure(db: seq<LocalDb.Entry>, ipfs: Enclosure.IpfsNode, codec: Enclosure.JsonCodec,
                        c: CastItem): (res: (CastItem, Result<()>, seq<LocalDb.Entry>))
    requires LocalDb.Sorted(db)
    ensures LocalDb.Sorted(res.2)
    ensures res.0.msg == c.msg && res.0.rendered == c.rendered && res.0.height == c.height
    ensures LinkedCid(CastAddBodyOf(c.msg.data)).None? ==> res == (c, Err("index out of range"), db)
    ensures LinkedCid(CastAddBodyOf(c.msg.data)).Some? ==>
              var (found, db1) := Enclosure.FromCid(db, ipfs, codec, LinkedCid(CastAddBodyOf(c.msg.data)).value);
              res.2 == db1 && (res.1.Ok? <==> found.Ok?)
              && res.0.enclosure == (if found.Ok? then Some(found.value) else None)
  {
    match LinkedCid(CastAddBodyOf(c.msg.data))
    case None => (c, Err("index out of range"), db)
    case Some(cid) =>
      var (found, db1) := Enclosure.FromCid(db, ipfs, codec, cid);
      match found
      case Ok(e) => (c.(enclosure := Some(e)), Ok(()), db1)
      case Err(msg) => (c.(enclosure := None), Err(msg), db1)
  }

  /** A cast posted for an enclosure links back to it: the interface looks
      up the enclosure's own cid. */
  lemma PostedCastLinksEnclosure(e: Enclosure.Enclosure, hub: Option<Hub>, crypto: Crypto, fid: nat,
                                 privateKey: seq<Bytes.byte>, now: int, hash: seq<Bytes.byte>,
                                 signature: seq<Bytes.byte>, signer: seq<Bytes.byte>)
    requires Enclosure.Post(e, hub, crypto, fid, privateKey, now).Ok?
    ensures var d := Enclosure.Post(e, hub, crypto, fid, privateKey, now).value;
            LinkedCid(CastAddBodyOf(NewCastItem(Message(d, hash, signature, signer)).msg.data))
            == Some(e.enclosureCid)
  {
    var d := Enclosure.Post(e, hub, crypto, fid, privateKey, now).value;
    Enclosure.PostedLinkNamesEnclosure(e, hub, crypto, fid, privateKey, now);
    assert Url(CastAddBodyOf(d).embeds[0]) == Urls(CastAddBodyOf(d).embeds)[0];
  }
}
