/** The `download @user/<hash>` command: find the lemon3 link of one cast,
    read its metadata document, and fetch the enclosed file from the public
    IPFS gateway. */
module Download {
  import opened Wrappers
  import Xdg
  import Config
  import opened Text
  import opened Json
  import opened Bytes
  import opened Farcaster
  import opened Lemon3Cast
  import FcClient
  import Lemon3Dag

  /** `@user/<hash>` */
  datatype CastRef = CastRef(username: string, hash: string)

  /** The argument is accepted when it splits on '/' into exactly two parts
      and the first starts with '@'. */
  function ParseCastRef(s: string): (r: Option<CastRef>)
    ensures r.Some? <==> |Split(s, '/')| == 2 && HasPrefix(Split(s, '/')[0], "@")
    ensures r.Some? ==> "@" + r.value.username + "/" + r.value.hash == s
  {
    var parts := Split(s, '/');
    if |parts| != 2 || !HasPrefix(parts[0], "@") then None
    else
      JoinSplit(s, '/');
      assert Join(parts, '/') == parts[0] + ['/'] + parts[1];
      Some(CastRef(TrimPrefix(parts[0], "@"), parts[1]))
  }

  /** Writing a reference out and parsing it gives it back, as long as
      neither part holds a '/'. */
  lemma ParseFormatted(username: string, hash: string)
    requires forall k :: 0 <= k < |username| ==> username[k] != '/'
    requires forall k :: 0 <= k < |hash| ==> hash[k] != '/'
    ensures ParseCastRef("@" + username + "/" + hash) == Some(CastRef(username, hash))
  {
    var s := "@" + username + "/" + hash;
    var u := "@" + username;
    assert s == u + ['/'] + hash;
    assert forall k :: 0 <= k < |u| ==> u[k] != '/' by {
      forall k | 0 <= k < |u| ensures u[k] != '/' {
        if k > 0 { assert u[k] == username[k - 1]; }
      }
    }
    assert s[|u|] == '/';
    assert forall k :: 0 <= k < |u| ==> s[k] == u[k];
    assert IndexOf(s, '/') == Some(|u|);
    assert s[..|u|] == u && s[|u| + 1..] == hash;
    assert IndexOf(hash, '/') == None;
    assert Split(s, '/') == [u, hash];
    PrefixOfConcat("@", username);
  }

  /** What the command found out about the file to fetch. */
  datatype Target = Target(enclosed: string, filename: string, size: int)

  /** The validation inlined in the command, after DagGet: the same checks as
      the library's, but the size is read only as a float64. */
  function ValidateDoc(doc: seq<Member>): (r: Result<Target>)
    ensures r.Ok? <==> Lemon3Dag.LinkField(doc, "enclosed").Some?
  {
    match Get(doc, "enclosed")
    case None => Err("[!] DAG does not contain 'enclosed' field.")
    case Some(field) =>
      if !field.JObject? then Err("[!] 'enclosed' field is not the expected type.")
      else match AsString(Get(field.members, "/"))
        case None => Err("[!] DAG does not contain valid 'enclosed' field.")
        case Some(enclosed) =>
          var filename := Lemon3Dag.StringField(doc, "filename");
          Ok(Target(enclosed, if filename == "" then enclosed else filename, FloatSize(Get(doc, "size"))))
  }

  /** `doc["size"].(float64)`, truncated; anything else gives 0. */
  function FloatSize(v: Option<Json>): (n: int)
    ensures forall r :: v == Some(JFloat(r)) ==> n == Truncate(r)
    ensures (v.None? || !v.value.JFloat?) ==> n == 0
  {
    if v.Some? && v.value.JFloat? then Truncate(v.value.r) else 0
  }

  /** The two validators accept the same documents and agree on the file
      and its name; they agree on the size unless the size is a non-zero
      int64, which a fetched document never holds. */
  lemma ValidatorsAgree(doc: seq<Member>)
    ensures ValidateDoc(doc).Ok? <==> Lemon3Dag.FromDoc(doc).Ok?
    ensures ValidateDoc(doc).Ok? ==>
              var t := ValidateDoc(doc).value;
              var m := Lemon3Dag.FromDoc(doc).value;
              t.enclosed == m.enclosed && t.filename == m.filename
              && (Get(doc, "size").None? || !Get(doc, "size").value.JInt? || Get(doc, "size").value.i == 0
                  ==> t.size == m.size)
  {
  }

  /** An integer-typed size reads as 0 in the command, where the library
      takes it as it is. */
  lemma IntegerSizeIgnored(doc: seq<Member>, n: int)
    requires ValidateDoc(doc).Ok? && Get(doc, "size") == Some(JInt(n))
    ensures ValidateDoc(doc).value.size == 0
    ensures Lemon3Dag.FromDoc(doc).value.size == n
  {
  }

  /** The public gateway's answer to a GET. */
  datatype HttpResponse = TransportError(msg: string) | Response(status: int, body: seq<byte>)

  /** The outside calls a run makes, in order. */
  datatype Effect =
    | GetEmbeds(username: string, hash: string)
    | DagGet(cid: string)
    | HttpGet(url: string)
    | WriteFile(path: string, data: seq<byte>)

  /** The calls a run made and the last line it printed. */
  datatype Run = Run(effects: seq<Effect>, message: string)

  const GatewayUrl: string := "https://ipfs.io/ipfs/"

  /** downloadFromIPFS: a GET on the gateway, and the body written to
      `outFile` only on status 200. `canCreate` says whether the file can be
      created. */
  function DownloadFromIpfs(cid: string, outFile: string, gateway: string -> HttpResponse,
                            canCreate: string -> bool): (r: Result<seq<Effect>>)
    ensures r.Ok? <==> gateway(GatewayUrl + cid).Response? && gateway(GatewayUrl + cid).status == 200
                       && canCreate(outFile)
    ensures r.Ok? ==> r.value == [HttpGet(GatewayUrl + cid), WriteFile(outFile, gateway(GatewayUrl + cid).body)]
  {
    var url := GatewayUrl + cid;
    match gateway(url)
    case TransportError(e) => Err(e)
    case Response(status, body) =>
      if status != 200 then Err("failed to fetch CID " + cid + ": HTTP " + IntToString(status))
      else if !canCreate(outFile) then Err("cannot create " + outFile)
      else Ok([HttpGet(url), WriteFile(outFile, body)])
  }

  /** The command. `configFile` is the path the configuration loader
      reports (Config.Load). The size is computed but only drives the
      progress display. */
  function Download(args: seq<string>, configFile: string, hub: Hub,
                    dagGet: string -> Result<seq<Member>>,
                    gateway: string -> HttpResponse, canCreate: string -> bool): (r: Run)
    ensures forall c :: DagGet(c) in r.effects ==> c != ""
    ensures forall p, d :: WriteFile(p, d) in r.effects ==>
              exists u :: HttpGet(u) in r.effects && gateway(u) == Response(200, d)
  {
    if |args| == 0 then Run([], "Usage: lemon3 download @user/<hash>")
    else if Config.SetupMissing(configFile) then Run([], "Please run \"lemon3 setup\" first.")
    else match ParseCastRef(args[0])
      case None => Run([], "Invalid cast format. Use @user/<hash>")
      case Some(ref) =>
        var asked := [GetEmbeds(ref.username, ref.hash)];
        match FcClient.CastGetEmbedUrls(hub, ref.username, ref.hash)
        case Err(e) => Run(asked, "[!] Failed to fetch cast: " + e)
        case Ok(urls) =>
          var cid := FirstLemon3Cid(urls);
          if cid == "" then Run(asked, "[!] Failed to extract CID from embeddeds.")
          else
            var rest := FetchAndSave(cid, dagGet, gateway, canCreate);
            Run(asked + rest.effects, rest.message)
  }

  /** The part of the command after the cid is known: DagGet, validation,
      and the download. */
  function FetchAndSave(cid: string, dagGet: string -> Result<seq<Member>>,
                        gateway: string -> HttpResponse, canCreate: string -> bool): (r: Run)
    requires cid != ""
    ensures |r.effects| > 0 && r.effects[0] == DagGet(cid)
    ensures forall c :: DagGet(c) in r.effects ==> c == cid
    ensures forall p, d :: WriteFile(p, d) in r.effects ==>
              exists u :: HttpGet(u) in r.effects && gateway(u) == Response(200, d)
  {
    match dagGet(cid)
    case Err(e) => Run([DagGet(cid)], "[!] Failed to fetch DAG: " + e)
    case Ok(doc) =>
      match ValidateDoc(doc)
      case Err(msg) => Run([DagGet(cid)], msg)
      case Ok(t) =>
        match DownloadFromIpfs(t.enclosed, t.filename, gateway, canCreate)
        case Err(e) => Run([DagGet(cid), HttpGet(GatewayUrl + t.enclosed)], "[!] Failed to download file: " + e)
        case Ok(effects) =>
          var url := GatewayUrl + t.enclosed;
          assert effects == [HttpGet(url), WriteFile(t.filename, gateway(url).body)];
          Run([DagGet(cid)] + effects, "[\U{2713}] Saved as " + t.filename)
  }

  /** A cast without a lemon3 link stops the command before any IPFS call. */
  lemma NoCidNoStorage(config: Xdg.Outcome, args: seq<string>, hub: Hub, dagGet: string -> Result<seq<Member>>,
                       gateway: string -> HttpResponse, canCreate: string -> bool)
    requires |args| > 0 && ParseCastRef(args[0]).Some?
    requires var ref := ParseCastRef(args[0]).value;
             var urls := FcClient.CastGetEmbedUrls(hub, ref.username, ref.hash);
             urls.Ok? && FirstLemon3Cid(urls.value) == ""
    ensures var r := Download(args, Config.Load(config), hub, dagGet, gateway, canCreate);
            |r.effects| == 1 && r.effects[0].GetEmbeds?
  {
  }

  /** A gateway answer other than 200 leaves no file behind. */
  lemma Non200WritesNothing(config: Xdg.Outcome, args: seq<string>, hub: Hub, dagGet: string -> Result<seq<Member>>,
                            gateway: string -> HttpResponse, canCreate: string -> bool)
    requires forall u :: gateway(u).Response? ==> gateway(u).status != 200
    ensures forall p, d :: WriteFile(p, d) !in Download(args, Config.Load(config), hub, dagGet, gateway, canCreate).effects
  {
  }

  /** Fetching a metadata document served back as stored writes the
      gateway's body under the metadata's file name. */
  lemma FetchStored(dagCid: string, m: Lemon3Dag.Metadata, content: seq<byte>,
                    dagGet: string -> Result<seq<Member>>, gateway: string -> HttpResponse,
                    canCreate: string -> bool)
    requires dagCid != "" && m.filename != ""
    requires dagGet(dagCid) == Ok(WireMembers(Lemon3Dag.ToDoc(m)))
    requires gateway(GatewayUrl + m.enclosed) == Response(200, content) && canCreate(m.filename)
    ensures FetchAndSave(dagCid, dagGet, gateway, canCreate)
            == Run([DagGet(dagCid), HttpGet(GatewayUrl + m.enclosed), WriteFile(m.filename, content)],
                   "[\U{2713}] Saved as " + m.filename)
  {
    var doc := WireMembers(Lemon3Dag.ToDoc(m));
    Lemon3Dag.ReadStored(m);
    ValidatorsAgree(doc);
    var t := ValidateDoc(doc).value;
    assert t.enclosed == m.enclosed && t.filename == m.filename;
  }

  /** Once the reference parses and the cast has a lemon3 link, the run
      continues with that link's cid. */
  lemma DownloadAfterCid(config: Xdg.Outcome, arg: string, username: string, hash: string, hub: Hub, cid: string,
                         dagGet: string -> Result<seq<Member>>, gateway: string -> HttpResponse,
                         canCreate: string -> bool)
    requires cid != ""
    requires ParseCastRef(arg) == Some(CastRef(username, hash))
    requires FcClient.CastGetEmbedUrls(hub, username, hash).Ok?
    requires FirstLemon3Cid(FcClient.CastGetEmbedUrls(hub, username, hash).value) == cid
    ensures Download([arg], Config.Load(config), hub, dagGet, gateway, canCreate)
            == Run([GetEmbeds(username, hash)] + FetchAndSave(cid, dagGet, gateway, canCreate).effects,
                   FetchAndSave(cid, dagGet, gateway, canCreate).message)
  {
  }

  /** The command finds the cid of a cast built by `Cast`. */
  lemma CidOfPostedCast(username: string, hash: string, hub: Hub, text: string, cid: string)
    requires var c := FcClient.CastGetEmbedUrls(hub, username, hash);
             c.Ok? && c.value == FcClient.NonEmpty(Urls(FcClient.CastBody(text, cid).embeds))
    ensures FirstLemon3Cid(FcClient.CastGetEmbedUrls(hub, username, hash).value) == cid
  {
    var urls := Urls(FcClient.CastBody(text, cid).embeds);
    FcClient.CastBodyRoundTrip(text, cid);
    FcClient.FirstLemon3CidNonEmpty(urls);
  }

  /** Downloading a cast posted with `Cast`, whose metadata document the
      node serves back as stored, writes the gateway's body under the
      metadata's file name. */
  lemma DownloadOfPostedCast(config: Xdg.Outcome, username: string, hash: string, hub: Hub, text: string,
                             dagCid: string,
                             m: Lemon3Dag.Metadata, content: seq<byte>,
                             dagGet: string -> Result<seq<Member>>, gateway: string -> HttpResponse,
                             canCreate: string -> bool)
    requires dagCid != "" && m.filename != ""
    requires forall k :: 0 <= k < |username| ==> username[k] != '/'
    requires forall k :: 0 <= k < |hash| ==> hash[k] != '/'
    requires var c := FcClient.CastGetEmbedUrls(hub, username, hash);
             c.Ok? && c.value == FcClient.NonEmpty(Urls(FcClient.CastBody(text, dagCid).embeds))
    requires dagGet(dagCid) == Ok(WireMembers(Lemon3Dag.ToDoc(m)))
    requires gateway(GatewayUrl + m.enclosed) == Response(200, content) && canCreate(m.filename)
    ensures Download(["@" + username + "/" + hash], Config.Load(config), hub, dagGet, gateway, canCreate)
            == Run([GetEmbeds(username, hash), DagGet(dagCid), HttpGet(GatewayUrl + m.enclosed),
                    WriteFile(m.filename, content)],
                   "[\U{2713}] Saved as " + m.filename)
  {
    var saved := [DagGet(dagCid), HttpGet(GatewayUrl + m.enclosed), WriteFile(m.filename, content)];
    assert [GetEmbeds(username, hash)] + saved
           == [GetEmbeds(username, hash), DagGet(dagCid), HttpGet(GatewayUrl + m.enclosed), WriteFile(m.filename, content)];
    var arg := "@" + username + "/" + hash;
    ParseFormatted(username, hash);
    CidOfPostedCast(username, hash, hub, text, dagCid);
    DownloadAfterCid(config, arg, username, hash, hub, dagCid, dagGet, gateway, canCreate);
    FetchStored(dagCid, m, content, dagGet, gateway, canCreate);
  }
}
