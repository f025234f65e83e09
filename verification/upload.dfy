/** The `upload <file>` command: add the file and its artwork to IPFS, store
    a lemon3 metadata document pointing at both, wait until the public
    gateway serves it, and post a cast linking to it. */
module Upload {
  import opened Wrappers
  import Xdg
  import Config
  import opened Text
  import opened Json
  import opened Bytes
  import opened Farcaster
  import opened Paths
  import FcClient
  import Lemon3Dag

  /** The command's flags, with their defaults already applied. */
  datatype Flags = Flags(
    title: string,
    name: string,
    mime: string,
    description: string,
    artwork: string,
    cast: string)

  /** The default text of the cast. */
  const DefaultCastText: string := "Uploaded with lemon3"

  /** The gateway polled before casting. */
  const AvailabilityUrl: string := "https://ipfs.io/ipfs/"

  /** How many times the gateway is polled. */
  const WaitAttempts: nat := 10

  /** The local IPFS node as functions of their arguments: `addFile` gives
      the cid of an added file, the others say whether the call succeeded.
      `head(url, k)` says whether the `k`-th HEAD request on `url` answered
      200. */
  datatype Ipfs = Ipfs(
    addFile: string -> Result<string>,
    pin: string -> bool,
    dagPut: seq<Member> -> Result<string>,
    provide: string -> bool,
    head: (string, nat) -> bool)

  /** The outside calls a run makes, in order. */
  datatype Effect =
    | AddFile(path: string)
    | Pin(cid: string)
    | DagPut(doc: seq<Member>)
    | Provide(cid: string)
    | WaitFor(url: string)
    | PostCast(text: string, cid: string)

  /** The calls a run made and its result line: the error, or the
      posted cast's announcement. */
  datatype Run = Run(effects: seq<Effect>, message: string)

  /** The description: the flag as given, or, behind an '@', the text of
      standard input (`@-`) or of the named file, with the white space at
      both ends trimmed. */
  function Description(flag: string, stdin: Result<string>, readFile: string -> Result<string>): (r: Result<string>)
    ensures !HasPrefix(flag, "@") ==> r == Ok(flag)
    ensures flag == "@-" ==> (r.Ok? <==> stdin.Ok?)
    ensures HasPrefix(flag, "@") && flag != "@-" ==> (r.Ok? <==> readFile(flag[1..]).Ok?)
    ensures HasPrefix(flag, "@") && r.Ok? ==>
              |r.value| > 0 ==> !IsSpace(r.value[0]) && !IsSpace(r.value[|r.value| - 1])
  {
    if !HasPrefix(flag, "@") then Ok(flag)
    else
      var source := TrimPrefix(flag, "@");
      if source == "-" then
        match stdin
        case Err(e) => Err("Error reading description from stdin: " + e)
        case Ok(text) => TrimmedEnds(text); Ok(TrimSpace(text))
      else
        match readFile(source)
        case Err(e) => Err("Error reading description file: " + e)
        case Ok(text) => TrimmedEnds(text); Ok(TrimSpace(text))
  }

  /** TrimSpace leaves no white space at either end. */
  lemma TrimmedEnds(s: string)
    ensures var t := TrimSpace(s);
            |t| > 0 ==> !IsSpace(t[0]) && !IsSpace(t[|t| - 1])
  {
    var l := TrimLeftSpace(s);
    var t := TrimRightSpace(l);
    if |t| > 0 {
      assert t[0] == l[0];
    }
  }

  /** The metadata the command stores. `detectedMime` and `fileSize` are
      what detection and stat gave, "" and 0 when they failed. */
  function UploadMetadata(path: string, flags: Flags, detectedMime: string, fileSize: int,
                          description: string, cid: string, artworkCid: string): (m: Lemon3Dag.Metadata)
    ensures m.filename != ""
    ensures m.enclosed == cid && m.artwork == artworkCid && m.description == description
    ensures m.size == fileSize
  {
    Lemon3Dag.Metadata(
      if flags.title != "" then flags.title else Base(path),
      description,
      if flags.mime != "" then flags.mime else detectedMime,
      if flags.name != "" then flags.name else Base(path),
      fileSize,
      cid,
      artworkCid)
  }

  /** The title falls back to the file's own base name, even when `--name`
      renames the file; the flags win over what was detected. */
  lemma MetadataPrecedence(path: string, flags: Flags, detectedMime: string, fileSize: int,
                           description: string, cid: string, artworkCid: string)
    ensures var m := UploadMetadata(path, flags, detectedMime, fileSize, description, cid, artworkCid);
            (flags.title == "" ==> m.title == Base(path))
            && (flags.title != "" ==> m.title == flags.title)
            && (flags.name != "" ==> m.filename == flags.name)
            && (flags.name == "" ==> m.filename == Base(path))
            && (flags.mime != "" ==> m.mimeType == flags.mime)
            && (flags.mime == "" ==> m.mimeType == detectedMime)
  {
  }

  /** The stored document, fetched again, reads back as the metadata the
      command built. */
  lemma UploadedReadsBack(path: string, flags: Flags, detectedMime: string, fileSize: int,
                          description: string, cid: string, artworkCid: string)
    ensures var m := UploadMetadata(path, flags, detectedMime, fileSize, description, cid, artworkCid);
            Lemon3Dag.FromDoc(WireMembers(Lemon3Dag.ToDoc(m))) == Ok(m)
  {
    Lemon3Dag.ReadStored(UploadMetadata(path, flags, detectedMime, fileSize, description, cid, artworkCid));
  }

  /** Some HEAD request among the first `attempts` answered 200. */
  predicate Available(url: string, attempts: nat, head: (string, nat) -> bool) {
    exists k :: 1 <= k <= attempts && head(url, k)
  }

  /** WaitForCID: HEAD requests on the gateway, one per attempt, until one
      answers 200. `checks` is how many requests were made. The pauses
      between attempts are left out. */
  method WaitForCid(cid: string, attempts: nat, head: (string, nat) -> bool) returns (ok: bool, checks: nat)
    ensures ok <==> Available(AvailabilityUrl + cid, attempts, head)
    ensures ok ==> 1 <= checks <= attempts && head(AvailabilityUrl + cid, checks)
    ensures forall k :: 1 <= k < checks ==> !head(AvailabilityUrl + cid, k)
    ensures !ok ==> checks == attempts
  {
    var url := AvailabilityUrl + cid;
    var attempt := 1;
    checks := 0;
    while attempt <= attempts
      invariant 1 <= attempt <= attempts + 1
      invariant checks == attempt - 1
      invariant forall k :: 1 <= k < attempt ==> !head(url, k)
    {
      checks := attempt;
      if head(url, attempt) {
        return true, checks;
      }
      attempt := attempt + 1;
    }
    return false, checks;
  }

  /** The steps of the command: add and pin the file and
      the artwork, store, pin and announce the metadata, wait for it on the
      gateway, then cast. A panic or exit of the program is a run that ends
      with its message. */
  function Publish(path: string, flags: Flags, stdin: Result<string>,
                   readFile: string -> Result<string>, ipfs: Ipfs,
                   detectedMime: string, fileSize: int, hub: Hub, crypto: Crypto,
                   username: string, key: string, now: int): (r: Run)
    ensures forall t, c :: PostCast(t, c) in r.effects ==>
              t == flags.cast && Pin(c) in r.effects && Provide(c) in r.effects
              && ipfs.pin(c) && ipfs.provide(c) && Available(AvailabilityUrl + c, WaitAttempts, ipfs.head)
    ensures forall t, c :: PostCast(t, c) in r.effects ==>
              ipfs.addFile(path).Ok? && ipfs.pin(ipfs.addFile(path).value)
              && ipfs.addFile(flags.artwork).Ok? && ipfs.pin(ipfs.addFile(flags.artwork).value)
              && Description(flags.description, stdin, readFile).Ok?
              && ipfs.dagPut(Lemon3Dag.ToDoc(UploadMetadata(path, flags, detectedMime, fileSize,
                                                            Description(flags.description, stdin, readFile).value,
                                                            ipfs.addFile(path).value,
                                                            ipfs.addFile(flags.artwork).value))) == Ok(c)
  {
    match ipfs.addFile(path)
    case Err(e) => Run([AddFile(path)], e)
    case Ok(cid) =>
      var e1 := [AddFile(path), Pin(cid)];
      if !ipfs.pin(cid) then Run(e1, "[!] Failed to pin data!")
      else match ipfs.addFile(flags.artwork)
        case Err(e) => Run(e1 + [AddFile(flags.artwork)], e)
        case Ok(artworkCid) =>
          var e2 := e1 + [AddFile(flags.artwork), Pin(artworkCid)];
          if !ipfs.pin(artworkCid) then Run(e2, "[!] Failed to pin artwork!")
          else match Description(flags.description, stdin, readFile)
          case Err(e) => Run(e2, e)
          case Ok(description) =>
            var doc := Lemon3Dag.ToDoc(UploadMetadata(path, flags, detectedMime, fileSize,
                                                       description, cid, artworkCid));
            match ipfs.dagPut(doc)
            case Err(_) => Run(e2 + [DagPut(doc)], "[!] Failed to upload metadate!")
            case Ok(dagCid) =>
              Announce(dagCid, e2 + [DagPut(doc)], flags, ipfs, hub, crypto, username, key, now)
  }

  /** Every step of a successful run: when the file and the artwork are
      added and pinned, the description is read, and the document is stored,
      pinned, announced and found on the gateway, the run makes exactly the
      calls of the command in order and ends by posting the cast text with
      the document's cid. Its result line is the cast's error or its
      announcement. */
  lemma PublishFullRun(path: string, flags: Flags, stdin: Result<string>,
                       readFile: string -> Result<string>, ipfs: Ipfs,
                       detectedMime: string, fileSize: int, hub: Hub, crypto: Crypto,
                       username: string, key: string, now: int,
                       cid: string, artworkCid: string, description: string, dagCid: string)
    requires ipfs.addFile(path) == Ok(cid) && ipfs.pin(cid)
    requires ipfs.addFile(flags.artwork) == Ok(artworkCid) && ipfs.pin(artworkCid)
    requires Description(flags.description, stdin, readFile) == Ok(description)
    requires ipfs.dagPut(Lemon3Dag.ToDoc(UploadMetadata(path, flags, detectedMime, fileSize,
                                                        description, cid, artworkCid))) == Ok(dagCid)
    requires ipfs.pin(dagCid) && ipfs.provide(dagCid) && Available(AvailabilityUrl + dagCid, WaitAttempts, ipfs.head)
    ensures var r := Publish(path, flags, stdin, readFile, ipfs, detectedMime, fileSize, hub, crypto,
                             username, key, now);
            var doc := Lemon3Dag.ToDoc(UploadMetadata(path, flags, detectedMime, fileSize,
                                                      description, cid, artworkCid));
            r.effects == [AddFile(path), Pin(cid), AddFile(flags.artwork), Pin(artworkCid), DagPut(doc)]
                         + [Pin(dagCid), Provide(dagCid), WaitFor(AvailabilityUrl + dagCid),
                            PostCast(flags.cast, dagCid)]
    ensures var r := Publish(path, flags, stdin, readFile, ipfs, detectedMime, fileSize, hub, crypto,
                             username, key, now);
            var posted := FcClient.Cast(hub, crypto, username, key, flags.cast, dagCid, now);
            r.message == (if posted.Ok? then "[^] Cast posted: @" + username + "/0x" + posted.value
                          else posted.msg)
  {
    var doc := Lemon3Dag.ToDoc(UploadMetadata(path, flags, detectedMime, fileSize,
                                              description, cid, artworkCid));
    var before := [AddFile(path), Pin(cid), AddFile(flags.artwork), Pin(artworkCid), DagPut(doc)];
    PublishReachesAnnounce(path, flags, stdin, readFile, ipfs, detectedMime, fileSize, hub, crypto,
                           username, key, now, cid, artworkCid, description, dagCid);
  }

  /** Past the uploads and the description, a run is the announcement of
      the stored document. */
  lemma PublishReachesAnnounce(path: string, flags: Flags, stdin: Result<string>,
                               readFile: string -> Result<string>, ipfs: Ipfs,
                               detectedMime: string, fileSize: int, hub: Hub, crypto: Crypto,
                               username: string, key: string, now: int,
                               cid: string, artworkCid: string, description: string, dagCid: string)
    requires ipfs.addFile(path) == Ok(cid) && ipfs.pin(cid)
    requires ipfs.addFile(flags.artwork) == Ok(artworkCid) && ipfs.pin(artworkCid)
    requires Description(flags.description, stdin, readFile) == Ok(description)
    requires ipfs.dagPut(Lemon3Dag.ToDoc(UploadMetadata(path, flags, detectedMime, fileSize,
                                                        description, cid, artworkCid))) == Ok(dagCid)
    ensures var doc := Lemon3Dag.ToDoc(UploadMetadata(path, flags, detectedMime, fileSize,
                                                      description, cid, artworkCid));
            Publish(path, flags, stdin, readFile, ipfs, detectedMime, fileSize, hub, crypto, username, key, now)
            == Announce(dagCid, [AddFile(path), Pin(cid), AddFile(flags.artwork), Pin(artworkCid), DagPut(doc)],
                        flags, ipfs, hub, crypto, username, key, now)
  {
    var doc := Lemon3Dag.ToDoc(UploadMetadata(path, flags, detectedMime, fileSize,
                                              description, cid, artworkCid));
    assert [AddFile(path), Pin(cid)] + [AddFile(flags.artwork), Pin(artworkCid)] + [DagPut(doc)]
           == [AddFile(path), Pin(cid), AddFile(flags.artwork), Pin(artworkCid), DagPut(doc)];
  }

  /** The metadata is pinned, announced and waited for before the cast that
      links to it is posted. */
  function Announce(dagCid: string, before: seq<Effect>, flags: Flags, ipfs: Ipfs, hub: Hub,
                    crypto: Crypto, username: string, key: string, now: int): (r: Run)
    requires forall t, c :: PostCast(t, c) !in before
    ensures forall t, c :: PostCast(t, c) in r.effects ==>
              t == flags.cast && c == dagCid && Pin(c) in r.effects && Provide(c) in r.effects
              && ipfs.pin(c) && ipfs.provide(c) && Available(AvailabilityUrl + c, WaitAttempts, ipfs.head)
    ensures PostCast(flags.cast, dagCid) in r.effects
            <==> ipfs.pin(dagCid) && ipfs.provide(dagCid)
                 && Available(AvailabilityUrl + dagCid, WaitAttempts, ipfs.head)
    ensures var posted := FcClient.Cast(hub, crypto, username, key, flags.cast, dagCid, now);
            PostCast(flags.cast, dagCid) in r.effects && posted.Ok?
            ==> r.message == "[^] Cast posted: @" + username + "/0x" + posted.value
    ensures ipfs.pin(dagCid) && ipfs.provide(dagCid) && Available(AvailabilityUrl + dagCid, WaitAttempts, ipfs.head)
            ==> r.effects == before + [Pin(dagCid), Provide(dagCid), WaitFor(AvailabilityUrl + dagCid),
                                       PostCast(flags.cast, dagCid)]
  {
    var e1 := before + [Pin(dagCid)];
    if !ipfs.pin(dagCid) then Run(e1, "[!] Failed to pin metadata!")
    else
      var e2 := e1 + [Provide(dagCid)];
      if !ipfs.provide(dagCid) then Run(e2, "[!] Failed to announce metadata.")
      else
        var e3 := e2 + [WaitFor(AvailabilityUrl + dagCid)];
        if !Available(AvailabilityUrl + dagCid, WaitAttempts, ipfs.head) then Run(e3, "Exiting")
        else
          var e4 := e3 + [PostCast(flags.cast, dagCid)];
          assert Pin(dagCid) in e4 && Provide(dagCid) in e4;
          match FcClient.Cast(hub, crypto, username, key, flags.cast, dagCid, now)
          case Err(e) => Run(e4, e)
          case Ok(hash) => Run(e4, "[^] Cast posted: @" + username + "/0x" + hash)
  }

  /** The command. `configFile` is the path the configuration loader
      reports (Config.Load); `stdin` and `readFile` stand for standard input
      and the file system, `now` for the clock. */
  function Upload(args: seq<string>, configFile: string, flags: Flags, stdin: Result<string>,
                  readFile: string -> Result<string>, ipfs: Ipfs, detectedMime: string,
                  fileSize: int, hub: Hub, crypto: Crypto, username: string, key: string,
                  now: int): (r: Run)
    ensures Config.SetupMissing(configFile) || |args| == 0 || flags.artwork == "" ==> r.effects == []
    ensures forall t, c :: PostCast(t, c) in r.effects ==>
              t == flags.cast && ipfs.pin(c) && ipfs.provide(c) && Available(AvailabilityUrl + c, WaitAttempts, ipfs.head)
              && |args| > 0 && ipfs.addFile(args[0]).Ok? && ipfs.pin(ipfs.addFile(args[0]).value)
              && ipfs.addFile(flags.artwork).Ok? && ipfs.pin(ipfs.addFile(flags.artwork).value)
              && Description(flags.description, stdin, readFile).Ok?
              && ipfs.dagPut(Lemon3Dag.ToDoc(UploadMetadata(args[0], flags, detectedMime, fileSize,
                                                            Description(flags.description, stdin, readFile).value,
                                                            ipfs.addFile(args[0]).value,
                                                            ipfs.addFile(flags.artwork).value))) == Ok(c)
  {
    if Config.SetupMissing(configFile) then Run([], "Please run \"lemon3 setup\" first.")
    else if |args| == 0 then Run([], "Usage: lemon3 upload <file>")
    else if flags.artwork == "" then Run([], "You need to provide an artwork file (jpeg, or png)")
    else
      Publish(args[0], flags, stdin, readFile, ipfs, detectedMime, fileSize, hub, crypto, username, key, now)
  }

  /** The command runs every step when the setup check passes, a file
      and an artwork are named, and each step succeeds: it ends by posting
      the cast text with the cid of the stored document. */
  lemma UploadFullRun(args: seq<string>, configFile: string, flags: Flags, stdin: Result<string>,
                      readFile: string -> Result<string>, ipfs: Ipfs, detectedMime: string,
                      fileSize: int, hub: Hub, crypto: Crypto, username: string, key: string,
                      now: int, cid: string, artworkCid: string, description: string, dagCid: string)
    requires !Config.SetupMissing(configFile) && |args| > 0 && flags.artwork != ""
    requires ipfs.addFile(args[0]) == Ok(cid) && ipfs.pin(cid)
    requires ipfs.addFile(flags.artwork) == Ok(artworkCid) && ipfs.pin(artworkCid)
    requires Description(flags.description, stdin, readFile) == Ok(description)
    requires ipfs.dagPut(Lemon3Dag.ToDoc(UploadMetadata(args[0], flags, detectedMime, fileSize,
                                                        description, cid, artworkCid))) == Ok(dagCid)
    requires ipfs.pin(dagCid) && ipfs.provide(dagCid) && Available(AvailabilityUrl + dagCid, WaitAttempts, ipfs.head)
    ensures var r := Upload(args, configFile, flags, stdin, readFile, ipfs, detectedMime, fileSize, hub,
                            crypto, username, key, now);
            var doc := Lemon3Dag.ToDoc(UploadMetadata(args[0], flags, detectedMime, fileSize,
                                                      description, cid, artworkCid));
            r.effects == [AddFile(args[0]), Pin(cid), AddFile(flags.artwork), Pin(artworkCid), DagPut(doc)]
                         + [Pin(dagCid), Provide(dagCid), WaitFor(AvailabilityUrl + dagCid),
                            PostCast(flags.cast, dagCid)]
            && r.effects[|r.effects| - 1] == PostCast(flags.cast, dagCid)
  {
    PublishFullRun(args[0], flags, stdin, readFile, ipfs, detectedMime, fileSize, hub, crypto,
                   username, key, now, cid, artworkCid, description, dagCid);
  }

  /** As written, a missing settings file does not stop the command: with
      a file and an artwork named, it goes on to publish, with whatever
      settings the environment gives. */
  lemma MissingConfigProceeds(config: Xdg.Outcome, args: seq<string>, flags: Flags, stdin: Result<string>,
                              readFile: string -> Result<string>, ipfs: Ipfs, detectedMime: string,
                              fileSize: int, hub: Hub, crypto: Crypto, username: string, key: string,
                              now: int)
    requires |args| > 0 && flags.artwork != ""
    ensures Upload(args, Config.Load(config), flags, stdin, readFile, ipfs, detectedMime, fileSize, hub,
                   crypto, username, key, now)
            == Publish(args[0], flags, stdin, readFile, ipfs, detectedMime, fileSize, hub, crypto,
                       username, key, now)
  {
    Config.SetupCheckNeverFires(config);
  }

  /** With the loader corrected, a settings file that cannot be read stops
      the command before any upload, asking for setup. */
  lemma MissingConfigStopsCorrected(config: Xdg.Outcome, args: seq<string>, flags: Flags,
                                    stdin: Result<string>, readFile: string -> Result<string>, ipfs: Ipfs,
                                    detectedMime: string, fileSize: int, hub: Hub, crypto: Crypto,
                                    username: string, key: string, now: int)
    ensures Upload(args, Config.LoadCorrected(config, false), flags, stdin, readFile, ipfs, detectedMime,
                   fileSize, hub, crypto, username, key, now)
            == Run([], "Please run \"lemon3 setup\" first.")
  {
  }
}
