/** The `downloadfeed @user` command: walk the user's casts from the newest,
    download every file a lemon3 link points at, and stop at the cast the
    previous run recorded as the newest it had seen. */
module DownloadFeed {
  import opened Wrappers
  import Xdg
  import Config
  import opened Json
  import opened Farcaster
  import opened Lemon3Cast
  import opened Paths
  import FcClient
  import Lemon3Dag

  /** The checkpoint key of the status file. */
  const StatusKey: string := "last_hash"

  /** The status file's name inside the download directory. */
  const StatusFileName: string := ".lemon3"

  /** How many casts one run reads. */
  const FeedPageSize: nat := 100

  /** What reading the status file gave: no file (or a read error), or its
      contents decoded as JSON (`None` when they do not decode). A decoded
      object holds one member per key of the map it was read into. */
  datatype StatusFile = NoStatusFile | StatusText(parsed: Option<Json>)

  /** The outside calls a run makes, in order. */
  datatype Effect =
    | FetchCasts(username: string)
    | DagGet(cid: string)
    | Cat(cid: string, path: string, size: int)
    | WriteStatus(path: string, status: seq<Member>)

  /** The calls a run made and the message it ended with ("" when it ended
      without one). */
  datatype Run = Run(effects: seq<Effect>, message: string)

  /** The status map and the last hash recorded in it; without a status
      file, the empty map and "". */
  function LoadStatus(f: StatusFile): (r: Result<(seq<Member>, string)>)
    ensures f.NoStatusFile? ==> r == Ok(([], ""))
    ensures f.StatusText? ==>
              (r.Ok? <==> f.parsed.Some? && f.parsed.value.JObject?
                          && AsString(Get(f.parsed.value.members, StatusKey)).Some?)
    ensures f.StatusText? && r.Ok? ==>
              r.value == (f.parsed.value.members, AsString(Get(f.parsed.value.members, StatusKey)).value)
  {
    match f
    case NoStatusFile => Ok(([], ""))
    case StatusText(None) => Err("[!] Failed to parse status file as JSON")
    case StatusText(Some(doc)) =>
      if doc.JNull? then Err("[!] Failed to get last_hash from status file.")
      else if !doc.JObject? then Err("[!] Failed to parse status file as JSON")
      else match AsString(Get(doc.members, StatusKey))
        case None => Err("[!] Failed to get last_hash from status file.")
        case Some(h) => Ok((doc.members, h))
  }

  /** The cast the previous run saw first: the walk stops there. */
  predicate IsCheckpoint(m: Message, lastHash: string) {
    lastHash != "" && HashString(m.hash) == lastHash
  }

  /** How many casts, from the newest, the walk examines: all of them up to
      the first checkpoint. */
  function StopIndex(casts: seq<Message>, lastHash: string): (n: nat)
    ensures n <= |casts|
    ensures forall i :: 0 <= i < n ==> !IsCheckpoint(casts[i], lastHash)
    ensures n < |casts| ==> IsCheckpoint(casts[n], lastHash)
  {
    if |casts| == 0 || IsCheckpoint(casts[0], lastHash) then 0
    else
      var n := StopIndex(casts[1..], lastHash);
      assert forall i :: 1 <= i < |casts| ==> casts[i] == casts[1..][i - 1];
      1 + n
  }

  /** The cids of every lemon3 link of a cast, not only the first. */
  function CastCids(m: Message): seq<string> {
    Lemon3Cids(Urls(CastAddBodyOf(m.data).embeds))
  }

  /** The cids of all the casts, in order. */
  function PlannedCids(casts: seq<Message>): seq<string> {
    if |casts| == 0 then [] else CastCids(casts[0]) + PlannedCids(casts[1..])
  }

  /** The cids fetched by DagGet among `effects`, in order. */
  function DagGets(effects: seq<Effect>): (cids: seq<string>)
    ensures forall c :: c in cids <==> DagGet(c) in effects
  {
    if |effects| == 0 then []
    else if effects[0].DagGet? then [effects[0].cid] + DagGets(effects[1..])
    else DagGets(effects[1..])
  }

  lemma {:induction false} DagGetsAppend(a: seq<Effect>, b: seq<Effect>)
    ensures DagGets(a + b) == DagGets(a) + DagGets(b)
  {
    if |a| == 0 {
      assert a + b == b;
    } else {
      assert (a + b)[0] == a[0] && (a + b)[1..] == a[1..] + b;
      DagGetsAppend(a[1..], b);
    }
  }

  /** The calls of a part of the walk, and the error that ended it early. */
  datatype Walk = Walk(effects: seq<Effect>, failure: Option<string>)

  /** One lemon3 link: read its metadata, then copy the enclosed file to
      its file name inside `dir`. `cat` says whether the copy succeeded. */
  function FetchOne(cid: string, dir: string, dagGet: string -> Result<seq<Member>>,
                    cat: (string, string, int) -> bool): (w: Walk)
    ensures |w.effects| >= 1 && w.effects[0] == DagGet(cid)
    ensures DagGets(w.effects) == [cid]
    ensures forall e :: e in w.effects ==> !e.WriteStatus?
    ensures w.failure.None? <==> Lemon3Dag.FromCid(dagGet(cid)).Ok?
                                 && var m := Lemon3Dag.FromCid(dagGet(cid)).value;
                                    cat(m.enclosed, Join(dir, m.filename), m.size)
  {
    match Lemon3Dag.FromCid(dagGet(cid))
    case Err(e) => Walk([DagGet(cid)], Some("[!] " + e))
    case Ok(m) =>
      var path := Join(dir, m.filename);
      var effects := [DagGet(cid), Cat(m.enclosed, path, m.size)];
      assert DagGets(effects) == [cid] by {
        assert effects[1..] == [Cat(m.enclosed, path, m.size)];
        assert effects[1..][1..] == [];
        assert DagGets(effects[1..]) == [];
      }
      if cat(m.enclosed, path, m.size) then Walk(effects, None)
      else Walk(effects, Some("[!] Failed to download file"))
  }

  /** The links of one cast, in order, up to the first failure. */
  function FetchAll(cids: seq<string>, dir: string, dagGet: string -> Result<seq<Member>>,
                    cat: (string, string, int) -> bool): (w: Walk)
    ensures forall e :: e in w.effects ==> !e.WriteStatus?
    ensures w.failure.None? ==> DagGets(w.effects) == cids
  {
    if |cids| == 0 then Walk([], None)
    else
      var first := FetchOne(cids[0], dir, dagGet, cat);
      if first.failure.Some? then first
      else
        var rest := FetchAll(cids[1..], dir, dagGet, cat);
        DagGetsAppend(first.effects, rest.effects);
        Walk(first.effects + rest.effects, rest.failure)
  }

  /** The casts from the newest, up to the checkpoint or the first
      failure. */
  function WalkCasts(casts: seq<Message>, lastHash: string, dir: string,
                     dagGet: string -> Result<seq<Member>>, cat: (string, string, int) -> bool): (w: Walk)
    ensures forall e :: e in w.effects ==> !e.WriteStatus?
  {
    if |casts| == 0 || IsCheckpoint(casts[0], lastHash) then Walk([], None)
    else
      var first := FetchAll(CastCids(casts[0]), dir, dagGet, cat);
      if first.failure.Some? then first
      else
        var rest := WalkCasts(casts[1..], lastHash, dir, dagGet, cat);
        Walk(first.effects + rest.effects, rest.failure)
  }

  /** A walk that completes fetches the lemon3 links of exactly the casts
      before the checkpoint, every link of each, in order. */
  lemma {:induction false} WalkPlan(casts: seq<Message>, lastHash: string, dir: string,
                                    dagGet: string -> Result<seq<Member>>,
                                    cat: (string, string, int) -> bool)
    requires WalkCasts(casts, lastHash, dir, dagGet, cat).failure.None?
    ensures DagGets(WalkCasts(casts, lastHash, dir, dagGet, cat).effects)
            == PlannedCids(casts[..StopIndex(casts, lastHash)])
  {
    var n := StopIndex(casts, lastHash);
    if |casts| == 0 || IsCheckpoint(casts[0], lastHash) {
      assert casts[..n] == [];
    } else {
      var first := FetchAll(CastCids(casts[0]), dir, dagGet, cat);
      var rest := WalkCasts(casts[1..], lastHash, dir, dagGet, cat);
      WalkPlan(casts[1..], lastHash, dir, dagGet, cat);
      DagGetsAppend(first.effects, rest.effects);
      assert casts[..n][0] == casts[0];
      assert casts[..n][1..] == casts[1..][..n - 1];
    }
  }

  /** The run once the status is loaded and the casts are in: the
      checkpoint is moved to the newest cast before the walk, and the status
      file is written only when the walk completes. `canWrite` says whether
      the write succeeds. */
  function Resync(status: seq<Member>, lastHash: string, casts: seq<Message>, dir: string,
                  dagGet: string -> Result<seq<Member>>, cat: (string, string, int) -> bool,
                  canWrite: bool): (r: Run)
    requires |casts| > 0
    ensures forall p, doc :: WriteStatus(p, doc) in r.effects ==>
              p == Join(dir, StatusFileName)
              && doc == Put(status, StatusKey, JString(HashString(casts[0].hash)))
    ensures (exists p, doc :: WriteStatus(p, doc) in r.effects)
            <==> WalkCasts(casts, lastHash, dir, dagGet, cat).failure.None? && canWrite
  {
    var newStatus := Put(status, StatusKey, JString(HashString(casts[0].hash)));
    var w := WalkCasts(casts, lastHash, dir, dagGet, cat);
    if w.failure.Some? then Run(w.effects, w.failure.value)
    else if !canWrite then Run(w.effects, "[!] Failed to write status file")
    else
      var write := WriteStatus(Join(dir, StatusFileName), newStatus);
      assert write in w.effects + [write];
      Run(w.effects + [write], "")
  }

  /** The command. `configFile` is the path the configuration loader
      reports (Config.Load), `downloadDir` is the configured download
      directory (empty when no settings were read), `dirReady` whether
      the user's directory exists or could be created, `status` what reading
      its status file gave. A run-time panic of the program is a run that
      ends with the panic's message. */
  function DownloadFeed(args: seq<string>, configFile: string, downloadDir: string, dirReady: bool,
                        status: StatusFile, hub: Hub, dagGet: string -> Result<seq<Member>>,
                        cat: (string, string, int) -> bool, canWrite: bool): (r: Run)
    ensures Config.SetupMissing(configFile) || |args| == 0 || args[0] == "" || !dirReady || LoadStatus(status).Err?
            ==> r.effects == []
    ensures (exists p, d :: WriteStatus(p, d) in r.effects) ==>
              |args| > 0 && |args[0]| > 0
              && FcClient.GetCastsByFname(hub, args[0][1..], FeedPageSize, true).Ok?
              && |FcClient.GetCastsByFname(hub, args[0][1..], FeedPageSize, true).value| > 0
  {
    if Config.SetupMissing(configFile) then Run([], "Please run \"lemon3 setup\" first.")
    else if |args| == 0 then Run([], "Usage: lemon3 download @user")
    else if |args[0]| == 0 then Run([], "slice bounds out of range")
    else
      var name := args[0][1..];
      var dir := Join(downloadDir, name);
      if !dirReady then Run([], "[!] Failed to create download directory")
      else match LoadStatus(status)
        case Err(e) => Run([], e)
        case Ok((ms, lastHash)) =>
          match FcClient.GetCastsByFname(hub, name, FeedPageSize, true)
          case Err(e) => Run([FetchCasts(name)], "[!] Failed to get casts: " + e)
          case Ok(casts) =>
            if |casts| == 0 then Run([FetchCasts(name)], "[!] No casts found for user.")
            else
              var rest := Resync(ms, lastHash, casts, dir, dagGet, cat, canWrite);
              Run([FetchCasts(name)] + rest.effects, rest.message)
  }

  /** Once the status loads and the hub returns casts, the command is
      the fetch followed by the resynchronisation. */
  lemma FeedSteps(config: Xdg.Outcome, args: seq<string>, downloadDir: string, status: StatusFile, hub: Hub,
                  dagGet: string -> Result<seq<Member>>, cat: (string, string, int) -> bool,
                  canWrite: bool, ms: seq<Member>, lastHash: string, casts: seq<Message>)
    requires |args| > 0 && |args[0]| > 0
    requires LoadStatus(status) == Ok((ms, lastHash))
    requires FcClient.GetCastsByFname(hub, args[0][1..], FeedPageSize, true) == Ok(casts)
    requires |casts| > 0
    ensures var r := DownloadFeed(args, Config.Load(config), downloadDir, true, status, hub, dagGet, cat, canWrite);
            var rest := Resync(ms, lastHash, casts, Join(downloadDir, args[0][1..]), dagGet, cat, canWrite);
            r == Run([FetchCasts(args[0][1..])] + rest.effects, rest.message)
  {
  }

  /** The status written records the newest cast's hash as the checkpoint
      and keeps every other entry of the status map. */
  lemma CheckpointIsNewest(status: seq<Member>, lastHash: string, casts: seq<Message>, dir: string,
                           dagGet: string -> Result<seq<Member>>, cat: (string, string, int) -> bool,
                           p: string, doc: seq<Member>)
    requires |casts| > 0
    requires WriteStatus(p, doc) in Resync(status, lastHash, casts, dir, dagGet, cat, true).effects
    ensures Get(doc, StatusKey) == Some(JString(HashString(casts[0].hash)))
    ensures forall k :: k != StatusKey ==> Get(doc, k) == Get(status, k)
  {
    var h := JString(HashString(casts[0].hash));
    GetPutSame(status, StatusKey, h);
    forall k | k != StatusKey ensures Get(doc, k) == Get(status, k) {
      GetPutOther(status, StatusKey, h, k);
    }
  }

  /** A written status follows a walk that fetched every lemon3 link of
      every cast newer than the checkpoint. */
  lemma WrittenAfterFullWalk(status: seq<Member>, lastHash: string, casts: seq<Message>, dir: string,
                             dagGet: string -> Result<seq<Member>>, cat: (string, string, int) -> bool,
                             p: string, doc: seq<Member>)
    requires |casts| > 0
    requires WriteStatus(p, doc) in Resync(status, lastHash, casts, dir, dagGet, cat, true).effects
    ensures DagGets(Resync(status, lastHash, casts, dir, dagGet, cat, true).effects)
            == PlannedCids(casts[..StopIndex(casts, lastHash)])
  {
    var w := WalkCasts(casts, lastHash, dir, dagGet, cat);
    WalkPlan(casts, lastHash, dir, dagGet, cat);
    var write := WriteStatus(Join(dir, StatusFileName), Put(status, StatusKey, JString(HashString(casts[0].hash))));
    DagGetsAppend(w.effects, [write]);
  }

  /** Running again, with the status file the previous run wrote read back
      and no new casts, fetches nothing and writes the same status. */
  lemma RerunIsQuiet(doc: seq<Member>, casts: seq<Message>, dir: string,
                     dagGet: string -> Result<seq<Member>>, cat: (string, string, int) -> bool)
    requires |casts| > 0
    requires Get(doc, StatusKey) == Some(JString(HashString(casts[0].hash)))
    ensures LoadStatus(StatusText(Some(JObject(WireMembers(doc)))))
            == Ok((WireMembers(doc), HashString(casts[0].hash)))
    ensures Resync(WireMembers(doc), HashString(casts[0].hash), casts, dir, dagGet, cat, true)
            == Run([WriteStatus(Join(dir, StatusFileName), WireMembers(doc))], "")
  {
    var h := JString(HashString(casts[0].hash));
    GetWire(doc, StatusKey);
    assert Wire(h) == h;
    assert Get(WireMembers(doc), StatusKey) == Some(h);
    PutExisting(WireMembers(doc), StatusKey, h);
    assert IsCheckpoint(casts[0], HashString(casts[0].hash));
  }
}
