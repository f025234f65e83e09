/** The terminal interface's main model: the casts shown, the follows seen
    on the live feed, the three screens (list, file picker, form) and the
    dispatch of every message to them. The local store is threaded through
    the calls that render casts or fetch enclosures; a Go panic is an `Err`
    with the panic's text. */
module MainModel {
  import opened Wrappers
  import opened Text
  import opened Bytes
  import opened Farcaster
  import LocalDb
  import Enclosure
  import CastItem
  import ListView
  import FilePicker
  import Form
  import LiveFeed

  datatype State = ListState | FilePickerState | FormState

  /** The messages the model receives. */
  datatype Msg =
    | CastAddMsg(cast: Message)
    | FollowAddMsg(fid: nat)
    | FollowRemoveMsg(fid: nat)
    | ErrorEvent(err: string)
    | SystemError(err: string)
    | Key(key: string)
    | WindowSize(width: int, height: int)
    | FormOutcome(outcome: Form.Outcome)
    | NoMsg

  /** The command an update returns: nothing, quitting, waiting for the
      next feed message or error, running an upload, or delivering the
      subscription's failure. */
  datatype Cmd = NoCmd | Quit | ListenFc | ListenErrors | RunUpload(s: Form.Submission) | Fail(err: string)

  datatype Model = Model(
    state: State,
    casts: seq<CastItem.CastItem>,
    follows: map<nat, bool>,
    list: ListView.ListModel,
    picker: FilePicker.Picker,
    form: Form.Form,
    err: Option<string>,
    statusMsg: string,
    width: int,
    height: int,
    fid: nat,
    privateKey: Option<seq<byte>>)

  /** What the model uses outside itself: rendering, the IPFS node and the
      JSON codec, saving a downloaded file to a path, the working directory,
      directory listings, and the extension-to-type table. */
  datatype Env = Env(
    renderer: CastItem.Renderer,
    ipfs: Enclosure.IpfsNode,
    codec: Enclosure.JsonCodec,
    saveFile: (string, string) -> Result<()>,
    getwd: Result<string>,
    readDir: string -> Result<seq<FilePicker.DirEntry>>,
    typeByExtension: string -> string)

  /** The status line when "u" is pressed without a key. */
  const NoKeyMessage: string := "No private key configured. Use `lemon3 config` to configure a private key."

  /** The number of casts the start-up fetch asks for. */
  const OldCastsPageSize: nat := 1000

  /** The casts' rendered heights, which is all the list looks at. */
  function Heights(casts: seq<CastItem.CastItem>): (hs: seq<nat>)
    ensures |hs| == |casts|
    ensures forall i :: 0 <= i < |casts| ==> hs[i] == casts[i].height
  {
    seq(|casts|, i requires 0 <= i < |casts| => casts[i].height)
  }

  /** Every cast's height is the number of lines of its rendering. */
  predicate HeightsMatch(casts: seq<CastItem.CastItem>) {
    forall i :: 0 <= i < |casts| ==> casts[i].height == Count(casts[i].rendered, '\n')
  }

  /** Matched heights survive concatenation. */
  lemma HeightsAppend(a: seq<CastItem.CastItem>, b: seq<CastItem.CastItem>)
    ensures HeightsMatch(a) && HeightsMatch(b) ==> HeightsMatch(a + b)
  {
    if HeightsMatch(a) && HeightsMatch(b) {
      forall i | 0 <= i < |a + b|
        ensures (a + b)[i].height == Count((a + b)[i].rendered, '\n')
      {
        if i >= |a| {
          assert (a + b)[i] == b[i - |a|];
        }
      }
    }
  }

  /** listenForNewFcEvents: a cast, a follow or an unfollow of its target,
      and nothing for any other message. */
  function Classify(m: Message): (msg: Msg)
    ensures m.data.msgType == CastAdd <==> msg.CastAddMsg?
    ensures m.data.msgType == LinkAdd <==> msg.FollowAddMsg?
    ensures m.data.msgType == LinkRemove <==> msg.FollowRemoveMsg?
    ensures m.data.msgType !in {CastAdd, LinkAdd, LinkRemove} <==> msg == NoMsg
    ensures msg.CastAddMsg? ==> msg.cast == m
    ensures msg.FollowAddMsg? || msg.FollowRemoveMsg? ==> msg.fid == TargetFid(m.data)
  {
    match m.data.msgType
    case CastAdd => CastAddMsg(m)
    case LinkAdd => FollowAddMsg(TargetFid(m.data))
    case LinkRemove => FollowRemoveMsg(TargetFid(m.data))
    case _ => NoMsg
  }

  /** Every message the live feed lets through reaches the model as a
      cast, a follow or an unfollow, never as nothing. */
  lemma ForwardedIsClassified(e: HubEvent, viewer: nat)
    requires LiveFeed.Forwarded(e, viewer)
    ensures Classify(e.message) != NoMsg
  {
  }

  /** A cast rendered for the list, its enclosure not loaded yet. */
  function RenderNew(db: seq<LocalDb.Entry>, env: Env, m: Message): (r: (Result<CastItem.CastItem>, seq<LocalDb.Entry>))
    requires LocalDb.Sorted(db)
    ensures LocalDb.Sorted(r.1)
    ensures r.0.Ok? ==> r.0.value.msg == m && r.0.value.enclosure.None?
                        && r.0.value.height == Count(r.0.value.rendered, '\n')
  {
    CastItem.Render(db, env.renderer, CastItem.NewCastItem(m))
  }

  /** A cast from the start-up fetch is listed when its first embed links
      an enclosure. */
  predicate ListsOldCast(m: Message) {
    var body := CastAddBodyOf(m.data);
    |body.embeds| > 0 && HasPrefix(Url(body.embeds[0]), Enclosure.EnclosureScheme)
  }

  /** The casts from the start-up fetch that are listed, in hub order. */
  function OldCasts(ms: seq<Message>): (r: seq<Message>)
    ensures |r| <= |ms|
    ensures forall m :: m in r ==> m in ms && ListsOldCast(m)
  {
    if |ms| == 0 then []
    else (if ListsOldCast(ms[0]) then [ms[0]] else []) + OldCasts(ms[1..])
  }

  /** The selection of casts to list goes piece by piece. */
  lemma {:induction false} OldCastsAppend(a: seq<Message>, b: seq<Message>)
    ensures OldCasts(a + b) == OldCasts(a) + OldCasts(b)
  {
    if |a| > 0 {
      assert (a + b)[1..] == a[1..] + b;
      OldCastsAppend(a[1..], b);
    } else {
      assert a + b == b;
    }
  }

  /** Renders `ms` in order; the first rendering that panics stops
      everything. */
  function RenderAll(db: seq<LocalDb.Entry>, env: Env, ms: seq<Message>)
    : (r: (Result<seq<CastItem.CastItem>>, seq<LocalDb.Entry>))
    requires LocalDb.Sorted(db)
    ensures LocalDb.Sorted(r.1)
    decreases |ms|
  {
    if |ms| == 0 then (Ok([]), db)
    else
      var first := RenderNew(db, env, ms[0]);
      if first.0.Err? then (Err(first.0.msg), first.1)
      else
        var rest := RenderAll(first.1, env, ms[1..]);
        if rest.0.Err? then (Err(rest.0.msg), rest.1)
        else (Ok([first.0.value] + rest.0.value), rest.1)
  }

  /** The rendered casts are the messages, in order, none with its
      enclosure loaded, each as high as its rendering. */
  lemma {:induction false} RenderAllItems(db: seq<LocalDb.Entry>, env: Env, ms: seq<Message>)
    requires LocalDb.Sorted(db)
    ensures var r := RenderAll(db, env, ms).0;
            r.Ok? ==> |r.value| == |ms| && HeightsMatch(r.value)
                      && forall i :: 0 <= i < |ms| ==> r.value[i].msg == ms[i] && r.value[i].enclosure.None?
    decreases |ms|
  {
    if |ms| > 0 {
      var first := RenderNew(db, env, ms[0]);
      if first.0.Ok? {
        var rest := RenderAll(first.1, env, ms[1..]);
        RenderAllItems(first.1, env, ms[1..]);
        if rest.0.Ok? {
          RenderedCons(first.0.value, rest.0.value, ms);
        }
      }
    }
  }

  /** The rendered first message in front of the rendered rest. */
  lemma RenderedCons(c: CastItem.CastItem, cs: seq<CastItem.CastItem>, ms: seq<Message>)
    requires |ms| > 0 && |cs| == |ms| - 1
    requires c.msg == ms[0] && c.enclosure.None? && c.height == Count(c.rendered, '\n')
    requires HeightsMatch(cs)
    requires forall i :: 0 <= i < |cs| ==> cs[i].msg == ms[1..][i] && cs[i].enclosure.None?
    ensures |[c] + cs| == |ms| && HeightsMatch([c] + cs)
    ensures forall i :: 0 <= i < |ms| ==> ([c] + cs)[i].msg == ms[i] && ([c] + cs)[i].enclosure.None?
  {
  }

  /** UpdateWithOldCasts: the viewer's latest casts, newest first, those
      linking an enclosure appended in that order; a failed fetch changes
      nothing. */
  function UpdateWithOldCasts(db: seq<LocalDb.Entry>, env: Env, m: Model): (r: (Result<Model>, seq<LocalDb.Entry>))
    requires LocalDb.Sorted(db)
    ensures LocalDb.Sorted(r.1)
    ensures env.renderer.hub.castsByFid(m.fid, OldCastsPageSize, true).Err? ==> r == (Ok(m), db)
    ensures r.0.Ok? && env.renderer.hub.castsByFid(m.fid, OldCastsPageSize, true).Ok? ==>
              var listed := OldCasts(env.renderer.hub.castsByFid(m.fid, OldCastsPageSize, true).value);
              var rendered := RenderAll(db, env, listed).0;
              rendered.Ok? && r.0.value == m.(casts := m.casts + rendered.value)
    ensures r.0.Err? ==> env.renderer.hub.castsByFid(m.fid, OldCastsPageSize, true).Ok?
  {
    match env.renderer.hub.castsByFid(m.fid, OldCastsPageSize, true)
    case Err(_) => (Ok(m), db)
    case Ok(ms) =>
      var (items, db1) := RenderAll(db, env, OldCasts(ms));
      match items
      case Err(e) => (Err(e), db1)
      case Ok(cs) => (Ok(m.(casts := m.casts + cs)), db1)
  }

  /** The start-up fetch keeps the casts already listed and adds, in hub
      order, exactly the fetched casts that link an enclosure, each as
      high as its rendering. */
  lemma OldCastsAppended(db: seq<LocalDb.Entry>, env: Env, m: Model)
    requires LocalDb.Sorted(db)
    requires UpdateWithOldCasts(db, env, m).0.Ok?
    requires env.renderer.hub.castsByFid(m.fid, OldCastsPageSize, true).Ok?
    ensures var listed := OldCasts(env.renderer.hub.castsByFid(m.fid, OldCastsPageSize, true).value);
            var cs := UpdateWithOldCasts(db, env, m).0.value.casts;
            |cs| == |m.casts| + |listed| && cs[..|m.casts|] == m.casts
            && (forall i :: 0 <= i < |listed| ==> cs[|m.casts| + i].msg == listed[i] && cs[|m.casts| + i].enclosure.None?)
            && (HeightsMatch(m.casts) ==> HeightsMatch(cs))
  {
    var listed := OldCasts(env.renderer.hub.castsByFid(m.fid, OldCastsPageSize, true).value);
    var items := RenderAll(db, env, listed).0.value;
    RenderAllItems(db, env, listed);
    AppendedItems(m.casts, items, listed);
  }

  /** Casts appended after the listed ones, as a sequence fact. */
  lemma AppendedItems(prior: seq<CastItem.CastItem>, items: seq<CastItem.CastItem>, listed: seq<Message>)
    requires |items| == |listed| && HeightsMatch(items)
    requires forall i :: 0 <= i < |listed| ==> items[i].msg == listed[i] && items[i].enclosure.None?
    ensures var cs := prior + items;
            |cs| == |prior| + |listed| && cs[..|prior|] == prior
            && (forall i :: 0 <= i < |listed| ==> cs[|prior| + i].msg == listed[i] && cs[|prior| + i].enclosure.None?)
            && (HeightsMatch(prior) ==> HeightsMatch(cs))
  {
    var cs := prior + items;
    assert cs[..|prior|] == prior;
    assert forall i :: 0 <= i < |items| ==> cs[|prior| + i] == items[i];
  }

  /** Heights stay matched through the start-up fetch, whatever it returns. */
  lemma OldCastsHeights(db: seq<LocalDb.Entry>, env: Env, m: Model)
    requires LocalDb.Sorted(db)
    ensures UpdateWithOldCasts(db, env, m).0.Ok? && HeightsMatch(m.casts) ==>
              HeightsMatch(UpdateWithOldCasts(db, env, m).0.value.casts)
  {
    if UpdateWithOldCasts(db, env, m).0.Ok? && env.renderer.hub.castsByFid(m.fid, OldCastsPageSize, true).Ok? {
      OldCastsAppended(db, env, m);
    }
  }

  /** ShowFilePicker: lists the working directory in a picker sized to the
      terminal, its window the terminal less six rows and at least five,
      and shows it; when the working directory is unknown only the error
      is recorded. */
  function ShowFilePicker(m: Model, env: Env): (m': Model)
    ensures env.getwd.Err? ==> m' == m.(err := Some(env.getwd.msg))
    ensures env.getwd.Ok? ==>
              m'.state == FilePickerState && m'.picker.currentDir == env.getwd.value
              && m' == m.(state := FilePickerState, picker := m'.picker)
    ensures env.getwd.Ok? && m.width > 0 && m.height > 0 ==>
              m'.picker.width == m.width && m'.picker.height == m.height
              && m'.picker.maxVisible == (if m.height - 6 < 5 then 5 else m.height - 6)
    ensures env.getwd.Ok? && !(m.width > 0 && m.height > 0) ==>
              m'.picker.maxVisible == FilePicker.DefaultMaxVisible
  {
    match env.getwd
    case Err(e) => m.(err := Some(e))
    case Ok(dir) =>
      var p := FilePicker.NewPicker(dir, env.readDir);
      var p' := if m.width > 0 && m.height > 0
                then p.(width := m.width, height := m.height,
                        maxVisible := if m.height - 6 < 5 then 5 else m.height - 6)
                else p;
      m.(picker := p', state := FilePickerState)
  }

  /** ShowForm: a fresh form for the picked file, shown. */
  function ShowForm(m: Model, path: string): (m': Model)
    ensures m'.state == FormState && m'.form.selectedFile == path
    ensures Form.FocusValid(m'.form) && !m'.form.isSubmitting && m'.form.err.None?
    ensures m' == m.(state := FormState, form := m'.form)
  {
    m.(form := Form.NewForm().(selectedFile := path), state := FormState)
  }

  /** ShowList: the list is shown. */
  function ShowList(m: Model): (m': Model)
    ensures m'.state == ListState && m' == m.(state := ListState)
  {
    m.(state := ListState)
  }

  /** Loading a cast's enclosure for the list: the lookup (store first,
      then IPFS) and, when it succeeds, the cast rendered again with the
      enclosure's summary. The status line is cleared on success and says
      the fetch failed otherwise. A cast without embeds panics. */
  function FetchEnclosure(db: seq<LocalDb.Entry>, env: Env, c: CastItem.CastItem)
    : (r: (Result<CastItem.CastItem>, string, seq<LocalDb.Entry>))
    requires LocalDb.Sorted(db)
    ensures LocalDb.Sorted(r.2)
    ensures CastItem.LinkedCid(CastAddBodyOf(c.msg.data)).None? ==> r == (Err("index out of range"), "", db)
    ensures CastItem.LinkedCid(CastAddBodyOf(c.msg.data)).Some? ==>
              var found := Enclosure.FromCid(db, env.ipfs, env.codec, CastItem.LinkedCid(CastAddBodyOf(c.msg.data)).value).0;
              (found.Err? ==> r.0 == Ok(c.(enclosure := None)) && r.1 == "Error fetching enclosure")
              && (found.Ok? ==> r.1 == "" && (r.0.Ok? ==> r.0.value.enclosure == Some(found.value)))
    ensures r.0.Ok? ==> r.0.value.msg == c.msg
    ensures r.0.Ok? && c.height == Count(c.rendered, '\n') ==> r.0.value.height == Count(r.0.value.rendered, '\n')
  {
    if CastItem.LinkedCid(CastAddBodyOf(c.msg.data)).None? then (Err("index out of range"), "", db)
    else
      var (c1, fetched, db1) := CastItem.GetEnclosure(db, env.ipfs, env.codec, c);
      if fetched.Err? then (Ok(c1), "Error fetching enclosure", db1)
      else
        var (c2, db2) := CastItem.Render(db1, env.renderer, c1);
        (c2, "", db2)
  }

  /** Saving a loaded enclosure's file as its name in the working
      directory; the status line says how it went. */
  function SaveStatus(env: Env, e: Enclosure.Enclosure): (status: string)
    ensures env.saveFile(e.fileCid, "./" + e.fileName).Ok? <==> status == "Downloaded: " + e.fileName
    ensures env.saveFile(e.fileCid, "./" + e.fileName).Err? <==> status == "Error downloading file: " + e.fileName
  {
    if env.saveFile(e.fileCid, "./" + e.fileName).Ok? then "Downloaded: " + e.fileName
    else "Error downloading file: " + e.fileName
  }

  /** The list's download: the enclosure of the cast under the cursor is
      loaded when it is not yet, and its file saved when it is. A cursor
      off the list panics. */
  function Download(db: seq<LocalDb.Entry>, env: Env, m: Model): (r: (Result<Model>, seq<LocalDb.Entry>))
    requires LocalDb.Sorted(db)
    ensures LocalDb.Sorted(r.1)
    ensures m.list.cursor >= |m.casts| ==> r == (Err("index out of range"), db)
    ensures m.list.cursor < |m.casts| && m.casts[m.list.cursor].enclosure.Some? ==>
              r == (Ok(m.(statusMsg := SaveStatus(env, m.casts[m.list.cursor].enclosure.value))), db)
    ensures m.list.cursor < |m.casts| && m.casts[m.list.cursor].enclosure.None? ==>
              var f := FetchEnclosure(db, env, m.casts[m.list.cursor]);
              r.1 == f.2 && (r.0.Ok? <==> f.0.Ok?)
              && (r.0.Ok? ==> r.0.value == m.(casts := m.casts[m.list.cursor := f.0.value], statusMsg := f.1))
  {
    if m.list.cursor >= |m.casts| then (Err("index out of range"), db)
    else
      var c := m.casts[m.list.cursor];
      match c.enclosure
      case Some(e) => (Ok(m.(statusMsg := SaveStatus(env, e))), db)
      case None =>
        var (item, status, db1) := FetchEnclosure(db, env, c);
        if item.Err? then (Err(item.msg), db1)
        else (Ok(m.(casts := m.casts[m.list.cursor := item.value], statusMsg := status)), db1)
  }

  /** A download changes at most the cast under the cursor and the status
      line, and keeps every cast as high as its rendering. */
  lemma DownloadTouchesCursorCast(db: seq<LocalDb.Entry>, env: Env, m: Model)
    requires LocalDb.Sorted(db)
    requires Download(db, env, m).0.Ok?
    ensures var m' := Download(db, env, m).0.value;
            |m'.casts| == |m.casts| && m' == m.(casts := m'.casts, statusMsg := m'.statusMsg)
            && (forall i :: 0 <= i < |m.casts| && i != m.list.cursor ==> m'.casts[i] == m.casts[i])
            && (HeightsMatch(m.casts) ==> HeightsMatch(m'.casts))
  {
    var m' := Download(db, env, m).0.value;
    if m.casts[m.list.cursor].enclosure.None? {
      var f := FetchEnclosure(db, env, m.casts[m.list.cursor]);
      assert m'.casts == m.casts[m.list.cursor := f.0.value];
    }
  }

  /** The list's up move under the given end rule. */
  function MoveUp(m: ListView.ListModel, hs: seq<nat>, rule: ListView.EndRule): ListView.ListModel {
    if rule == ListView.AsWritten then ListView.MoveCursorUpAsWritten(m, hs) else ListView.MoveCursorUp(m, hs)
  }

  /** The list screen's update. `rule` says which recalculateViewEnd the
      up move runs: as the program has it, or corrected. */
  function ListUpdate(db: seq<LocalDb.Entry>, env: Env, m: Model, msg: Msg, rule: ListView.EndRule)
    : (r: (Result<Model>, seq<LocalDb.Entry>))
    requires LocalDb.Sorted(db)
    ensures LocalDb.Sorted(r.1)
    ensures msg.Key? && msg.key in {"j", "down"} ==>
              r == (Ok(m.(list := ListView.MoveCursorDown(m.list, Heights(m.casts)))), db)
    ensures msg.Key? && msg.key in {"k", "up"} && rule == ListView.AsWritten ==>
              r == (Ok(m.(list := ListView.MoveCursorUpAsWritten(m.list, Heights(m.casts)))), db)
    ensures msg.Key? && msg.key in {"k", "up"} && rule == ListView.Corrected ==>
              r == (Ok(m.(list := ListView.MoveCursorUp(m.list, Heights(m.casts)))), db)
    ensures msg.Key? && msg.key == "u" && m.privateKey.Some? ==> r == (Ok(ShowFilePicker(m, env)), db)
    ensures msg.Key? && msg.key == "u" && m.privateKey.None? ==> r == (Ok(m.(statusMsg := NoKeyMessage)), db)
    ensures msg.Key? && msg.key in {"enter", "right"} ==> r == Download(db, env, m)
    ensures msg.WindowSize? ==> r == (Ok(m.(list := ListView.Resize(m.list, msg.width, msg.height))), db)
    ensures !msg.Key? && !msg.WindowSize? ==> r == (Ok(m), db)
  {
    match msg
    case Key(k) =>
      if k == "j" || k == "down" then (Ok(m.(list := ListView.MoveCursorDown(m.list, Heights(m.casts)))), db)
      else if k == "k" || k == "up" then (Ok(m.(list := MoveUp(m.list, Heights(m.casts), rule))), db)
      else if k == "u" then
        if m.privateKey.Some? then (Ok(ShowFilePicker(m, env)), db) else (Ok(m.(statusMsg := NoKeyMessage)), db)
      else if k == "enter" || k == "right" then Download(db, env, m)
      else (Ok(m), db)
    case WindowSize(w, h) => (Ok(m.(list := ListView.Resize(m.list, w, h))), db)
    case _ => (Ok(m), db)
  }

  /** The file picker's update, with its request to show the form or the
      list carried out. */
  function PickerUpdate(env: Env, m: Model, msg: Msg): (m': Model)
    ensures msg.WindowSize? ==> m' == m.(picker := FilePicker.Resize(m.picker, msg.width, msg.height))
    ensures msg.Key? ==>
              var (p, intent) := FilePicker.Key(m.picker, msg.key, env.readDir);
              m'.picker == p
              && (intent.ShowForm? ==> m'.state == FormState && m'.form.selectedFile == intent.path)
              && (intent.ShowList? ==> m'.state == ListState)
              && (intent.Stay? ==> m' == m.(picker := p))
    ensures !msg.Key? && !msg.WindowSize? ==> m' == m
    ensures m'.casts == m.casts && m'.list == m.list
  {
    match msg
    case Key(k) =>
      var (p, intent) := FilePicker.Key(m.picker, k, env.readDir);
      var m1 := match intent
                case Stay => m
                case ShowForm(path) => ShowForm(m, path)
                case ShowList => ShowList(m);
      m1.(picker := p)
    case WindowSize(w, h) => m.(picker := FilePicker.Resize(m.picker, w, h))
    case _ => m
  }

  /** The form's update: its keys, the size, and the upload's answer; an
      upload it asks for becomes the command. */
  function FormUpdate(env: Env, m: Model, msg: Msg): (r: (Model, Cmd))
    requires |m.form.inputs| == Form.InputCount
    ensures |r.0.form.inputs| == Form.InputCount
    ensures msg.Key? ==> var (f, effect) := Form.Key(m.form, msg.key, env.typeByExtension);
              r.0.form == f
              && (effect.Submit? ==> r.1 == RunUpload(effect.s))
              && (!effect.Submit? ==> r.1 == NoCmd)
              && (effect.BackToList? ==> r.0.state == ListState)
    ensures msg.FormOutcome? && msg.outcome.Succeeded? ==> r == (m.(state := ListState), NoCmd)
    ensures msg.FormOutcome? && msg.outcome.Failed? ==>
              r.0.form.err == Some(msg.outcome.err) && !r.0.form.isSubmitting && r.0.state == m.state
    ensures !msg.Key? ==> r.1 == NoCmd
    ensures r.0.casts == m.casts && r.0.list == m.list
  {
    match msg
    case Key(k) =>
      var (f, effect) := Form.Key(m.form, k, env.typeByExtension);
      (match effect
       case NoEffect => (m.(form := f), NoCmd)
       case Submit(s) => (m.(form := f), RunUpload(s))
       case BackToList => (ShowList(m).(form := f), NoCmd))
    case WindowSize(w, h) => (m.(form := m.form.(width := w, height := h)), NoCmd)
    case FormOutcome(o) =>
      var (f, effect) := Form.Answer(m.form, o);
      if effect.BackToList? then (ShowList(m).(form := f), NoCmd) else (m.(form := f), NoCmd)
    case _ => (m, NoCmd)
  }

  /** A cast from the feed: rendered and added to the list, and the feed
      listened to again; a rendering error stops the update. */
  function AddCast(db: seq<LocalDb.Entry>, env: Env, m: Model, cast: Message): (r: (Result<Model>, Cmd, seq<LocalDb.Entry>))
    requires LocalDb.Sorted(db)
    ensures LocalDb.Sorted(r.2)
    ensures r.0.Ok? <==> RenderNew(db, env, cast).0.Ok?
    ensures r.0.Ok? ==> r.1 == ListenFc
    ensures r.0.Err? ==> r.1 == NoCmd && r.0.msg == RenderNew(db, env, cast).0.msg
  {
    var rendered := RenderNew(db, env, cast);
    if rendered.0.Err? then (Err(rendered.0.msg), NoCmd, rendered.1)
    else (Ok(m.(statusMsg := "NewCast: " + CastAddBodyOf(cast.data).text, casts := m.casts + [rendered.0.value])), ListenFc, rendered.1)
  }

  /** The new cast goes after every cast already listed, as high as its
      rendering, and is announced on the status line; nothing else in the
      model changes. */
  lemma AddCastAppends(db: seq<LocalDb.Entry>, env: Env, m: Model, cast: Message)
    requires LocalDb.Sorted(db)
    ensures var r := AddCast(db, env, m, cast).0;
            r.Ok? ==>
              |r.value.casts| == |m.casts| + 1 && r.value.casts[..|m.casts|] == m.casts
              && r.value.casts[|m.casts|].msg == cast && r.value.casts[|m.casts|].enclosure.None?
              && r.value.statusMsg == "NewCast: " + CastAddBodyOf(cast.data).text
              && r.value == m.(casts := r.value.casts, statusMsg := r.value.statusMsg)
              && (HeightsMatch(m.casts) ==> HeightsMatch(r.value.casts))
  {
    var item := RenderNew(db, env, cast).0;
    if item.Ok? {
      AppendOne(m.casts, item.value);
    }
  }

  /** One rendered cast after the listed ones. */
  lemma AppendOne(cs: seq<CastItem.CastItem>, c: CastItem.CastItem)
    requires c.height == Count(c.rendered, '\n')
    ensures (cs + [c])[..|cs|] == cs && (cs + [c])[|cs|] == c
    ensures HeightsMatch(cs) ==> HeightsMatch(cs + [c])
  {
    assert (cs + [c])[..|cs|] == cs;
    HeightsAppend(cs, [c]);
  }

  /** The feed's follow events and the error events, whatever the screen:
      a follow or unfollow sets its own entry and the status line and waits
      for the next feed message; an error is recorded, and a system error
      also quits. */
  function Notify(m: Model, msg: Msg): (r: (Model, Cmd))
    requires msg.FollowAddMsg? || msg.FollowRemoveMsg? || msg.ErrorEvent? || msg.SystemError?
    ensures msg.FollowAddMsg? ==> r.0.follows == m.follows[msg.fid := true] && r.1 == ListenFc
                                  && r.0.statusMsg == "FollowAdd " + NatToString(msg.fid)
    ensures msg.FollowRemoveMsg? ==> r.0.follows == m.follows[msg.fid := false] && r.1 == ListenFc
                                     && r.0.statusMsg == "FollowRemove " + NatToString(msg.fid)
    ensures msg.FollowAddMsg? || msg.FollowRemoveMsg? ==> r.0 == m.(follows := r.0.follows, statusMsg := r.0.statusMsg)
    ensures msg.ErrorEvent? ==> r == (m.(err := Some(msg.err)), ListenErrors)
    ensures msg.SystemError? ==> r == (m.(err := Some(msg.err)), Quit)
  {
    match msg
    case FollowAddMsg(fid) => (m.(statusMsg := "FollowAdd " + NatToString(fid), follows := m.follows[fid := true]), ListenFc)
    case FollowRemoveMsg(fid) => (m.(statusMsg := "FollowRemove " + NatToString(fid), follows := m.follows[fid := false]), ListenFc)
    case ErrorEvent(e) => (m.(err := Some(e)), ListenErrors)
    case SystemError(e) => (m.(err := Some(e)), Quit)
  }

  /** A message no screen-independent case took, handed to the screen
      shown. */
  function Delegate(db: seq<LocalDb.Entry>, env: Env, m: Model, msg: Msg, rule: ListView.EndRule): (r: (Result<Model>, Cmd, seq<LocalDb.Entry>))
    requires LocalDb.Sorted(db)
    requires |m.form.inputs| == Form.InputCount
    ensures LocalDb.Sorted(r.2)
    ensures m.state == ListState ==> (r.0, r.2) == ListUpdate(db, env, m, msg, rule) && r.1 == NoCmd
    ensures m.state == FilePickerState ==> r == (Ok(PickerUpdate(env, m, msg)), NoCmd, db)
    ensures m.state == FormState ==> r == (Ok(FormUpdate(env, m, msg).0), FormUpdate(env, m, msg).1, db)
    ensures r.0.Ok? ==> |r.0.value.form.inputs| == Form.InputCount && |r.0.value.casts| == |m.casts|
                        && r.0.value.width == m.width && r.0.value.height == m.height
    ensures r.0.Ok? && HeightsMatch(m.casts) ==> HeightsMatch(r.0.value.casts)
  {
    match m.state
    case ListState =>
      var (res, db1) := ListUpdate(db, env, m, msg, rule);
      (res, NoCmd, db1)
    case FilePickerState => (Ok(PickerUpdate(env, m, msg)), NoCmd, db)
    case FormState =>
      var (m1, cmd) := FormUpdate(env, m, msg);
      (Ok(m1), cmd, db)
  }

  /** Update: the size is recorded first; feed messages, errors and the
      quit keys are handled whatever the screen; anything else goes to the
      screen shown. */
  function Update(db: seq<LocalDb.Entry>, env: Env, m: Model, msg: Msg, rule: ListView.EndRule): (r: (Result<Model>, Cmd, seq<LocalDb.Entry>))
    requires LocalDb.Sorted(db)
    requires |m.form.inputs| == Form.InputCount
    ensures LocalDb.Sorted(r.2)
    ensures r.0.Ok? ==> |r.0.value.form.inputs| == Form.InputCount
    ensures msg.WindowSize? ==> r == Delegate(db, env, m.(width := msg.width, height := msg.height), msg, rule)
    ensures msg.CastAddMsg? ==> r == AddCast(db, env, m, msg.cast)
    ensures msg.FollowAddMsg? || msg.FollowRemoveMsg? || msg.ErrorEvent? || msg.SystemError? ==>
              r == (Ok(Notify(m, msg).0), Notify(m, msg).1, db)
    ensures msg.Key? && msg.key in {"q", "ctrl+c"} ==> r == (Ok(m.(err := None)), Quit, db)
    ensures (msg.Key? && msg.key !in {"q", "ctrl+c"}) || msg.FormOutcome? || msg.NoMsg? ==> r == Delegate(db, env, m, msg, rule)
    ensures r.0.Ok? && !msg.CastAddMsg? ==> |r.0.value.casts| == |m.casts|
    ensures r.0.Ok? && HeightsMatch(m.casts) ==> HeightsMatch(r.0.value.casts)
  {
    match msg
    case CastAddMsg(cast) =>
      AddCastAppends(db, env, m, cast);
      AddCast(db, env, m, cast)
    case FollowAddMsg(_) => (Ok(Notify(m, msg).0), Notify(m, msg).1, db)
    case FollowRemoveMsg(_) => (Ok(Notify(m, msg).0), Notify(m, msg).1, db)
    case ErrorEvent(_) => (Ok(Notify(m, msg).0), Notify(m, msg).1, db)
    case SystemError(_) => (Ok(Notify(m, msg).0), Notify(m, msg).1, db)
    case WindowSize(w, h) => Delegate(db, env, m.(width := w, height := h), msg, rule)
    case Key(k) =>
      if k == "q" || k == "ctrl+c" then (Ok(m.(err := None)), Quit, db)
      else Delegate(db, env, m, msg, rule)
    case FormOutcome(_) => Delegate(db, env, m, msg, rule)
    case NoMsg => Delegate(db, env, m, msg, rule)
  }

  /** A follow event changes only its own entry. */
  lemma FollowTouchesOneEntry(db: seq<LocalDb.Entry>, env: Env, m: Model, fid: nat, other: nat, rule: ListView.EndRule)
    requires LocalDb.Sorted(db) && |m.form.inputs| == Form.InputCount
    requires other != fid
    ensures var r := Update(db, env, m, FollowAddMsg(fid), rule).0.value;
            (other in r.follows <==> other in m.follows)
            && (other in m.follows ==> r.follows[other] == m.follows[other])
    ensures var r := Update(db, env, m, FollowRemoveMsg(fid), rule).0.value;
            (other in r.follows <==> other in m.follows)
            && (other in m.follows ==> r.follows[other] == m.follows[other])
  {
  }

  /** With the corrected end, the list's cursor and window point at casts
      that exist, whatever message arrives: casts are only ever added, and
      every list step keeps the list valid. */
  lemma {:induction false} UpdateKeepsListValid(db: seq<LocalDb.Entry>, env: Env, m: Model, msg: Msg)
    requires LocalDb.Sorted(db) && |m.form.inputs| == Form.InputCount
    requires ListView.Valid(m.list, |m.casts|)
    requires Update(db, env, m, msg, ListView.Corrected).0.Ok?
    ensures var r := Update(db, env, m, msg, ListView.Corrected).0.value;
            ListView.Valid(r.list, |r.casts|)
  {
    var r := Update(db, env, m, msg, ListView.Corrected).0.value;
    var hs := Heights(m.casts);
    ListView.StepsKeepValid(m.list, hs, if msg.WindowSize? then msg.width else 0,
                            if msg.WindowSize? then msg.height else 0, 0);
    ListSteps(db, env, m, msg, ListView.Corrected);
  }

  /** The program as written keeps only the weaker bound: the cursor on a
      cast and the window's end at most one past the last. */
  lemma {:induction false} UpdateKeepsListBounded(db: seq<LocalDb.Entry>, env: Env, m: Model, msg: Msg)
    requires LocalDb.Sorted(db) && |m.form.inputs| == Form.InputCount
    requires ListView.Bounded(m.list, |m.casts|)
    requires Update(db, env, m, msg, ListView.AsWritten).0.Ok?
    ensures var r := Update(db, env, m, msg, ListView.AsWritten).0.value;
            ListView.Bounded(r.list, |r.casts|)
  {
    var hs := Heights(m.casts);
    ListView.AsWrittenStepsKeepBounded(m.list, hs, if msg.WindowSize? then msg.width else 0,
                                       if msg.WindowSize? then msg.height else 0, 0);
    ListSteps(db, env, m, msg, ListView.AsWritten);
  }

  /** What an update does to the list: a new cast leaves it and adds one
      cast; otherwise the casts keep their number and the list is left as
      it was, moved, or resized. */
  lemma {:induction false} ListSteps(db: seq<LocalDb.Entry>, env: Env, m: Model, msg: Msg, rule: ListView.EndRule)
    requires LocalDb.Sorted(db) && |m.form.inputs| == Form.InputCount
    requires Update(db, env, m, msg, rule).0.Ok?
    ensures var r := Update(db, env, m, msg, rule).0.value;
            var hs := Heights(m.casts);
            (msg.CastAddMsg? ==> r.list == m.list && |r.casts| == |m.casts| + 1)
            && (!msg.CastAddMsg? ==>
                  |r.casts| == |m.casts|
                  && (r.list == m.list || r.list == ListView.MoveCursorDown(m.list, hs)
                      || r.list == MoveUp(m.list, hs, rule)
                      || (msg.WindowSize? && r.list == ListView.Resize(m.list, msg.width, msg.height))))
  {
    var r := Update(db, env, m, msg, rule).0.value;
    if msg.CastAddMsg? {
      AddCastAppends(db, env, m, msg.cast);
    } else if msg.Key? && m.state == ListState && msg.key !in {"q", "ctrl+c"} {
      if msg.key == "u" && m.privateKey.Some? {
        assert r.list == m.list;
      } else if msg.key in {"enter", "right"} {
        DownloadTouchesCursorCast(db, env, m);
      }
    } else if msg.WindowSize? && m.state == ListState {
      assert r.list == ListView.Resize(m.list, msg.width, msg.height);
    } else if m.state == FormState {
      assert r.list == m.list;
    }
  }

  /** The model at start-up, before the first message: the list is shown,
      nothing is followed, no cast is held, and the picker lists the
      current directory. */
  function Start(fid: nat, privateKey: Option<seq<byte>>, env: Env): (m: Model)
    ensures m.state == ListState && m.follows == map[] && m.casts == []
    ensures m.fid == fid && m.privateKey == privateKey
    ensures |m.form.inputs| == Form.InputCount && m.list == ListView.Initial
    ensures m.picker.currentDir == "."
  {
    Model(ListState, [], map[], ListView.Initial, FilePicker.NewPicker(".", env.readDir),
          Form.NewForm(), None, "", 0, 0, fid, privateKey)
  }

  /** Init: the start-up model. A failed subscription is delivered as the
      first command, and the viewer's old casts are fetched into the
      start-up model only when the subscription worked and the viewer is
      known. */
  function Init(db: seq<LocalDb.Entry>, env: Env, fid: nat, privateKey: Option<seq<byte>>,
                subscribeError: Option<string>): (r: (Result<Model>, Cmd, seq<LocalDb.Entry>))
    requires LocalDb.Sorted(db)
    ensures LocalDb.Sorted(r.2)
    ensures r.0.Ok? ==> r.0.value.state == ListState && r.0.value.follows == map[]
                        && r.0.value.fid == fid && r.0.value.privateKey == privateKey
                        && |r.0.value.form.inputs| == Form.InputCount
                        && r.0.value.list == ListView.Initial && HeightsMatch(r.0.value.casts)
    ensures subscribeError.Some? ==> r == (Ok(Start(fid, privateKey, env)), Fail(subscribeError.value), db)
    ensures subscribeError.None? && fid == 0 ==> r == (Ok(Start(fid, privateKey, env)), ListenFc, db)
    ensures subscribeError.None? && fid > 0 ==>
              r.1 == ListenFc && (r.0, r.2) == UpdateWithOldCasts(db, env, Start(fid, privateKey, env))
  {
    var m := Start(fid, privateKey, env);
    if subscribeError.Some? then (Ok(m), Fail(subscribeError.value), db)
    else if fid > 0 then
      var (res, db1) := UpdateWithOldCasts(db, env, m);
      OldCastsHeights(db, env, m);
      (res, ListenFc, db1)
    else (Ok(m), ListenFc, db)
  }
}
