/** The form that turns a picked file into an enclosure: a file-name input
    and a description input, one of them focused, and the submission. The
    inputs' own editing belongs to the text-input library; here their values
    are part of the form's state. */
module Form {
  import opened Wrappers
  import opened Text
  import opened Bytes
  import opened Farcaster
  import Paths
  import Enclosure

  /** The index of the file-name input. */
  const FileNameField: nat := 0
  /** The index of the description input. */
  const DescriptionField: nat := 1
  /** The number of inputs. */
  const InputCount: nat := 2

  /** The type used when the file's extension names none. */
  const DefaultMimeType: string := "application/octet-stream"

  datatype Input = Input(value: string, focused: bool)

  datatype Form = Form(
    selectedFile: string,
    inputs: seq<Input>,
    focusIndex: int,
    width: int,
    height: int,
    err: Option<string>,
    isSubmitting: bool)

  /** What the form asks for: an upload to run, or a return to the list. */
  datatype Submission = Submission(filePath: string, fileName: string, mimeType: string, description: string)
  datatype Effect = NoEffect | Submit(s: Submission) | BackToList

  /** The messages the upload sends back. */
  datatype Outcome = Succeeded(data: MessageData) | Failed(err: string)

  /** newFormModel: two empty inputs, the first focused. */
  function NewForm(): (f: Form)
    ensures |f.inputs| == InputCount && f.focusIndex == FileNameField
    ensures forall i :: 0 <= i < |f.inputs| ==> f.inputs[i].value == "" && (f.inputs[i].focused <==> i == f.focusIndex)
    ensures f.err.None? && !f.isSubmitting
  {
    Form("", [Input("", true), Input("", false)], 0, 0, 0, None, false)
  }

  /** The inputs with exactly the one at `index` focused. */
  function FocusOnly(inputs: seq<Input>, index: int): (r: seq<Input>)
    ensures |r| == |inputs|
    ensures forall i :: 0 <= i < |r| ==> r[i].value == inputs[i].value && (r[i].focused <==> i == index)
  {
    seq(|inputs|, i requires 0 <= i < |inputs| => inputs[i].(focused := i == index))
  }

  /** The next input, wrapping to the first after the last. */
  function NextIndex(index: int, n: nat): (k: int)
    ensures index + 1 < n ==> k == index + 1
    ensures index + 1 >= n ==> k == 0
  {
    if index + 1 >= n then 0 else index + 1
  }

  /** The previous input, wrapping to the last before the first. */
  function PrevIndex(index: int, n: nat): (k: int)
    ensures index - 1 >= 0 ==> k == index - 1
    ensures index - 1 < 0 ==> k == n - 1
  {
    if index - 1 < 0 then n - 1 else index - 1
  }

  /** Cycling through the inputs visits each once before coming back. */
  lemma NextCycles(index: nat, n: nat)
    requires index < n
    ensures 0 <= NextIndex(index, n) < n
    ensures PrevIndex(NextIndex(index, n), n) == index
    ensures NextIndex(PrevIndex(index, n), n) == index
  {
  }

  /** submitForm: a blank trimmed file name is refused with an error;
      otherwise the form is submitting and the upload carries the trimmed
      name and description and the type the extension names. */
  function SubmitForm(f: Form, typeByExtension: string -> string): (r: (Form, Effect))
    requires |f.inputs| == InputCount
    ensures TrimSpace(f.inputs[FileNameField].value) == "" ==>
              r == (f.(err := Some("filename is required")), NoEffect)
    ensures TrimSpace(f.inputs[FileNameField].value) != "" ==>
              r.0 == f.(isSubmitting := true) && r.1.Submit?
              && r.1.s.filePath == f.selectedFile
              && r.1.s.fileName == TrimSpace(f.inputs[FileNameField].value)
              && r.1.s.description == TrimSpace(f.inputs[DescriptionField].value)
    ensures r.1.Submit? ==> var ext := Paths.Ext(f.selectedFile);
              (r.1.s.mimeType == DefaultMimeType <==> ext == "" || typeByExtension(ext) == "" || typeByExtension(ext) == DefaultMimeType)
              && (r.1.s.mimeType != DefaultMimeType ==> r.1.s.mimeType == typeByExtension(ext))
  {
    var fileName := TrimSpace(f.inputs[FileNameField].value);
    if fileName == "" then (f.(err := Some("filename is required")), NoEffect)
    else
      var description := TrimSpace(f.inputs[DescriptionField].value);
      var ext := Paths.Ext(f.selectedFile);
      var mimeType := if ext != "" && typeByExtension(ext) != "" then typeByExtension(ext) else DefaultMimeType;
      (f.(isSubmitting := true), Submit(Submission(f.selectedFile, fileName, mimeType, description)))
  }

  /** Update for a key. Keys are ignored while submitting; tab/down and
      shift+tab/up move the focus, wrapping; enter submits on the last
      input and otherwise moves on; esc goes back to the list. */
  function Key(f: Form, key: string, typeByExtension: string -> string): (r: (Form, Effect))
    requires |f.inputs| == InputCount
    ensures |r.0.inputs| == InputCount
    ensures f.isSubmitting ==> r == (f, NoEffect)
    ensures !f.isSubmitting && key in {"tab", "down"} ==>
              r.0 == f.(focusIndex := NextIndex(f.focusIndex, InputCount),
                        inputs := FocusOnly(f.inputs, NextIndex(f.focusIndex, InputCount)))
    ensures !f.isSubmitting && key in {"shift+tab", "up"} ==>
              r.0 == f.(focusIndex := PrevIndex(f.focusIndex, InputCount),
                        inputs := FocusOnly(f.inputs, PrevIndex(f.focusIndex, InputCount)))
    ensures !f.isSubmitting && key == "enter" && f.focusIndex == InputCount - 1 ==>
              r == SubmitForm(f, typeByExtension)
    ensures !f.isSubmitting && key == "enter" && f.focusIndex != InputCount - 1 ==>
              r.0.focusIndex == NextIndex(f.focusIndex, InputCount) && r.1 == NoEffect
    ensures !f.isSubmitting && key == "esc" ==> r == (f, BackToList)
    ensures r.1.Submit? ==> key == "enter" && r.0.isSubmitting
  {
    if f.isSubmitting then (f, NoEffect)
    else if key in {"tab", "shift+tab", "up", "down"} then
      var k := if key == "up" || key == "shift+tab" then PrevIndex(f.focusIndex, InputCount)
               else NextIndex(f.focusIndex, InputCount);
      (f.(focusIndex := k, inputs := FocusOnly(f.inputs, k)), NoEffect)
    else if key == "enter" then
      if f.focusIndex == InputCount - 1 then SubmitForm(f, typeByExtension)
      else
        var k := NextIndex(f.focusIndex, InputCount);
        (f.(focusIndex := k, inputs := FocusOnly(f.inputs, k)), NoEffect)
    else if key == "esc" then (f, BackToList)
    else (f, NoEffect)
  }

  /** The focus index names an input, and exactly that input is focused. */
  predicate FocusValid(f: Form) {
    |f.inputs| == InputCount && 0 <= f.focusIndex < InputCount
    && forall i :: 0 <= i < |f.inputs| ==> (f.inputs[i].focused <==> i == f.focusIndex)
  }

  /** Every key keeps one input, the indexed one, focused. */
  lemma {:induction false} KeyKeepsFocus(f: Form, key: string, typeByExtension: string -> string)
    requires FocusValid(f)
    ensures FocusValid(Key(f, key, typeByExtension).0)
  {
    var r := Key(f, key, typeByExtension);
    if !f.isSubmitting && key == "enter" && f.focusIndex == InputCount - 1 {
      assert r.0.inputs == f.inputs && r.0.focusIndex == f.focusIndex;
    }
  }

  /** Update for the upload's answer: success goes back to the list; an
      error is shown and the form can be submitted again. */
  function Answer(f: Form, o: Outcome): (r: (Form, Effect))
    ensures o.Succeeded? ==> r == (f, BackToList)
    ensures o.Failed? ==> r == (f.(err := Some(o.err), isSubmitting := false), NoEffect)
  {
    match o
    case Succeeded(_) => (f, BackToList)
    case Failed(e) => (f.(err := Some(e), isSubmitting := false), NoEffect)
  }

  /** The submission's command: create the enclosure, then post it. */
  function RunSubmission(s: Submission, ipfs: Enclosure.IpfsNode, stat: string -> Result<Enclosure.Int64>,
                         guessMime: string -> Result<string>, codec: Enclosure.JsonCodec,
                         hub: Option<Hub>, crypto: Crypto, fid: nat, privateKey: seq<byte>, now: int): (o: Outcome)
    ensures var e := Enclosure.NewEnclosure(ipfs, stat, guessMime, codec, s.filePath, s.fileName, s.mimeType, s.description);
            (e.Err? ==> o == Failed(e.msg))
            && (e.Ok? ==> var p := Enclosure.Post(e.value, hub, crypto, fid, privateKey, now);
                          (p.Err? ==> o == Failed(p.msg)) && (p.Ok? ==> o == Succeeded(p.value)))
  {
    match Enclosure.NewEnclosure(ipfs, stat, guessMime, codec, s.filePath, s.fileName, s.mimeType, s.description)
    case Err(e) => Failed(e)
    case Ok(enc) =>
      match Enclosure.Post(enc, hub, crypto, fid, privateKey, now)
      case Err(e) => Failed(e)
      case Ok(d) => Succeeded(d)
  }

  /** A successful upload posts a cast linking the enclosure named as the
      form said. */
  lemma SubmittedCastLinksEnclosure(s: Submission, ipfs: Enclosure.IpfsNode, stat: string -> Result<Enclosure.Int64>,
                                    guessMime: string -> Result<string>, codec: Enclosure.JsonCodec,
                                    hub: Option<Hub>, crypto: Crypto, fid: nat, privateKey: seq<byte>, now: int)
    requires RunSubmission(s, ipfs, stat, guessMime, codec, hub, crypto, fid, privateKey, now).Succeeded?
    ensures var d := RunSubmission(s, ipfs, stat, guessMime, codec, hub, crypto, fid, privateKey, now).data;
            HasPrefix(CastAddBodyOf(d).text, s.fileName + "\n" + s.description + "\n")
            && |Urls(CastAddBodyOf(d).embeds)| == 1
            && HasPrefix(Urls(CastAddBodyOf(d).embeds)[0], Enclosure.EnclosureScheme)
  {
    var e := Enclosure.NewEnclosure(ipfs, stat, guessMime, codec, s.filePath, s.fileName, s.mimeType, s.description);
    Enclosure.PostedLinkNamesEnclosure(e.value, hub, crypto, fid, privateKey, now);
    PrefixOfConcat(s.fileName + "\n" + s.description + "\n", "\n[with lemon3]");
  }
}
