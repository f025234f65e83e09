/** The `setup` command's decisions: where the desktop is (from the XDG
    user-dirs file on Linux, else `~/Desktop` when it exists, else the home
    directory), the default download directory under it, and the value kept
    for each setting asked for. */
module Setup {
  import opened Wrappers
  import opened Text
  import Paths
  import Xdg

  /** The key the user-dirs file names the desktop with. */
  const DesktopKey: string := "XDG_DESKTOP_DIR"

  /** The path of the user-dirs file in the home directory. */
  function UserDirsFile(home: string): string {
    Paths.Join(Paths.Join(home, ".config"), "user-dirs.dirs")
  }

  /** The quoted value on one line of the user-dirs file: the text between
      the first and the last double quote, when those are two different
      quotes. */
  function QuotedValue(line: string): (r: Option<string>)
    ensures r.Some? <==> IndexOf(line, '"').Some? && LastIndexOf(line, '"').value > IndexOf(line, '"').value
    ensures r.Some? ==> r.value == line[IndexOf(line, '"').value + 1..LastIndexOf(line, '"').value]
  {
    match IndexOf(line, '"')
    case None => None
    case Some(start) =>
      var end := LastIndexOf(line, '"').value;
      if end > start then Some(line[start + 1..end]) else None
  }

  /** A line that names the desktop: it starts with the key and quotes a
      value. */
  predicate NamesDesktop(line: string) {
    HasPrefix(line, DesktopKey) && QuotedValue(line).Some?
  }

  /** The desktop a naming line gives, "$HOME" replaced by the home
      directory. */
  function DesktopOfLine(line: string, home: string): string
    requires NamesDesktop(line)
  {
    ReplaceAll(QuotedValue(line).value, "$HOME", home)
  }

  /** The scan over the file's lines from `i` on: the index of the first
      line that names the desktop; a line with the key but without two
      quotes is passed over. */
  function FirstDesktopLine(lines: seq<string>, i: nat): (r: Option<nat>)
    requires i <= |lines|
    ensures r.None? <==> forall k :: i <= k < |lines| ==> !NamesDesktop(lines[k])
    ensures r.Some? ==> i <= r.value < |lines| && NamesDesktop(lines[r.value])
                        && forall j :: i <= j < r.value ==> !NamesDesktop(lines[j])
    decreases |lines| - i
  {
    if i == |lines| then None
    else if NamesDesktop(lines[i]) then Some(i)
    else FirstDesktopLine(lines, i + 1)
  }

  /** The desktop the user-dirs file names, if any. */
  function DesktopInFile(contents: string, home: string): Option<string> {
    var lines := Split(contents, '\n');
    match FirstDesktopLine(lines, 0)
    case None => None
    case Some(k) => Some(DesktopOfLine(lines[k], home))
  }

  /** getDesktopPath. `home` is the home directory lookup, `linux` whether
      the program runs on Linux, `readFile` the file system's contents and
      `stat` what it says of a path. */
  function DesktopPath(home: Result<string>, linux: bool, readFile: string -> Result<string>,
                       stat: string -> Xdg.Stat): (r: string)
    ensures home.Err? ==> r == ""
    ensures home.Ok? && linux && readFile(UserDirsFile(home.value)).Ok?
            && DesktopInFile(readFile(UserDirsFile(home.value)).value, home.value).Some? ==>
              r == DesktopInFile(readFile(UserDirsFile(home.value)).value, home.value).value
    ensures home.Ok? && (!linux || readFile(UserDirsFile(home.value)).Err?
                         || DesktopInFile(readFile(UserDirsFile(home.value)).value, home.value).None?) ==>
              r == (if stat(Paths.Join(home.value, "Desktop")) == Xdg.Missing then home.value
                    else Paths.Join(home.value, "Desktop"))
  {
    if home.Err? then ""
    else
      var desktop := Paths.Join(home.value, "Desktop");
      var fromFile :=
        if linux && readFile(UserDirsFile(home.value)).Ok? then
          DesktopInFile(readFile(UserDirsFile(home.value)).value, home.value)
        else None;
      if fromFile.Some? then fromFile.value
      else if stat(desktop) == Xdg.Missing then home.value
      else desktop
  }

  /** defaultDownloadDir: `lemon3` under the desktop. */
  function DefaultDownloadDir(desktop: string): (d: string)
    ensures desktop !in {"", ".", "/"} ==> d == desktop + "/lemon3"
    ensures desktop in {"", "."} ==> d == "lemon3"
  {
    Paths.Join(desktop, "lemon3")
  }

  /** The line the desktop entry is written as in a user-dirs file. */
  function DesktopEntry(path: string): string {
    DesktopKey + "=\"" + path + "\""
  }

  /** A desktop entry written for a path without quotes reads back as that
      path, with "$HOME" expanded. */
  lemma EntryReadsBack(path: string, home: string)
    requires forall k :: 0 <= k < |path| ==> path[k] != '"'
    ensures NamesDesktop(DesktopEntry(path))
    ensures DesktopOfLine(DesktopEntry(path), home) == ReplaceAll(path, "$HOME", home)
  {
    var line := DesktopEntry(path);
    var start := |DesktopKey| + 1;
    var end := |line| - 1;
    assert line[..|DesktopKey|] == DesktopKey;
    assert line[start] == '"' && line[end] == '"';
    assert forall k :: 0 <= k < start ==> line[k] != '"';
    assert forall k :: start < k < end ==> line[k] == path[k - start - 1];
    assert IndexOf(line, '"') == Some(start) by {
      FirstQuote(line, start);
    }
    assert LastIndexOf(line, '"') == Some(end);
    assert line[start + 1..end] == path;
  }

  lemma FirstQuote(s: string, i: nat)
    requires i < |s| && s[i] == '"'
    requires forall k :: 0 <= k < i ==> s[k] != '"'
    ensures IndexOf(s, '"') == Some(i)
  {
    var r := IndexOf(s, '"');
    assert r.Some?;
    assert r.value <= i;
  }

  /** The value kept for one setting: what was typed, trimmed, if
      anything; else the value already configured, if any; else the
      default. */
  function Choose(input: string, current: string, default: string): (v: string)
    ensures TrimSpace(input) != "" ==> v == TrimSpace(input)
    ensures TrimSpace(input) == "" && current != "" ==> v == current
    ensures TrimSpace(input) == "" && current == "" ==> v == default
  {
    if TrimSpace(input) != "" then TrimSpace(input)
    else if current != "" then current
    else default
  }

  /** One setting the command asks for, with its default. */
  datatype ConfigEntry = ConfigEntry(key: string, default: string)

  /** The keys of the settings are all different. */
  predicate DistinctKeys(es: seq<ConfigEntry>) {
    forall a, b :: 0 <= a < b < |es| ==> es[a].key != es[b].key
  }

  /** The settings asked for, in order, with their defaults. */
  function Entries(downloadDir: string): (es: seq<ConfigEntry>)
    ensures |es| == 7 && es[6] == ConfigEntry("download.dir", downloadDir)
  {
    [ConfigEntry("farcaster.node.address", ""),
     ConfigEntry("farcaster.node.ssl", "false"),
     ConfigEntry("farcaster.node.apikey", ""),
     ConfigEntry("farcaster.account.fname", ""),
     ConfigEntry("farcaster.account.appkey", ""),
     ConfigEntry("ipfs.hub", "http://127.0.0.1:5001/api/v0"),
     ConfigEntry("download.dir", downloadDir)]
  }

  /** No setting is asked for twice: the keys' lengths already differ. */
  lemma EntriesDistinct(downloadDir: string)
    ensures DistinctKeys(Entries(downloadDir))
  {
    var es := Entries(downloadDir);
    assert |es[0].key| == 22 && |es[1].key| == 18 && |es[2].key| == 21 && |es[3].key| == 23;
    assert |es[4].key| == 24 && |es[5].key| == 8 && |es[6].key| == 12;
  }

  /** The input line read for the i-th setting; "" once the input is
      exhausted, as reading past its end gives. */
  function InputAt(inputs: seq<string>, i: nat): string {
    if i < |inputs| then inputs[i] else ""
  }

  /** The current value of a key; "" when it is not set. */
  function Current(config: map<string, string>, key: string): string {
    if key in config then config[key] else ""
  }

  /** The setup loop from the i-th setting on: each setting is set to its
      chosen value, read against the configuration as it was loaded. */
  function Run(es: seq<ConfigEntry>, inputs: seq<string>, loaded: map<string, string>,
               i: nat, acc: map<string, string>): (r: map<string, string>)
    requires i <= |es|
    ensures forall k :: k in acc ==> k in r
    ensures forall k :: k in r ==> k in acc || exists j :: i <= j < |es| && es[j].key == k
    decreases |es| - i
  {
    if i == |es| then acc
    else
      var e := es[i];
      var v := Choose(InputAt(inputs, i), Current(loaded, e.key), e.default);
      Run(es, inputs, loaded, i + 1, acc[e.key := v])
  }

  /** After setup every setting asked for holds its chosen value, and every
      other key keeps the value it had. */
  lemma {:induction false} RunSetsEach(es: seq<ConfigEntry>, inputs: seq<string>, loaded: map<string, string>,
                                       i: nat, acc: map<string, string>)
    requires i <= |es| && DistinctKeys(es)
    ensures var r := Run(es, inputs, loaded, i, acc);
            (forall j :: i <= j < |es| ==>
               es[j].key in r && r[es[j].key] == Choose(InputAt(inputs, j), Current(loaded, es[j].key), es[j].default))
            && (forall k :: k in acc && (forall j :: i <= j < |es| ==> es[j].key != k) ==> k in r && r[k] == acc[k])
    decreases |es| - i
  {
    if i < |es| {
      var e := es[i];
      var v := Choose(InputAt(inputs, i), Current(loaded, e.key), e.default);
      var acc' := acc[e.key := v];
      RunSetsEach(es, inputs, loaded, i + 1, acc');
      var r := Run(es, inputs, loaded, i + 1, acc');
      assert Run(es, inputs, loaded, i, acc) == r;
      assert forall j :: i + 1 <= j < |es| ==> es[j].key != e.key;
      assert e.key in r && r[e.key] == v;
    }
  }

  /** Running setup again and pressing enter at every prompt changes
      nothing: a kept value is never blank unless the default was. */
  lemma ChooseAgain(input: string, current: string, default: string)
    ensures Choose("", Choose(input, current, default), default) == Choose(input, current, default)
  {
    assert TrimSpace("") == "";
  }
}
