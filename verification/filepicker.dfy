/** The file picker of the terminal interface: the entries of one
    directory, directories first, with a cursor and a scrolled window. The
    directory listing is given as a function of the directory. */
module FilePicker {
  import opened Wrappers
  import opened Text
  import Paths

  /** One row of the picker; `path` is what selecting it opens. */
  datatype FileEntry = FileEntry(name: string, path: string, isDir: bool)

  /** One entry of a directory listing. */
  datatype DirEntry = DirEntry(name: string, isDir: bool)

  datatype Picker = Picker(
    currentDir: string,
    files: seq<FileEntry>,
    cursor: int,
    scrollOffset: int,
    width: int,
    height: int,
    maxVisible: int,
    err: Option<string>)

  /** What a key asks of the main model besides the picker's own change. */
  datatype Intent = Stay | ShowForm(path: string) | ShowList

  /** The window height before the terminal's size is known. */
  const DefaultMaxVisible: int := 50

  /** The sort order: directories before files, each group by name. */
  predicate Before(a: FileEntry, b: FileEntry) {
    if a.isDir != b.isDir then a.isDir else LexLess(a.name, b.name)
  }

  /** Sorted: no entry comes after one it sorts before. */
  predicate SortedEntries(s: seq<FileEntry>) {
    forall i, j :: 0 <= i < j < |s| ==> !Before(s[j], s[i])
  }

  /** `Before` never holds both ways. */
  lemma BeforeAsymmetric(a: FileEntry, b: FileEntry)
    ensures !(Before(a, b) && Before(b, a))
  {
    LexAsymmetric(a.name, b.name);
  }

  /** Not sorting after is transitive. */
  lemma NotBeforeTransitive(a: FileEntry, b: FileEntry, c: FileEntry)
    requires !Before(b, a) && !Before(c, b)
    ensures !Before(c, a)
  {
    if a.isDir == b.isDir && b.isDir == c.isDir && Before(c, a) {
      if a.name == b.name {
      } else if b.name == c.name {
      } else {
        LexTotal(a.name, b.name);
        LexTotal(b.name, c.name);
        LexTransitive(a.name, b.name, c.name);
        LexAsymmetric(a.name, c.name);
      }
    }
  }

  /** Places `x` in the sorted `s`, in front of the first entry it does not
      sort after. */
  function Insert(x: FileEntry, s: seq<FileEntry>): (r: seq<FileEntry>)
    requires SortedEntries(s)
    ensures multiset(r) == multiset(s) + multiset{x}
    ensures SortedEntries(r)
    decreases |s|
  {
    if |s| == 0 || !Before(s[0], x) then
      assert forall k :: 0 < k < |s| ==> !Before(s[k], x) by {
        forall k | 0 < k < |s| ensures !Before(s[k], x) {
          NotBeforeTransitive(x, s[0], s[k]);
        }
      }
      [x] + s
    else
      var rest := Insert(x, s[1..]);
      assert s == [s[0]] + s[1..];
      assert forall k :: 0 <= k < |rest| ==> !Before(rest[k], s[0]) by {
        forall k | 0 <= k < |rest| ensures !Before(rest[k], s[0]) {
          assert rest[k] in multiset(rest);
          assert rest[k] == x || rest[k] in multiset(s[1..]);
          if rest[k] == x {
            BeforeAsymmetric(s[0], x);
          } else {
            var j :| 0 <= j < |s[1..]| && s[1..][j] == rest[k];
            assert s[j + 1] == rest[k];
          }
        }
      }
      [s[0]] + rest
  }

  /** The sort of the listing: the same entries, in order. */
  function Sort(s: seq<FileEntry>): (r: seq<FileEntry>)
    ensures multiset(r) == multiset(s)
    ensures SortedEntries(r)
  {
    if |s| == 0 then []
    else
      assert s == [s[0]] + s[1..];
      Insert(s[0], Sort(s[1..]))
  }

  /** The rows before sorting: ".." for the parent unless at the root, then
      every entry whose name does not start with ".", in listing order. */
  function Candidates(dir: string, entries: seq<DirEntry>): (fs: seq<FileEntry>)
    ensures Paths.Dir(dir) != dir ==> |fs| > 0 && fs[0] == FileEntry("..", Paths.Dir(dir), true)
  {
    var parent := if Paths.Dir(dir) != dir then [FileEntry("..", Paths.Dir(dir), true)] else [];
    parent + Shown(dir, entries)
  }

  /** The listed entries that are not hidden, each with its joined path. */
  function Shown(dir: string, entries: seq<DirEntry>): (fs: seq<FileEntry>)
    ensures forall f :: f in fs <==> exists e :: e in entries && !HasPrefix(e.name, ".")
                                            && f == FileEntry(e.name, Paths.Join(dir, e.name), e.isDir)
  {
    if |entries| == 0 then []
    else
      var e := entries[0];
      var rest := Shown(dir, entries[1..]);
      assert entries == [e] + entries[1..];
      if HasPrefix(e.name, ".") then rest
      else [FileEntry(e.name, Paths.Join(dir, e.name), e.isDir)] + rest
  }

  /** loadFiles: a listing error is recorded and changes nothing else; a
      listing replaces the rows with the sorted candidates and puts the
      cursor and the scroll at the top. An earlier error stays. */
  function LoadFiles(m: Picker, readDir: string -> Result<seq<DirEntry>>): (m': Picker)
    ensures readDir(m.currentDir).Err? ==> m' == m.(err := Some(readDir(m.currentDir).msg))
    ensures readDir(m.currentDir).Ok? ==>
              m'.cursor == 0 && m'.scrollOffset == 0 && m'.err == m.err && m'.currentDir == m.currentDir
              && multiset(m'.files) == multiset(Candidates(m.currentDir, readDir(m.currentDir).value))
              && SortedEntries(m'.files)
  {
    match readDir(m.currentDir)
    case Err(e) => m.(err := Some(e))
    case Ok(entries) =>
      m.(files := Sort(Candidates(m.currentDir, entries)), cursor := 0, scrollOffset := 0)
  }

  /** newFilePickerModel: the listing of `startDir` in a 50-row window. */
  function NewPicker(startDir: string, readDir: string -> Result<seq<DirEntry>>): (m: Picker)
    ensures m.currentDir == startDir && m.maxVisible == DefaultMaxVisible
    ensures m.cursor == 0 && m.scrollOffset == 0
    ensures readDir(startDir).Err? <==> m.err.Some?
  {
    LoadFiles(Picker(startDir, [], 0, 0, 0, 0, DefaultMaxVisible, None), readDir)
  }

  /** Every row of a loaded picker is the parent or a visible entry. */
  lemma LoadedRows(m: Picker, readDir: string -> Result<seq<DirEntry>>, f: FileEntry)
    requires readDir(m.currentDir).Ok?
    requires f in LoadFiles(m, readDir).files
    ensures (f.name == ".." && f.isDir && f.path == Paths.Dir(m.currentDir) != m.currentDir)
            || (!HasPrefix(f.name, ".") && f.path == Paths.Join(m.currentDir, f.name))
  {
    var entries := readDir(m.currentDir).value;
    var parent := if Paths.Dir(m.currentDir) != m.currentDir then [FileEntry("..", Paths.Dir(m.currentDir), true)] else [];
    var fs := Candidates(m.currentDir, entries);
    assert fs == parent + Shown(m.currentDir, entries);
    assert f in multiset(fs);
    assert f in fs;
    if f !in parent {
      assert f in Shown(m.currentDir, entries);
    }
  }

  /** The row for a moved cursor: down to the next row while one is left,
      scrolling by one when the cursor would leave the window. */
  function Down(m: Picker): (m': Picker)
    ensures m.cursor < |m.files| - 1 ==> m'.cursor == m.cursor + 1
    ensures m.cursor >= |m.files| - 1 ==> m' == m
    ensures m'.scrollOffset == m.scrollOffset || m'.scrollOffset == m.scrollOffset + 1
    ensures m'.files == m.files && m'.maxVisible == m.maxVisible
  {
    if m.cursor < |m.files| - 1 then
      var c := m.cursor + 1;
      m.(cursor := c, scrollOffset := if c - m.scrollOffset >= m.maxVisible then m.scrollOffset + 1 else m.scrollOffset)
    else m
  }

  /** Up to the previous row unless at the top, scrolling back by one when
      the cursor would leave the window. */
  function Up(m: Picker): (m': Picker)
    ensures m.cursor > 0 ==> m'.cursor == m.cursor - 1
    ensures m.cursor <= 0 ==> m' == m
    ensures m'.scrollOffset == m.scrollOffset || m'.scrollOffset == m.scrollOffset - 1
    ensures m'.files == m.files && m'.maxVisible == m.maxVisible
  {
    if m.cursor > 0 then
      var c := m.cursor - 1;
      m.(cursor := c, scrollOffset := if c < m.scrollOffset then m.scrollOffset - 1 else m.scrollOffset)
    else m
  }

  /** The cursor is on a row and inside the window. */
  predicate InWindow(m: Picker) {
    0 <= m.scrollOffset <= m.cursor < m.scrollOffset + m.maxVisible
    && (m.cursor < |m.files| || m.cursor == 0)
  }

  /** Moving either way keeps the cursor on a row and inside the window. */
  lemma MovesKeepWindow(m: Picker)
    requires InWindow(m) && m.maxVisible >= 1
    ensures InWindow(Down(m)) && InWindow(Up(m))
  {
  }

  /** A load puts the cursor inside any window of at least one row. */
  lemma LoadInWindow(m: Picker, readDir: string -> Result<seq<DirEntry>>)
    requires InWindow(m) && m.maxVisible >= 1
    ensures InWindow(LoadFiles(m, readDir))
  {
  }

  /** Opening a row: a directory is listed in place of the current one, a
      file is handed to the form. */
  function Open(m: Picker, readDir: string -> Result<seq<DirEntry>>, filesToo: bool): (r: (Picker, Intent))
    ensures !(0 <= m.cursor < |m.files|) ==> r == (m, Stay)
    ensures 0 <= m.cursor < |m.files| && m.files[m.cursor].isDir ==>
              r == (LoadFiles(m.(currentDir := m.files[m.cursor].path), readDir), Stay)
    ensures 0 <= m.cursor < |m.files| && !m.files[m.cursor].isDir ==>
              r == (m, if filesToo then ShowForm(m.files[m.cursor].path) else Stay)
  {
    if 0 <= m.cursor < |m.files| then
      var selected := m.files[m.cursor];
      if selected.isDir then (LoadFiles(m.(currentDir := selected.path), readDir), Stay)
      else (m, if filesToo then ShowForm(selected.path) else Stay)
    else (m, Stay)
  }

  /** Update for a key: j/down and k/up move, right opens a directory,
      enter opens a directory or picks a file, left goes to the parent
      unless at the root, esc goes back to the list. */
  function Key(m: Picker, key: string, readDir: string -> Result<seq<DirEntry>>): (r: (Picker, Intent))
    ensures key in {"j", "down"} ==> r == (Down(m), Stay)
    ensures key in {"k", "up"} ==> r == (Up(m), Stay)
    ensures key == "left" && Paths.Dir(m.currentDir) != m.currentDir ==>
              r == (LoadFiles(m.(currentDir := Paths.Dir(m.currentDir)), readDir), Stay)
    ensures key == "left" && Paths.Dir(m.currentDir) == m.currentDir ==> r == (m, Stay)
    ensures key == "esc" ==> r == (m, ShowList)
    ensures key == "right" ==> r == Open(m, readDir, false)
    ensures key == "enter" ==> r == Open(m, readDir, true)
    ensures key in {"right", "enter"} && 0 <= m.cursor < |m.files| && m.files[m.cursor].isDir ==>
              r == (LoadFiles(m.(currentDir := m.files[m.cursor].path), readDir), Stay)
    ensures key == "enter" && 0 <= m.cursor < |m.files| && !m.files[m.cursor].isDir ==>
              r == (m, ShowForm(m.files[m.cursor].path))
    ensures key != "enter" && key != "esc" ==> r.1 == Stay
    ensures key !in {"j", "down", "k", "up", "right", "left", "enter", "esc"} ==> r == (m, Stay)
  {
    if key == "j" || key == "down" then (Down(m), Stay)
    else if key == "k" || key == "up" then (Up(m), Stay)
    else if key == "right" then Open(m, readDir, false)
    else if key == "left" then
      var parent := Paths.Dir(m.currentDir);
      if parent != m.currentDir then (LoadFiles(m.(currentDir := parent), readDir), Stay) else (m, Stay)
    else if key == "enter" then Open(m, readDir, true)
    else if key == "esc" then (m, ShowList)
    else (m, Stay)
  }

  /** Update for a resize: the window is the terminal less three rows, and
      at least three; the scroll is left as it is. */
  function Resize(m: Picker, width: int, height: int): (m': Picker)
    ensures m'.width == width && m'.height == height
    ensures m'.maxVisible >= 3 && m'.maxVisible >= height - 3
    ensures m'.maxVisible == 3 || m'.maxVisible == height - 3
    ensures m'.cursor == m.cursor && m'.scrollOffset == m.scrollOffset && m'.files == m.files
  {
    var visible := if height - 3 < 3 then 3 else height - 3;
    m.(width := width, height := height, maxVisible := visible)
  }

  /** The rows View draws, `files[scrollOffset:end]` with `end` the window's
      end cut at the last row; the slice panics when it is out of range. */
  function VisibleRange(m: Picker): (r: Result<(nat, nat)>)
    ensures r.Ok? ==> r.value.0 <= r.value.1 <= |m.files|
    ensures r.Ok? ==> r.value.1 == |m.files| || r.value.1 == m.scrollOffset + m.maxVisible
    ensures r.Ok? <==> 0 <= m.scrollOffset <= (if m.scrollOffset + m.maxVisible > |m.files| then |m.files| else m.scrollOffset + m.maxVisible)
  {
    var end := if m.scrollOffset + m.maxVisible > |m.files| then |m.files| else m.scrollOffset + m.maxVisible;
    if 0 <= m.scrollOffset <= end then Ok((m.scrollOffset as nat, end as nat))
    else Err("slice bounds out of range")
  }

  /** With the cursor in the window, View's slice is in range and shows the
      cursor's row. */
  lemma WindowShowsCursor(m: Picker)
    requires InWindow(m) && |m.files| > 0
    ensures VisibleRange(m).Ok?
    ensures VisibleRange(m).value.0 <= m.cursor < VisibleRange(m).value.1
  {
  }
}
