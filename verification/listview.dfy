/** The list of casts in the terminal interface: a cursor and a window of
    consecutive casts that fits the terminal, each cast taking its rendered
    height plus one line. The casts are given by their heights. */
module ListView {
  /** The list's own state. */
  /** The cursor and the window's start never go below the first cast. */
  datatype ListModel = ListModel(cursor: nat, width: int, height: int, viewStart: nat, viewEnd: int)

  /** The state before anything happened. */
  const Initial: ListModel := ListModel(0, 0, 0, 0, 0)

  /** The lines the casts may use: the terminal less the title, the gap
      and the navigation bar. */
  function WindowHeight(m: ListModel): (h: int)
    ensures h + 4 == m.height
  {
    m.height - 4
  }

  /** The lines casts `a` up to (not including) `b` take. */
  function Used(hs: seq<nat>, a: nat, b: nat): nat
    requires a <= b <= |hs|
    decreases b - a
  {
    if a == b then 0 else hs[a] + 1 + Used(hs, a + 1, b)
  }

  /** Adding the next cast adds its lines. */
  lemma {:induction false} UsedSnoc(hs: seq<nat>, a: nat, b: nat)
    requires a <= b < |hs|
    ensures Used(hs, a, b + 1) == Used(hs, a, b) + hs[b] + 1
    decreases b - a
  {
    if a < b {
      UsedSnoc(hs, a + 1, b);
    }
  }

  /** How many casts from `a` on fit in `room` lines, taken in order. */
  function FitCount(hs: seq<nat>, a: nat, room: int): (k: nat)
    requires a <= |hs|
    ensures a + k <= |hs|
    ensures k > 0 ==> Used(hs, a, a + k) <= room
    ensures a + k < |hs| ==> Used(hs, a, a + k + 1) > room
    decreases |hs| - a
  {
    if a == |hs| || hs[a] + 1 > room then 0
    else 1 + FitCount(hs, a + 1, room - hs[a] - 1)
  }

  /** initViewport: the window starts at the top and ends at the last cast
      of the longest prefix that fits, -1 when even the first does not; the
      cursor goes back to the top when something does not fit. */
  function InitViewport(m: ListModel, hs: seq<nat>): (m': ListModel)
    ensures m'.viewStart == 0 && m'.width == m.width && m'.height == m.height
    ensures |hs| > 0 ==> -1 <= m'.viewEnd < |hs|
    ensures |hs| > 0 ==> m'.viewEnd + 1 == FitCount(hs, 0, WindowHeight(m))
    ensures |hs| > 0 && m'.viewEnd + 1 < |hs| ==> m'.cursor == 0
    ensures |hs| > 0 && m'.viewEnd + 1 == |hs| ==> m'.cursor == m.cursor
    ensures |hs| == 0 ==> m'.viewEnd == m.viewEnd && m'.cursor == m.cursor
  {
    var k := FitCount(hs, 0, WindowHeight(m));
    if k < |hs| then m.(viewStart := 0, viewEnd := k - 1, cursor := 0)
    else if |hs| > 0 then m.(viewStart := 0, viewEnd := |hs| - 1)
    else m.(viewStart := 0)
  }

  /** The scan of recalculateViewStart, from cast `i` upwards with `used`
      lines already taken by the casts below it. */
  function BackStart(hs: seq<nat>, i: nat, used: int, room: int): (s: nat)
    requires i < |hs|
    ensures s <= i + 1
    ensures s <= i ==> used + Used(hs, s, i + 1) <= room
    ensures s > 0 ==> used + Used(hs, s - 1, i + 1) > room
    decreases i
  {
    var h := used + hs[i] + 1;
    if h > room then i + 1
    else if i == 0 then 0
    else
      var s := BackStart(hs, i - 1, h, room);
      UsedSnoc(hs, s, i);
      UsedSnoc(hs, if s > 0 then s - 1 else 0, i);
      s
  }

  /** recalculateViewStart: the first cast of the longest run ending at
      `end` that fits, or `end + 1` when cast `end` alone does not. */
  function RecalculateViewStart(hs: seq<nat>, end: nat, room: int): (s: nat)
    requires end < |hs|
    ensures s <= end + 1
    ensures s <= end ==> Used(hs, s, end + 1) <= room
    ensures s > 0 ==> Used(hs, s - 1, end + 1) > room
  {
    BackStart(hs, end, 0, room)
  }

  /** recalculateViewEnd as written: when every cast from `start` on fits,
      the window's end is set to the number of casts, one past the last. */
  function RecalculateViewEndAsWritten(hs: seq<nat>, start: nat, room: int): (e: int)
    ensures start <= |hs| && start + FitCount(hs, start, room) < |hs|
            ==> e == start + FitCount(hs, start, room) - 1
    ensures start > |hs| || start + FitCount(hs, start, room) == |hs| ==> e == |hs|
  {
    if start > |hs| then |hs|
    else
      var k := FitCount(hs, start, room);
      if start + k < |hs| then start + k - 1 else |hs|
  }

  /** recalculateViewEnd corrected: the window ends at the last cast of the
      longest run from `start` that fits. */
  function RecalculateViewEnd(hs: seq<nat>, start: nat, room: int): (e: int)
    ensures e < |hs|
    ensures start <= |hs| ==> start - 1 <= e && e + 1 == start + FitCount(hs, start, room)
    ensures start > |hs| ==> e == |hs| - 1
  {
    if start > |hs| then |hs| - 1
    else start + FitCount(hs, start, room) - 1
  }

  /** moveCursorDown: one cast down unless at the last; a cursor that
      leaves the window at the bottom becomes the window's end. A window
      ending at 0 is laid out afresh first. */
  function MoveCursorDown(m: ListModel, hs: seq<nat>): (m': ListModel)
    ensures m'.height == m.height && m'.width == m.width
    ensures |hs| > 0 && m.cursor < |hs| - 1 && m.viewEnd != 0 ==> m'.cursor == m.cursor + 1
    ensures |hs| > 0 ==> m'.cursor < |hs| || m'.cursor == m.cursor
    ensures m'.cursor > m.viewEnd && m.viewEnd != 0 && m'.cursor != m.cursor
            ==> m'.cursor < |hs| && m'.viewEnd == m'.cursor
                && m'.viewStart == RecalculateViewStart(hs, m'.cursor, WindowHeight(m))
  {
    var m1 := if m.viewEnd == 0 then InitViewport(m, hs) else m;
    if m1.cursor < |hs| - 1 then
      var c := m1.cursor + 1;
      if c > m1.viewEnd then
        m1.(cursor := c, viewEnd := c, viewStart := RecalculateViewStart(hs, c, WindowHeight(m1)))
      else m1.(cursor := c)
    else m1
  }

  /** moveCursorUp, corrected: one cast up unless at the top; a cursor that
      leaves the window at the top becomes the window's start. */
  function MoveCursorUp(m: ListModel, hs: seq<nat>): (m': ListModel)
    ensures m'.height == m.height && m'.width == m.width
    ensures m.cursor > 0 ==> m'.cursor == m.cursor - 1
    ensures m.cursor == 0 ==> m' == m
    ensures m.cursor > 0 && m.cursor - 1 < m.viewStart ==>
              m'.viewStart == m'.cursor && m'.viewEnd == RecalculateViewEnd(hs, m'.cursor, WindowHeight(m))
    ensures m.cursor > 0 && m.cursor - 1 >= m.viewStart ==>
              m'.viewStart == m.viewStart && m'.viewEnd == m.viewEnd
  {
    if m.cursor > 0 then
      var c := m.cursor - 1;
      if c < m.viewStart then m.(cursor := c, viewStart := c, viewEnd := RecalculateViewEnd(hs, c, WindowHeight(m)))
      else m.(cursor := c)
    else m
  }

  /** moveCursorUp as written, with recalculateViewEnd as written. */
  function MoveCursorUpAsWritten(m: ListModel, hs: seq<nat>): (m': ListModel)
    ensures m.cursor > 0 ==> m'.cursor == m.cursor - 1
    ensures m.cursor > 0 && m.cursor - 1 < m.viewStart ==>
              m'.viewEnd == RecalculateViewEndAsWritten(hs, m.cursor - 1, WindowHeight(m))
  {
    if m.cursor > 0 then
      var c := m.cursor - 1;
      if c < m.viewStart then m.(cursor := c, viewStart := c, viewEnd := RecalculateViewEndAsWritten(hs, c, WindowHeight(m)))
      else m.(cursor := c)
    else m
  }

  /** Which recalculateViewEnd the list runs: the one the program has, or
      the corrected one. */
  datatype EndRule = AsWritten | Corrected

  /** A terminal resize: only the size changes. */
  function Resize(m: ListModel, width: int, height: int): (m': ListModel)
    ensures m'.width == width && m'.height == height
    ensures m'.cursor == m.cursor && m'.viewStart == m.viewStart && m'.viewEnd == m.viewEnd
  {
    m.(width := width, height := height)
  }

  /** The window View draws: laid out afresh (on its own copy) when its end
      is 0, and nothing at all while there are no casts. */
  function Shown(m: ListModel, hs: seq<nat>): ListModel {
    if m.viewEnd == 0 then InitViewport(m, hs) else m
  }

  /** Every cast View reads, `viewStart` through `viewEnd`, exists. */
  predicate ViewInBounds(m: ListModel, hs: seq<nat>) {
    var w := Shown(m, hs);
    |hs| == 0 || w.viewStart > w.viewEnd || w.viewEnd < |hs|
  }

  /** What keeps the corrected list in bounds: the cursor and the window's
      end point at casts (or are 0 while there are none), and the window
      does not start above the top. */
  predicate Valid(m: ListModel, n: nat) {
    (m.cursor < n || m.cursor == 0) && (m.viewEnd < n || m.viewEnd == 0)
  }

  /** A valid list draws only casts that exist. */
  lemma ValidInBounds(m: ListModel, hs: seq<nat>)
    requires Valid(m, |hs|)
    ensures ViewInBounds(m, hs)
  {
  }

  lemma InitialValid(n: nat)
    ensures Valid(Initial, n)
  {
  }

  /** With the corrected up move, the moves, a resize and a new cast at
      the end all keep the list valid. */
  lemma StepsKeepValid(m: ListModel, hs: seq<nat>, width: int, height: int, h: nat)
    requires Valid(m, |hs|)
    ensures Valid(MoveCursorDown(m, hs), |hs|)
    ensures Valid(MoveCursorUp(m, hs), |hs|)
    ensures Valid(Resize(m, width, height), |hs|)
    ensures Valid(m, |hs + [h]|)
  {
  }

  /** What the list as written keeps: the cursor points at a cast (or is 0
      while there are none), and the window's end is at most one past the
      last cast. */
  predicate Bounded(m: ListModel, n: nat) {
    (m.cursor < n || m.cursor == 0) && m.viewEnd <= n
  }

  /** A valid list is bounded; a bounded one need not be valid. */
  lemma ValidIsBounded(m: ListModel, n: nat)
    requires Valid(m, n)
    ensures Bounded(m, n)
  {
  }

  /** The moves as written, a resize and a new cast at the end keep the
      list bounded, but no more: ViewEndOverrun reaches a bounded list whose
      window ends one past the last cast. */
  lemma AsWrittenStepsKeepBounded(m: ListModel, hs: seq<nat>, width: int, height: int, h: nat)
    requires Bounded(m, |hs|)
    ensures Bounded(MoveCursorDown(m, hs), |hs|)
    ensures Bounded(MoveCursorUpAsWritten(m, hs), |hs|)
    ensures Bounded(Resize(m, width, height), |hs|)
    ensures Bounded(m, |hs + [h]|)
  {
  }

  /** The window drawn fits the lines the casts may use. */
  predicate Fits(m: ListModel, hs: seq<nat>) {
    m.viewStart <= m.viewEnd < |hs| ==> Used(hs, m.viewStart, m.viewEnd + 1) <= WindowHeight(m)
  }

  /** Moving the cursor either way leaves a window that fits (a resize can
      of course break this until the next move lays the window out). */
  lemma {:induction false} MovesKeepFit(m: ListModel, hs: seq<nat>)
    requires Fits(m, hs)
    ensures Fits(MoveCursorDown(m, hs), hs)
    ensures Fits(MoveCursorUp(m, hs), hs)
  {
    var m1 := if m.viewEnd == 0 then InitViewport(m, hs) else m;
    assert Fits(m1, hs);
  }

  /** The list as written draws a cast that does not exist: three one-line
      casts in an 8-line terminal, two moves down, the terminal grown to
      100 lines, two moves up. The last move sets the window's end to 3,
      and View reads the fourth of three casts. */
  lemma ViewEndOverrun()
    ensures var hs: seq<nat> := [1, 1, 1];
            var m0 := Resize(Initial, 80, 8);
            var m1 := MoveCursorDown(m0, hs);
            var m2 := MoveCursorDown(m1, hs);
            var m3 := Resize(m2, 80, 100);
            var m4 := MoveCursorUpAsWritten(m3, hs);
            var m5 := MoveCursorUpAsWritten(m4, hs);
            m5.viewEnd == |hs| && !ViewInBounds(m5, hs)
  {
    var hs: seq<nat> := [1, 1, 1];
    var m0 := Resize(Initial, 80, 8);
    assert FitCount(hs, 2, 0) == 0;
    assert FitCount(hs, 1, 2) == 1;
    assert FitCount(hs, 0, 4) == 2;
    var m1 := MoveCursorDown(m0, hs);
    assert m1 == ListModel(1, 80, 8, 0, 1);
    var m2 := MoveCursorDown(m1, hs);
    assert BackStart(hs, 0, 4, 4) == 1;
    assert BackStart(hs, 1, 2, 4) == 1;
    assert RecalculateViewStart(hs, 2, 4) == 1;
    assert m2 == ListModel(2, 80, 8, 1, 2);
    var m3 := Resize(m2, 80, 100);
    var m4 := MoveCursorUpAsWritten(m3, hs);
    assert m4 == ListModel(1, 80, 100, 1, 2);
    var m5 := MoveCursorUpAsWritten(m4, hs);
    assert FitCount(hs, 3, 92) == 0;
    assert FitCount(hs, 2, 94) == 1;
    assert FitCount(hs, 1, 96) == 2;
    assert FitCount(hs, 0, 96) == 3;
    assert m5 == ListModel(0, 80, 100, 0, 3);
  }

  /** With the corrected end the same steps stay in bounds: the window ends
      at the last cast. */
  lemma ViewEndCorrected()
    ensures var hs: seq<nat> := [1, 1, 1];
            var m0 := Resize(Initial, 80, 8);
            var m3 := Resize(MoveCursorDown(MoveCursorDown(m0, hs), hs), 80, 100);
            var m5 := MoveCursorUp(MoveCursorUp(m3, hs), hs);
            m5.viewEnd == |hs| - 1 && ViewInBounds(m5, hs)
  {
    var hs: seq<nat> := [1, 1, 1];
    var m0 := Resize(Initial, 80, 8);
    InitialValid(|hs|);
    StepsKeepValid(Initial, hs, 80, 8, 0);
    var m1 := MoveCursorDown(m0, hs);
    StepsKeepValid(m0, hs, 80, 8, 0);
    var m2 := MoveCursorDown(m1, hs);
    StepsKeepValid(m1, hs, 80, 8, 0);
    assert m1 == ListModel(1, 80, 8, 0, 1) by {
      assert FitCount(hs, 2, 0) == 0;
      assert FitCount(hs, 1, 2) == 1;
      assert FitCount(hs, 0, 4) == 2;
    }
    assert m2 == ListModel(2, 80, 8, 1, 2) by {
      assert BackStart(hs, 0, 4, 4) == 1;
      assert BackStart(hs, 1, 2, 4) == 1;
    }
    var m3 := Resize(m2, 80, 100);
    StepsKeepValid(m2, hs, 80, 100, 0);
    var m4 := MoveCursorUp(m3, hs);
    StepsKeepValid(m3, hs, 80, 100, 0);
    var m5 := MoveCursorUp(m4, hs);
    StepsKeepValid(m4, hs, 80, 100, 0);
    assert FitCount(hs, 3, 92) == 0;
    assert FitCount(hs, 2, 94) == 1;
    assert FitCount(hs, 1, 96) == 2;
    assert FitCount(hs, 0, 96) == 3;
    ValidInBounds(m5, hs);
  }
}
