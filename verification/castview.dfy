/** How the terminal interface writes a cast: the author and mentions by
    display name (cached in the local store), the cast id, the time, the
    text, the embeds, all inside a box drawn with line characters. Colours
    and word wrapping are the terminal libraries' business and are passed
    in or left out. */
module CastView {
  import opened Wrappers
  import opened Text
  import opened Bytes
  import opened Farcaster
  import LocalDb
  import FcClient
  import Download

  /** The prefix of the local store's display-name cache keys. */
  const FnameKeyPrefix: string := "fid:fname:"

  /** The name shown when a display name cannot be found. */
  const UnknownName: string := "???"

  /** The user-data type asked of the hub. */
  const DisplayNameType: string := "USER_DATA_TYPE_DISPLAY"

  /** The cache key of a fid's display name. */
  function FnameKey(fid: nat): (k: string)
    ensures HasPrefix(k, FnameKeyPrefix) && TrimPrefix(k, FnameKeyPrefix) == NatToString(fid)
  {
    PrefixOfConcat(FnameKeyPrefix, NatToString(fid));
    FnameKeyPrefix + NatToString(fid)
  }

  /** Different fids are cached under different keys. */
  lemma FnameKeyInjective(a: nat, b: nat)
    requires a != b
    ensures FnameKey(a) != FnameKey(b)
  {
    NatToStringInjective(a, b);
  }

  /** UserDataBody.GetValue: the empty string for another kind of body. */
  function UserDataValue(d: MessageData): string {
    if d.body.UserDataBody? then d.body.value else ""
  }

  /** fidToFname: the cached display name, or the one the hub gives, which
      is then cached. A hub error or an empty name gives "???", and nothing
      is cached. The result comes with the store afterwards. */
  function FidToFname(db: seq<LocalDb.Entry>, hub: Hub, fid: nat): (r: (string, seq<LocalDb.Entry>))
    requires LocalDb.Sorted(db)
    ensures LocalDb.Sorted(r.1)
    ensures LocalDb.HasKey(db, FnameKey(fid)) ==> r == (LocalDb.Get(db, FnameKey(fid)).value, db)
    ensures !LocalDb.HasKey(db, FnameKey(fid)) ==>
              var answer := hub.userData(fid, DisplayNameType);
              if answer.Ok? && UserDataValue(answer.value.data) != "" then
                r.0 == UserDataValue(answer.value.data)
                && LocalDb.Get(r.1, FnameKey(fid)) == Ok(r.0)
              else r == (UnknownName, db)
    ensures Keeps(db, r.1)
  {
    var key := FnameKey(fid);
    match LocalDb.Get(db, key)
    case Ok(cached) => (cached, db)
    case Err(_) =>
      match hub.userData(fid, DisplayNameType)
      case Err(_) => (UnknownName, db)
      case Ok(msg) =>
        var fname := UserDataValue(msg.data);
        if |fname| == 0 then (UnknownName, db)
        else
          LocalDb.GetSetSame(db, key, fname);
          assert forall k :: LocalDb.HasKey(db, k) ==> LocalDb.Get(LocalDb.Set(db, key, fname), k) == LocalDb.Get(db, k) by {
            forall k | LocalDb.HasKey(db, k) ensures LocalDb.Get(LocalDb.Set(db, key, fname), k) == LocalDb.Get(db, k) {
              LocalDb.GetSetOther(db, key, fname, k);
            }
          }
          (fname, LocalDb.Set(db, key, fname))
  }

  /** A second lookup is a cache hit: same name, no change to the store, and
      no hub call (any hub gives the same answer). */
  lemma FnameCached(db: seq<LocalDb.Entry>, hub: Hub, hub': Hub, fid: nat)
    requires LocalDb.Sorted(db)
    requires FidToFname(db, hub, fid).0 != UnknownName
    ensures var (name, db1) := FidToFname(db, hub, fid);
            FidToFname(db1, hub', fid) == (name, db1)
  {
    var (name, db1) := FidToFname(db, hub, fid);
    assert LocalDb.Get(db1, FnameKey(fid)).Ok?;
  }

  /** Every entry of `db` is still in `db1`, unchanged. */
  ghost predicate Keeps(db: seq<LocalDb.Entry>, db1: seq<LocalDb.Entry>) {
    forall k :: LocalDb.HasKey(db, k) ==> LocalDb.Get(db1, k) == LocalDb.Get(db, k)
  }

  /** Each name found is in `db` under its fid's key. */
  predicate NamesStored(names: seq<string>, fids: seq<nat>, db: seq<LocalDb.Entry>)
    requires |names| == |fids|
  {
    forall i :: 0 <= i < |fids| ==> names[i] == UnknownName || LocalDb.Get(db, FnameKey(fids[i])) == Ok(names[i])
  }

  /** The display names of a list of fids, looked up one after the other.
      Each name found stays in the store under its fid's key, and nothing
      already stored changes. */
  function FnamesOf(db: seq<LocalDb.Entry>, hub: Hub, fids: seq<nat>): (r: (seq<string>, seq<LocalDb.Entry>))
    requires LocalDb.Sorted(db)
    ensures LocalDb.Sorted(r.1)
    ensures |r.0| == |fids|
    ensures Keeps(db, r.1)
    ensures NamesStored(r.0, fids, r.1)
    decreases |fids|
  {
    if |fids| == 0 then ([], db)
    else
      var (name, db1) := FidToFname(db, hub, fids[0]);
      var (rest, db2) := FnamesOf(db1, hub, fids[1..]);
      KeepsTrans(db, db1, db2);
      NamesStoredCons(name, rest, fids, db1, db2);
      ([name] + rest, db2)
  }

  lemma KeepsTrans(a: seq<LocalDb.Entry>, b: seq<LocalDb.Entry>, c: seq<LocalDb.Entry>)
    requires Keeps(a, b) && Keeps(b, c)
    ensures Keeps(a, c)
  {
    forall k | LocalDb.HasKey(a, k) ensures LocalDb.Get(c, k) == LocalDb.Get(a, k) {
      assert LocalDb.Get(b, k).Ok?;
    }
  }

  lemma NamesStoredCons(name: string, rest: seq<string>, fids: seq<nat>, db1: seq<LocalDb.Entry>,
                        db2: seq<LocalDb.Entry>)
    requires |fids| > 0 && |rest| == |fids| - 1
    requires name == UnknownName || LocalDb.Get(db1, FnameKey(fids[0])) == Ok(name)
    requires Keeps(db1, db2) && NamesStored(rest, fids[1..], db2)
    ensures NamesStored([name] + rest, fids, db2)
  {
    var names := [name] + rest;
    forall i | 0 <= i < |fids|
      ensures names[i] == UnknownName || LocalDb.Get(db2, FnameKey(fids[i])) == Ok(names[i])
    {
      if i > 0 {
        assert names[i] == rest[i - 1] && fids[i] == fids[1..][i - 1];
      } else if name != UnknownName {
        assert LocalDb.HasKey(db1, FnameKey(fids[0]));
      }
    }
  }

  /** The name the hub gives a fid, or "???" when it gives none. */
  function HubName(hub: Hub, fid: nat): string {
    var answer := hub.userData(fid, DisplayNameType);
    if answer.Ok? && UserDataValue(answer.value.data) != "" then UserDataValue(answer.value.data)
    else UnknownName
  }

  /** Every display name the store holds is the one the hub gives. */
  ghost predicate CacheAgrees(db: seq<LocalDb.Entry>, hub: Hub) {
    forall fid: nat :: LocalDb.HasKey(db, FnameKey(fid)) ==>
      LocalDb.Get(db, FnameKey(fid)).value == HubName(hub, fid)
  }

  /** While the cache agrees with the hub, a lookup gives the hub's name
      and keeps the cache in agreement. */
  lemma FidToFnameAgrees(db: seq<LocalDb.Entry>, hub: Hub, fid: nat)
    requires LocalDb.Sorted(db) && CacheAgrees(db, hub)
    ensures FidToFname(db, hub, fid).0 == HubName(hub, fid)
    ensures CacheAgrees(FidToFname(db, hub, fid).1, hub)
  {
    var db1 := FidToFname(db, hub, fid).1;
    forall f: nat | LocalDb.HasKey(db1, FnameKey(f))
      ensures LocalDb.Get(db1, FnameKey(f)).value == HubName(hub, f)
    {
      if f != fid && db1 != db {
        FnameKeyInjective(f, fid);
        LocalDb.GetSetOther(db, FnameKey(fid), HubName(hub, fid), FnameKey(f));
      }
    }
  }

  /** While the cache agrees with the hub, the names of a list of fids are
      the hub's names, one by one. */
  lemma {:induction false} FnamesOfAgree(db: seq<LocalDb.Entry>, hub: Hub, fids: seq<nat>)
    requires LocalDb.Sorted(db) && CacheAgrees(db, hub)
    decreases |fids|
    ensures var (names, db1) := FnamesOf(db, hub, fids);
            CacheAgrees(db1, hub) && forall i :: 0 <= i < |fids| ==> names[i] == HubName(hub, fids[i])
  {
    if |fids| > 0 {
      FidToFnameAgrees(db, hub, fids[0]);
      var db1 := FidToFname(db, hub, fids[0]).1;
      FnamesOfAgree(db1, hub, fids[1..]);
      assert forall i :: 1 <= i < |fids| ==> fids[1..][i - 1] == fids[i];
    }
  }

  /** ppCastId without colours: `@fname/0x<hex of the hash>`. */
  function PpCastId(fname: string, hash: seq<byte>): (s: string)
    ensures HasPrefix(s, "@")
  {
    PrefixOfConcat("@", fname + "/" + HashString(hash));
    assert "@" + fname + "/" + HashString(hash) == "@" + (fname + "/" + HashString(hash));
    "@" + fname + "/" + HashString(hash)
  }

  /** The cast id the interface shows is an argument the download command
      accepts, naming the same user and hash. */
  lemma PpCastIdParses(fname: string, hash: seq<byte>)
    requires forall k :: 0 <= k < |fname| ==> fname[k] != '/'
    ensures Download.ParseCastRef(PpCastId(fname, hash)) == Some(Download.CastRef(fname, HashString(hash)))
    ensures HexDecode(HashString(hash)[2..]) == Some(hash)
  {
    var h := HashString(hash);
    var hex := HexEncode(hash);
    assert h == "0x" + hex;
    assert forall k :: 0 <= k < |h| ==> h[k] != '/' by {
      forall k | 0 <= k < |h| ensures h[k] != '/' {
        if k >= 2 {
          assert h[k] == hex[k - 2];
          assert IsLowerHexDigit(hex[k - 2]);
        }
      }
    }
    Download.ParseFormatted(fname, h);
    assert h[2..] == hex;
    HexRoundTrip(hash);
  }

  /** ppTimestamp without colours: the date of a Farcaster timestamp,
      written by `formatTime` from Unix seconds. */
  function PpTimestamp(ts: uint32, formatTime: int -> string): string {
    "[" + formatTime(ts + FarcasterEpoch) + "]"
  }

  /** Every line prefixed by `pad`. */
  function PadLines(lines: seq<string>, pad: string): (r: seq<string>)
    ensures |r| == |lines|
    ensures forall i :: 0 <= i < |lines| ==> r[i] == pad + lines[i]
  {
    if |lines| == 0 then [] else [pad + lines[0]] + PadLines(lines[1..], pad)
  }

  /** addPadding: the trimmed text with `padding` copies of `padStr` before
      each of its lines. */
  function AddPadding(s: string, padding: nat, padStr: string): (r: string)
    ensures padding == 0 ==> r == TrimSpace(s)
  {
    var lines := Split(TrimSpace(s), '\n');
    if padding == 0 then
      assert forall i :: 0 <= i < |lines| ==> "" + lines[i] == lines[i];
      assert PadLines(lines, "") == lines;
      JoinSplit(TrimSpace(s), '\n');
      Join(PadLines(lines, Repeat(padStr, padding)), '\n')
    else Join(PadLines(lines, Repeat(padStr, padding)), '\n')
  }

  /** Read line by line, the padded text is the trimmed text's lines, each
      behind the padding, as long as the padding string has no line break. */
  lemma AddPaddingLines(s: string, padding: nat, padStr: string)
    requires forall k :: 0 <= k < |padStr| ==> padStr[k] != '\n'
    ensures Split(AddPadding(s, padding, padStr), '\n')
            == PadLines(Split(TrimSpace(s), '\n'), Repeat(padStr, padding))
  {
    var lines := Split(TrimSpace(s), '\n');
    var pad := Repeat(padStr, padding);
    var padded := PadLines(lines, pad);
    SplitPieces(TrimSpace(s), '\n');
    RepeatWithout(padStr, padding, '\n');
    assert forall k, j :: 0 <= k < |padded| && 0 <= j < |padded[k]| ==> padded[k][j] != '\n' by {
      forall k, j | 0 <= k < |padded| && 0 <= j < |padded[k]|
        ensures padded[k][j] != '\n'
      {
        assert padded[k] == pad + lines[k];
        if j >= |pad| {
          assert padded[k][j] == lines[k][j - |pad|];
        }
      }
    }
    SplitJoin(padded, '\n');
  }

  /** A mention that cannot be spliced in: Go's slice and index panics. */
  const SliceOutOfRange: string := "slice bounds out of range"
  const IndexOutOfRange: string := "index out of range"

  /** The positions are usable: one per name, not decreasing from `ptr`,
      and within the text. */
  predicate ValidPositions(text: string, positions: seq<nat>, n: nat, ptr: nat) {
    n <= |positions| && ptr <= |text|
    && (forall i :: 0 <= i < n ==> positions[i] <= |text|)
    && (n > 0 ==> ptr <= positions[0])
    && (forall i :: 0 < i < n ==> positions[i - 1] <= positions[i])
  }

  /** The total length the mentions add. */
  function MentionsLength(names: seq<string>): nat {
    if |names| == 0 then 0 else |names[0]| + 1 + MentionsLength(names[1..])
  }

  /** The text with "@name" put in at each mention's position, in order,
      from offset `ptr` on. */
  function Splice(text: string, positions: seq<nat>, names: seq<string>, ptr: nat): (r: Result<string>)
    decreases |names|
    ensures r.Ok? <==> ValidPositions(text, positions, |names|, ptr)
    ensures r.Ok? ==> |r.value| == |text| - ptr + MentionsLength(names)
    ensures r.Err? ==> r.msg == SliceOutOfRange || r.msg == IndexOutOfRange
  {
    if |names| == 0 then
      if ptr <= |text| then Ok(text[ptr..]) else Err(SliceOutOfRange)
    else if |positions| == 0 then Err(IndexOutOfRange)
    else if !(ptr <= positions[0] <= |text|) then Err(SliceOutOfRange)
    else
      var rest := Splice(text, positions[1..], names[1..], positions[0]);
      assert ValidPositions(text, positions, |names|, ptr)
             <==> ValidPositions(text, positions[1..], |names| - 1, positions[0]) by {
        if ValidPositions(text, positions[1..], |names| - 1, positions[0]) {
          forall i | 0 < i < |names| ensures positions[i - 1] <= positions[i] {
            if i > 1 {
              assert positions[1..][i - 2] <= positions[1..][i - 1];
            }
          }
        }
      }
      match rest
      case Err(e) => Err(e)
      case Ok(tail) => Ok(text[ptr..positions[0]] + "@" + names[0] + tail)
  }

  /** With no mentions the text is shown as it is. */
  lemma SpliceNoMentions(text: string, positions: seq<nat>)
    ensures Splice(text, positions, [], 0) == Ok(text)
  {
  }

  /** `piece` put in at offset `k`, when `k` is within `s`. */
  function InsertAt(s: string, k: int, piece: string): string {
    if 0 <= k <= |s| then s[..k] + piece + s[k..] else s
  }

  /** Each piece put in at its offset of `s`, later pieces first, so that
      with offsets in ascending order every offset still points where it
      did in `s`. */
  function InsertAll(s: string, offsets: seq<int>, pieces: seq<string>): string
    decreases |pieces|
  {
    if |pieces| == 0 || |offsets| == 0 then s
    else InsertAt(InsertAll(s, offsets[1..], pieces[1..]), offsets[0], pieces[0])
  }

  /** The mentions as written: `@` and the name. */
  function AtNames(names: seq<string>): (r: seq<string>)
    ensures |r| == |names| && forall i :: 0 <= i < |names| ==> r[i] == "@" + names[i]
  {
    seq(|names|, i requires 0 <= i < |names| => "@" + names[i])
  }

  /** The positions as offsets into the text from `ptr` on. */
  function OffsetsFrom(positions: seq<nat>, ptr: nat): (r: seq<int>)
    ensures |r| == |positions| && forall i :: 0 <= i < |positions| ==> r[i] == positions[i] - ptr
  {
    seq(|positions|, i requires 0 <= i < |positions| => positions[i] - ptr)
  }

  /** Putting pieces into `a + b` at offsets past `a` puts them into `b`. */
  lemma {:induction false} InsertAllShift(a: string, b: string, offsets: seq<int>, shifted: seq<int>,
                                          pieces: seq<string>)
    requires |shifted| == |offsets|
    requires forall i :: 0 <= i < |offsets| ==> shifted[i] == offsets[i] + |a|
    requires forall i :: 0 <= i < |offsets| && i < |pieces| ==> offsets[i] >= 0
    decreases |pieces|
    ensures InsertAll(a + b, shifted, pieces) == a + InsertAll(b, offsets, pieces)
  {
    if |pieces| > 0 && |offsets| > 0 {
      InsertAllShift(a, b, offsets[1..], shifted[1..], pieces[1..]);
      var t := InsertAll(b, offsets[1..], pieces[1..]);
      var k := offsets[0];
      if 0 <= k <= |t| {
        assert (a + t)[..k + |a|] == a + t[..k];
        assert (a + t)[k + |a|..] == t[k..];
      }
    }
  }

  /** Splicing is inserting: the spliced text is the text from `ptr` on with
      `@name` put in at each mention's position. */
  lemma {:induction false} SpliceInserts(text: string, positions: seq<nat>, names: seq<string>, ptr: nat)
    requires ValidPositions(text, positions, |names|, ptr)
    decreases |names|
    ensures Splice(text, positions, names, ptr)
            == Ok(InsertAll(text[ptr..], OffsetsFrom(positions, ptr), AtNames(names)))
  {
    if |names| > 0 {
      var p0 := positions[0];
      ValidTail(text, positions, |names|, ptr);
      SpliceInserts(text, positions[1..], names[1..], p0);
      var head := text[ptr..p0];
      var tailOffsets := OffsetsFrom(positions[1..], p0);
      var offsets := OffsetsFrom(positions, ptr);
      assert offsets[1..] == OffsetsFrom(positions[1..], ptr);
      assert AtNames(names)[1..] == AtNames(names[1..]);
      assert text[ptr..] == head + text[p0..];
      InsertAllShift(head, text[p0..], tailOffsets, offsets[1..], AtNames(names[1..]));
      var tail := InsertAll(text[p0..], tailOffsets, AtNames(names[1..]));
      SpliceUnfold(text, positions, names, ptr, tail);
      InsertAllUnfold(text[ptr..], offsets, AtNames(names), head + tail);
      assert (head + tail)[..|head|] == head;
      assert (head + tail)[|head|..] == tail;
    }
  }

  /** The mentions after the first are usable from the first's position,
      and none lies before it. */
  lemma ValidTail(text: string, positions: seq<nat>, n: nat, ptr: nat)
    requires ValidPositions(text, positions, n, ptr) && n > 0
    ensures ValidPositions(text, positions[1..], n - 1, positions[0])
    ensures forall i :: 0 <= i < n - 1 ==> positions[1..][i] >= positions[0]
  {
    forall i | 0 < i < n - 1 ensures positions[1..][i - 1] <= positions[1..][i] {
      assert positions[1..][i - 1] == positions[i] && positions[1..][i] == positions[i + 1];
    }
    forall i | 0 <= i < n - 1 ensures positions[1..][i] >= positions[0] {
      AscendingFrom(positions, n, i + 1);
    }
  }

  /** One step of the splice: the text up to the first mention, the
      mention, then the rest spliced from there. */
  lemma SpliceUnfold(text: string, positions: seq<nat>, names: seq<string>, ptr: nat, tail: string)
    requires ValidPositions(text, positions, |names|, ptr) && |names| > 0
    requires Splice(text, positions[1..], names[1..], positions[0]) == Ok(tail)
    ensures Splice(text, positions, names, ptr) == Ok(text[ptr..positions[0]] + ("@" + names[0]) + tail)
  {
    assert text[ptr..positions[0]] + "@" + names[0] + tail == text[ptr..positions[0]] + ("@" + names[0]) + tail;
  }

  /** One step of the insertion: the first piece goes in last. */
  lemma InsertAllUnfold(s: string, offsets: seq<int>, pieces: seq<string>, t: string)
    requires |pieces| > 0 && |offsets| > 0 && InsertAll(s, offsets[1..], pieces[1..]) == t
    requires 0 <= offsets[0] <= |t|
    ensures InsertAll(s, offsets, pieces) == t[..offsets[0]] + pieces[0] + t[offsets[0]..]
  {
  }

  /** Positions that do not decrease are all at least the first. */
  lemma {:induction false} AscendingFrom(positions: seq<nat>, n: nat, j: nat)
    requires n <= |positions| && j < n
    requires forall i :: 0 < i < n ==> positions[i - 1] <= positions[i]
    decreases j
    ensures positions[0] <= positions[j]
  {
    if j > 0 {
      AscendingFrom(positions, n, j - 1);
    }
  }

  /** The cast's text with its mentions spliced in, their names looked up
      in order: `@name` put in at each mention's position. */
  function MentionText(db: seq<LocalDb.Entry>, hub: Hub, body: CastAddBody)
    : (r: (Result<string>, seq<LocalDb.Entry>))
    requires LocalDb.Sorted(db)
    ensures LocalDb.Sorted(r.1)
    ensures r.0.Ok? <==> ValidPositions(body.text, body.mentionsPositions, |body.mentions|, 0)
    ensures var (names, db1) := FnamesOf(db, hub, body.mentions);
            r.1 == db1
            && (r.0.Ok? ==> r.0.value == InsertAll(body.text, OffsetsFrom(body.mentionsPositions, 0), AtNames(names)))
  {
    var (names, db1) := FnamesOf(db, hub, body.mentions);
    if ValidPositions(body.text, body.mentionsPositions, |body.mentions|, 0) then
      SpliceInserts(body.text, body.mentionsPositions, names, 0);
      assert body.text[0..] == body.text;
      (Splice(body.text, body.mentionsPositions, names, 0), db1)
    else (Splice(body.text, body.mentionsPositions, names, 0), db1)
  }

  /** The first line of a box: cast id and time. */
  function Header(fname: string, hash: seq<byte>, ts: uint32, formatTime: int -> string): string {
    PpCastId(fname, hash) + " " + PpTimestamp(ts, formatTime) + "\n"
  }

  /** Text that starts with a header starts with the author's '@'. */
  lemma HeaderStartsWithAt(fname: string, hash: seq<byte>, ts: uint32, formatTime: int -> string, rest: string)
    ensures HasPrefix(Header(fname, hash, ts, formatTime) + rest, "@")
  {
    var id := PpCastId(fname, hash);
    var out := Header(fname, hash, ts, formatTime) + rest;
    assert out[0] == id[0];
  }

  /** The lines of a box: "┌─ " before the first, "│ " before the others. */
  function FrameLines(lines: seq<string>, first: bool): (s: string)
    ensures |lines| > 0 && first ==> |s| > 0 && s[0] == '┌'
  {
    if |lines| == 0 then ""
    else (if first then "┌─ " else "│ ") + lines[0] + "\n" + FrameLines(lines[1..], false)
  }

  /** The closing line of a box. */
  const BoxBottom: string := "└───\n"

  /** The box around a text, trimmed and ended by one line break, as
      `_render` and FormatCast write it. */
  function Framed(out: string): string {
    AddPadding(FrameLines(Split(out, '\n'), true) + BoxBottom, 0, " ") + "\n"
  }

  /** The box has two lines more than the text inside it: one per line of
      the text, and the closing line. */
  lemma FramedHeight(out: string)
    ensures Count(Framed(out), '\n') == Count(out, '\n') + 2
  {
    var lines := Split(out, '\n');
    SplitPieces(out, '\n');
    var body := FrameLines(lines, true);
    FrameLinesCount(lines, true);
    var f := body + BoxBottom;
    assert f[0] == '┌';
    assert f[|f| - 1] == '\n' && f[|f| - 2] == '─';
    TrimBox(f);
    CountAppend(body, BoxBottom, '\n');
    assert Count(BoxBottom, '\n') == 1;
  }

  /** A box starts and ends with a border, so trimming it only drops its
      last line break. */
  lemma TrimBox(f: string)
    requires |f| >= 2 && f[0] == '┌' && f[|f| - 1] == '\n' && f[|f| - 2] == '─'
    ensures TrimSpace(f) + "\n" == f
  {
    assert TrimLeftSpace(f) == f;
    assert TrimRightSpace(f) == TrimRightSpace(f[..|f| - 1]);
    assert TrimRightSpace(f[..|f| - 1]) == f[..|f| - 1];
    assert f[..|f| - 1] + "\n" == f;
  }

  lemma {:induction false} FrameLinesCount(lines: seq<string>, first: bool)
    requires forall k, j :: 0 <= k < |lines| && 0 <= j < |lines[k]| ==> lines[k][j] != '\n'
    ensures Count(FrameLines(lines, first), '\n') == |lines|
  {
    if |lines| > 0 {
      var prefix := if first then "┌─ " else "│ ";
      FrameLinesCount(lines[1..], false);
      CountAppend(prefix + lines[0] + "\n", FrameLines(lines[1..], false), '\n');
      CountAppend(prefix + lines[0], "\n", '\n');
      CountAppend(prefix, lines[0], '\n');
      CountNone(prefix, '\n');
      CountNone(lines[0], '\n');
    }
  }

  /** FormatCast's embed section: a "----" line when there are embeds, then
      one line per URL embed with a non-empty URL. */
  function EmbedLines(embeds: seq<Embed>): string {
    (if |embeds| > 0 then "\n----" else "") + UrlLines(embeds)
  }

  function UrlLines(embeds: seq<Embed>): string {
    if |embeds| == 0 then ""
    else (if Url(embeds[0]) != "" then "\n" + Url(embeds[0]) else "") + UrlLines(embeds[1..])
  }

  /** One line each for the strings of `us`. */
  function LinesOf(us: seq<string>): string {
    if |us| == 0 then "" else "\n" + us[0] + LinesOf(us[1..])
  }

  /** The URL lines are exactly the non-empty URLs, in their order. */
  lemma {:induction false} UrlLinesAreNonEmptyUrls(embeds: seq<Embed>)
    ensures UrlLines(embeds) == LinesOf(FcClient.NonEmpty(Urls(embeds)))
  {
    if |embeds| > 0 {
      UrlLinesAreNonEmptyUrls(embeds[1..]);
      assert Urls(embeds)[1..] == Urls(embeds[1..]);
      var us := Urls(embeds);
      if us[0] != "" {
        assert FcClient.NonEmpty(us) == [us[0]] + FcClient.NonEmpty(us[1..]);
        assert LinesOf(FcClient.NonEmpty(us)) == "\n" + us[0] + LinesOf(FcClient.NonEmpty(us[1..]));
      }
    }
  }

  /** FormatCast: the boxed rendering of a cast, with the store after the
      display-name lookups (mentions first, then the author). A mention that
      cannot be spliced in panics. */
  function FormatCast(db: seq<LocalDb.Entry>, hub: Hub, msg: Message, formatTime: int -> string,
                      wrap: string -> string): (r: (Result<string>, seq<LocalDb.Entry>))
    requires LocalDb.Sorted(db)
    ensures LocalDb.Sorted(r.1)
    ensures var body := CastAddBodyOf(msg.data);
            r.0.Ok? <==> ValidPositions(body.text, body.mentionsPositions, |body.mentions|, 0)
    ensures var body := CastAddBodyOf(msg.data);
            var (t, db1) := MentionText(db, hub, body);
            var (author, db2) := FidToFname(db1, hub, msg.data.fid);
            r.0.Ok? ==> r.0.value == Framed(Header(author, msg.hash, msg.data.timestamp, formatTime)
                                            + wrap(t.value) + EmbedLines(body.embeds))
                        && r.1 == db2
    ensures r.0.Ok? ==> exists out :: r.0.value == Framed(out) && HasPrefix(out, "@")
  {
    var body := CastAddBodyOf(msg.data);
    var (text, db1) := MentionText(db, hub, body);
    match text
    case Err(e) => (Err(e), db1)
    case Ok(t) =>
      var (author, db2) := FidToFname(db1, hub, msg.data.fid);
      var header := Header(author, msg.hash, msg.data.timestamp, formatTime);
      var out := header + wrap(t) + EmbedLines(body.embeds);
      HeaderStartsWithAt(author, msg.hash, msg.data.timestamp, formatTime, wrap(t) + EmbedLines(body.embeds));
      (Ok(Framed(out)), db2)
  }

  /** While the cache agrees with the hub, a formatted cast names its
      author and mentions as the hub does, with each mention put in at its
      position. */
  lemma FormatCastNamesFromHub(db: seq<LocalDb.Entry>, hub: Hub, msg: Message, formatTime: int -> string,
                               wrap: string -> string)
    requires LocalDb.Sorted(db) && CacheAgrees(db, hub)
    requires FormatCast(db, hub, msg, formatTime, wrap).0.Ok?
    ensures var body := CastAddBodyOf(msg.data);
            FormatCast(db, hub, msg, formatTime, wrap).0.value
            == Framed(Header(HubName(hub, msg.data.fid), msg.hash, msg.data.timestamp, formatTime)
                      + wrap(InsertAll(body.text, OffsetsFrom(body.mentionsPositions, 0),
                                       AtNames(HubNames(hub, body.mentions))))
                      + EmbedLines(body.embeds))
  {
    var body := CastAddBodyOf(msg.data);
    FnamesOfAgree(db, hub, body.mentions);
    var (names, db1) := FnamesOf(db, hub, body.mentions);
    FidToFnameAgrees(db1, hub, msg.data.fid);
    assert names == HubNames(hub, body.mentions);
  }

  /** The hub's names of a list of fids. */
  function HubNames(hub: Hub, fids: seq<nat>): (r: seq<string>)
    ensures |r| == |fids| && forall i :: 0 <= i < |fids| ==> r[i] == HubName(hub, fids[i])
  {
    seq(|fids|, i requires 0 <= i < |fids| => HubName(hub, fids[i]))
  }
}
