/** Slash-separated file paths as `path/filepath` treats them on Unix, for
    the clean paths the program builds: no ".." elements, no doubled or
    trailing slashes except the root "/", and "." only as a whole path. */
module Paths {
  import opened Wrappers
  import opened Text

  /** filepath.Join of two elements; joining onto "." cleans the dot away. */
  function Join(dir: string, name: string): (p: string)
    ensures dir !in {"", ".", "/"} && name != "" ==> p == dir + "/" + name
    ensures dir == "." && name != "" ==> p == name
    ensures name == "" ==> p == dir
  {
    if dir == "" then name
    else if name == "" then dir
    else if dir == "." then name
    else if dir == "/" then "/" + name
    else dir + "/" + name
  }

  /** The path with its trailing slashes removed. */
  function DropTrailingSlashes(p: string): (r: string)
    ensures |r| <= |p| && r == p[..|r|]
    ensures |r| > 0 ==> r[|r| - 1] != '/'
    ensures forall k :: |r| <= k < |p| ==> p[k] == '/'
  {
    if |p| > 0 && p[|p| - 1] == '/' then DropTrailingSlashes(p[..|p| - 1]) else p
  }

  /** filepath.Base: the last element; "." for the empty path and "/" for
      a path of slashes. */
  function Base(p: string): (b: string)
    ensures b != ""
    ensures forall k :: 0 <= k < |b| ==> b[k] != '/' || b == "/"
  {
    if p == "" then "."
    else
      var q := DropTrailingSlashes(p);
      if q == "" then "/"
      else match LastIndexOf(q, '/')
        case None => q
        case Some(i) => q[i + 1..]
  }

  /** filepath.Dir of a clean path: everything before the last slash, "/"
      when that is the root, "." when there is no slash. */
  function Dir(p: string): (d: string)
    ensures (forall k :: 0 <= k < |p| ==> p[k] != '/') ==> d == "."
    ensures (exists k :: 0 <= k < |p| && p[k] == '/') ==>
              exists i :: 0 <= i < |p| && p[i] == '/' && (forall k :: i < k < |p| ==> p[k] != '/')
                          && d == (if i == 0 then "/" else p[..i])
  {
    match LastIndexOf(p, '/')
    case None => "."
    case Some(i) => if i == 0 then "/" else p[..i]
  }

  /** filepath.Ext: the suffix from the last '.' of the last element, or "". */
  function Ext(p: string): (e: string)
    ensures e != "" ==> e[0] == '.' && |e| <= |p| && p[|p| - |e|..] == e
    ensures forall k :: 1 <= k < |e| ==> e[k] != '.' && e[k] != '/'
  {
    if |p| == 0 || p[|p| - 1] == '/' then ""
    else if p[|p| - 1] == '.' then "."
    else
      var e := Ext(p[..|p| - 1]);
      if e == "" then "" else e + [p[|p| - 1]]
  }

  /** The base name of a path is what was joined onto its directory. */
  lemma BaseOfJoin(dir: string, name: string)
    requires dir != "" && name != ""
    requires dir == "/" || dir[|dir| - 1] != '/'
    requires forall k :: 0 <= k < |name| ==> name[k] != '/'
    ensures Base(Join(dir, name)) == name
    ensures Dir(Join(dir, name)) == dir
  {
    if dir == "." {
      assert Join(dir, name) == name;
      assert DropTrailingSlashes(name) == name;
      assert LastIndexOf(name, '/') == None;
      return;
    }
    var p := Join(dir, name);
    var slash := if dir == "/" then 0 else |dir|;
    assert p[slash] == '/';
    assert p[slash + 1..] == name;
    assert DropTrailingSlashes(p) == p;
    assert LastIndexOf(p, '/') == Some(slash) by {
      LastSlash(p, slash);
    }
  }

  lemma LastSlash(p: string, i: nat)
    requires i < |p| && p[i] == '/'
    requires forall k :: i < k < |p| ==> p[k] != '/'
    ensures LastIndexOf(p, '/') == Some(i)
  {
    var r := LastIndexOf(p, '/');
    assert r.Some?;
    assert r.value >= i;
  }
}
