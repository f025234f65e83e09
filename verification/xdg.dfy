/** Where the configuration lives: `~/.lemon3`, or `lemon3` under
    `XDG_CONFIG_HOME` when that variable is set, following the XDG Base
    Directory Specification. The file system is given as what a `stat`
    of each path reports and what creating a directory answers. */
module Xdg {
  import opened Wrappers
  import opened Text
  import Paths

  /** The directory name under either parent. */
  const Dir: string := "lemon3"

  /** What `os.Stat` says about a path. */
  datatype Stat = Missing | StatFailed(msg: string) | IsDirectory | NotDirectory

  /** dirExists: a missing path is simply absent; a path that is there but
      is not a directory, or that cannot be examined, is an error. */
  function DirExists(p: string, stat: string -> Stat): (r: Result<bool>)
    ensures r == Ok(true) <==> stat(p) == IsDirectory
    ensures r == Ok(false) <==> stat(p) == Missing
    ensures stat(p) == NotDirectory ==> r == Err(p + " is not a directory")
    ensures stat(p).StatFailed? ==> r == Err(stat(p).msg)
  {
    match stat(p)
    case Missing => Ok(false)
    case StatFailed(e) => Err(e)
    case IsDirectory => Ok(true)
    case NotDirectory => Err(p + " is not a directory")
  }

  /** The outcome of ConfigDir: the directory or the error, and the
      directory it created on the way, if any. */
  datatype Outcome = Outcome(dir: Result<string>, created: Option<string>)

  /** The default directory in the home directory. */
  function DefaultPath(home: string): string {
    Paths.Join(home, "." + Dir)
  }

  /** The directory under `XDG_CONFIG_HOME`. */
  function XdgPath(xdg: string): string {
    Paths.Join(xdg, Dir)
  }

  /** ConfigDir. `home` is the current user's home directory, `xdg` the
      variable as `os.LookupEnv` returns it, `stat` the file system and
      `mkdir` the answer to creating a directory. */
  function ConfigDir(home: Result<string>, xdg: Option<string>, stat: string -> Stat,
                     mkdir: string -> Result<()>): (o: Outcome)
    ensures home.Err? ==> o == Outcome(Err("failed to get current user: " + home.msg), None)
    ensures home.Ok? && DirExists(DefaultPath(home.value), stat).Err? ==>
              o == Outcome(Err(DirExists(DefaultPath(home.value), stat).msg), None)
    ensures o.created.Some? ==> stat(o.created.value) == Missing && o.dir == Ok(o.created.value)
    ensures o.dir.Ok? ==> home.Ok? && (o.dir.value == DefaultPath(home.value)
                                       || (xdg.Some? && xdg.value != "" && o.dir.value == XdgPath(xdg.value)))
    ensures o.dir.Ok? ==> stat(o.dir.value) == IsDirectory || o.created == Some(o.dir.value)
  {
    if home.Err? then Outcome(Err("failed to get current user: " + home.msg), None)
    else
      var defaultPath := DefaultPath(home.value);
      match DirExists(defaultPath, stat)
      case Err(e) => Outcome(Err(e), None)
      case Ok(defaultExists) =>
        if xdg.Some? && xdg.value != "" then
          var xdgPath := XdgPath(xdg.value);
          match DirExists(xdgPath, stat)
          case Err(e) => Outcome(Err(e), None)
          case Ok(xdgExists) =>
            if xdgExists || !defaultExists then
              if xdgExists then Outcome(Ok(xdgPath), None)
              else Create(xdgPath, mkdir)
            else UseDefault(defaultPath, defaultExists, mkdir)
        else UseDefault(defaultPath, defaultExists, mkdir)
  }

  /** Creating a directory that is missing: the path, or the wrapped
      error. */
  function Create(p: string, mkdir: string -> Result<()>): (o: Outcome)
    ensures mkdir(p).Ok? ==> o == Outcome(Ok(p), Some(p))
    ensures mkdir(p).Err? ==> o == Outcome(Err("failed to create dir " + p + ": " + mkdir(p).msg), None)
  {
    match mkdir(p)
    case Ok(_) => Outcome(Ok(p), Some(p))
    case Err(e) => Outcome(Err("failed to create dir " + p + ": " + e), None)
  }

  /** The default directory, created first when it is missing. */
  function UseDefault(p: string, exists_: bool, mkdir: string -> Result<()>): (o: Outcome)
    ensures exists_ ==> o == Outcome(Ok(p), None)
    ensures !exists_ ==> o == Create(p, mkdir)
  {
    if exists_ then Outcome(Ok(p), None) else Create(p, mkdir)
  }

  /** A file system in which neither candidate is in the way: each is a
      directory or missing. */
  predicate Clear(home: string, xdg: string, stat: string -> Stat) {
    stat(DefaultPath(home)) in {Missing, IsDirectory} && stat(XdgPath(xdg)) in {Missing, IsDirectory}
  }

  /** The choice between the two directories, as the documentation of
      ConfigDir states it: the XDG one when the variable is set and either
      that directory exists or the default does not, the default
      otherwise. */
  lemma ChoosesDirectory(home: string, xdg: Option<string>, stat: string -> Stat, mkdir: string -> Result<()>)
    requires xdg.Some? ==> Clear(home, xdg.value, stat)
    requires stat(DefaultPath(home)) in {Missing, IsDirectory}
    requires forall p :: mkdir(p).Ok?
    ensures var o := ConfigDir(Ok(home), xdg, stat, mkdir);
            var xdgSet := xdg.Some? && xdg.value != "";
            o.dir.Ok?
            && (xdgSet && stat(XdgPath(xdg.value)) == IsDirectory ==> o.dir.value == XdgPath(xdg.value))
            && (xdgSet && stat(DefaultPath(home)) == Missing ==> o.dir.value == XdgPath(xdg.value))
            && (xdgSet && stat(XdgPath(xdg.value)) == Missing && stat(DefaultPath(home)) == IsDirectory ==>
                  o == Outcome(Ok(DefaultPath(home)), None))
            && (!xdgSet ==> o.dir.value == DefaultPath(home))
  {
  }

  /** Asking again once the directory exists gives the same directory and
      creates nothing. */
  lemma {:induction false} ConfigDirStable(home: Result<string>, xdg: Option<string>, stat: string -> Stat,
                                           mkdir: string -> Result<()>)
    requires ConfigDir(home, xdg, stat, mkdir).dir.Ok?
    ensures var o := ConfigDir(home, xdg, stat, mkdir);
            var after := (p: string) => if Some(p) == o.created then IsDirectory else stat(p);
            ConfigDir(home, xdg, after, mkdir) == Outcome(o.dir, None)
  {
    var o := ConfigDir(home, xdg, stat, mkdir);
    var after := (p: string) => if Some(p) == o.created then IsDirectory else stat(p);
    var d := DefaultPath(home.value);
    if xdg.Some? && xdg.value != "" {
      var x := XdgPath(xdg.value);
      DefaultIsNotXdg(home.value, xdg.value);
      assert after(d) == (if Some(d) == o.created then IsDirectory else stat(d));
      assert after(x) == (if Some(x) == o.created then IsDirectory else stat(x));
    }
  }

  /** The two candidates are never the same path: the character before
      the final "lemon3" is a dot in one and a slash in the other, or the
      second is "lemon3" alone. */
  lemma DefaultIsNotXdg(home: string, xdg: string)
    requires xdg != ""
    ensures DefaultPath(home) != XdgPath(xdg)
  {
    var d, x := DefaultPath(home), XdgPath(xdg);
    assert d[|d| - 7] == '.';
    if xdg == "." {
      assert |x| < |d|;
    } else {
      assert x[|x| - 7] == '/';
    }
  }
}
