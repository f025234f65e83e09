/** Loading the configuration: the settings file `config.yaml` in the
    configuration directory, read with `LEMON3_` environment overrides. The
    commands use the path the loader reports to decide whether setup has
    been run. */
module Config {
  import Xdg

  /** The settings file's name within the configuration directory. */
  const FileName: string := "config.yaml"

  /** The directory the loader joins the file name to: ConfigDir's answer,
      or the empty string when ConfigDir fails, since its error is
      dropped. */
  function LoaderDir(o: Xdg.Outcome): (d: string)
    ensures o.dir.Ok? ==> d == o.dir.value
    ensures o.dir.Err? ==> d == ""
  {
    if o.dir.Ok? then o.dir.value else ""
  }

  /** Load as written: the path handed to the settings library, which
      reports that path as the file used whether or not it could be read.
      So it ends in the file name and is never empty. */
  function Load(o: Xdg.Outcome): (path: string)
    ensures |path| == |LoaderDir(o)| + 1 + |FileName|
    ensures path[..|LoaderDir(o)|] == LoaderDir(o) && path[|LoaderDir(o)|] == '/'
    ensures path[|LoaderDir(o)| + 1..] == FileName
    ensures path != ""
  {
    LoaderDir(o) + "/" + FileName
  }

  /** The check the commands make on that path: setup has not been run. */
  predicate SetupMissing(configFile: string) {
    configFile == ""
  }

  /** As written, the commands' "run setup first" check never fires: not
      even when the directory cannot be found or the file is missing. */
  lemma SetupCheckNeverFires(o: Xdg.Outcome)
    ensures !SetupMissing(Load(o))
  {
  }

  /** Load as the check expects it: the path when the file was read, and
      the empty string when it was not. `read` is whether the settings
      library could read the file. */
  function LoadCorrected(o: Xdg.Outcome, read: bool): (path: string)
    ensures SetupMissing(path) <==> !read
    ensures read ==> path == Load(o)
  {
    if read then Load(o) else ""
  }
}
