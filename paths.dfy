/** Path normalisation and the resolution of the configuration file's name
    (Settings._format_path and Settings._get_config_file). */
module Paths {
  import opened Wrappers
  import opened Text

  /** The fixed name of the YAML configuration file. */
  const ConfigFileName: string := "zipatoserver.conf"

  predicate EndsWithSlash(s: string) {
    s != [] && s[|s| - 1] == '/'
  }

  predicate EndsWith(s: string, suffix: string) {
    |suffix| <= |s| && s[|s| - |suffix|..] == suffix
  }

  /** Settings._format_path: with `slash` a non-empty path is made to end in
      one '/', appended only when it is missing; without `slash` one trailing
      '/' is removed, and only one. The empty path is left alone either way. */
  function FormatPath(path: string, slash: bool): (r: string)
    ensures path == [] ==> r == []
    ensures slash && path != [] ==>
      |path| <= |r| <= |path| + 1 && r[..|path|] == path && EndsWithSlash(r)
    ensures slash && EndsWithSlash(path) ==> r == path
    ensures !slash && EndsWithSlash(path) ==> r + "/" == path
    ensures !slash && !EndsWithSlash(path) ==> r == path
  {
    if |path| == 0 then path
    else if slash && path[|path| - 1] != '/' then path + "/"
    else if !slash && path[|path| - 1] == '/' then path[..|path| - 1]
    else path
  }

  /** Enforcing the slash twice is enforcing it once. */
  lemma FormatPathSlashIdempotent(path: string)
    ensures FormatPath(FormatPath(path, true), true) == FormatPath(path, true)
  {
  }

  /** Stripping removes a single '/': the result still ends in '/' exactly
      when the path ended in "//", so "never ends with a slash" does not
      hold of a value such as "x//". */
  lemma {:induction false} FormatPathStripsOneSlash(path: string)
    ensures EndsWithSlash(FormatPath(path, false)) <==>
      (|path| >= 2 && path[|path| - 2..] == "//")
  {
    if |path| >= 2 && path[|path| - 2..] == "//" {
      assert path[|path| - 2] == '/';
    }
  }

  lemma StripDoubleSlashExample()
    ensures FormatPath("x//", false) == "x/"
  {
  }

  /** Settings._get_config_file: a supplied directory gets its trailing '/'
      enforced and the file name appended; without one, `programPath` (the
      directory of the program followed by '/') is prefixed verbatim. */
  function ConfigFile(settingsPath: Option<string>, programPath: string): (r: string)
    ensures EndsWith(r, ConfigFileName)
    ensures settingsPath == Some("") ==> r == ConfigFileName
    ensures settingsPath.Some? && settingsPath.value != [] ==>
      var dir := r[..|r| - |ConfigFileName|];
      EndsWithSlash(dir) && StartsWith(dir, settingsPath.value)
      && |dir| <= |settingsPath.value| + 1
    ensures settingsPath.Some? && EndsWithSlash(settingsPath.value) ==>
      r == settingsPath.value + ConfigFileName
    ensures settingsPath.Some? && settingsPath.value != [] && !EndsWithSlash(settingsPath.value) ==>
      r == settingsPath.value + "/" + ConfigFileName
    ensures settingsPath.None? ==> r == programPath + ConfigFileName
  {
    match settingsPath
    case Some(dir) => FormatPath(dir, true) + ConfigFileName
    case None => programPath + ConfigFileName
  }

  /** A directory given with or without its trailing '/' names the same file. */
  lemma ConfigFileSlashInsensitive(dir: string, programPath: string)
    requires dir != [] && !EndsWithSlash(dir)
    ensures ConfigFile(Some(dir + "/"), programPath) == ConfigFile(Some(dir), programPath)
  {
    assert FormatPath(dir + "/", true) == dir + "/";
  }
}
