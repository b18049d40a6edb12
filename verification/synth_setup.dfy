/** The decision logic of afu_synth_setup.py once its subprocess and
    filesystem calls are taken out: extending a search-path variable, picking
    the release's hw/lib directory, and picking the AFU JSON file. */
module SynthSetup {
  import opened Wrappers
  import opened Text

  /** Environment variables of the build subprocesses. */
  type Env = map<string, string>

  const BbsLibPath := "BBS_LIB_PATH"
  const PlatformRoot := "OPAE_PLATFORM_ROOT"

  /** updCmdEnv: add `value` to the colon-separated search path `env[key]`
      unless it is already the last entry. Only the last entry is compared,
      so an earlier occurrence of `value` does not prevent a second copy. */
  function UpdCmdEnv(env: Env, key: string, value: string): (r: Env)
    ensures key in r
    ensures forall k :: k != key ==> (k in r <==> k in env)
    ensures forall k :: k in r && k != key ==> r[k] == env[k]
    ensures key !in env ==> r[key] == value
    ensures key in env ==> env[key] <= r[key]
    ensures key in env && LastComponent(env[key], ':') == value ==> r[key] == env[key]
    ensures key in env && LastComponent(env[key], ':') != value ==>
      Split(r[key], ':') == Split(env[key], ':') + Split(value, ':')
    ensures LastComponent(r[key], ':') == LastComponent(value, ':')
  {
    if key !in env then env[key := value]
    else if LastComponent(env[key], ':') != value then
      SplitAppend(env[key], value, ':');
      assert env[key] + ":" + value == env[key] + [':'] + value;
      env[key := env[key] + ":" + value]
    else
      SplitNoSeparator(value, ':');
      env
  }

  /** Adding the same entry twice is adding it once exactly when the entry
      holds no ':' (an entry with ':' never equals a single component). */
  lemma UpdCmdEnvTwice(env: Env, key: string, value: string)
    ensures UpdCmdEnv(UpdCmdEnv(env, key, value), key, value) == UpdCmdEnv(env, key, value)
        <==> ':' !in value
  {
  }

  /** Only the last entry is compared: "a" is appended to "a:b" again. */
  lemma EarlierEntryNotChecked()
    ensures UpdCmdEnv(map["P" := "a:b"], "P", "a")["P"] == "a:b:a"
  {
  }

  /** Python's os.path.isabs on POSIX. */
  predicate IsAbsolute(p: string)
  {
    |p| > 0 && p[0] == '/'
  }

  /** Python's os.path.join(a, b) on POSIX, for two parts. */
  function PathJoin(a: string, b: string): string
  {
    if IsAbsolute(b) then b
    else if a == "" || a[|a| - 1] == '/' then a + b
    else a + "/" + b
  }

  datatype HwLibError = NoHwLibSource

  /** getHWLibPath as written, without the `fme-platform-class.txt` check:
      `--lib` first (also exported as BBS_LIB_PATH), then BBS_LIB_PATH and
      then OPAE_PLATFORM_ROOT + "/hw/lib", each with trailing '/' removed by
      `rstrip('/')`. Returns the directory and the updated environment. */
  function HwLibDirAsWritten(lib: Option<string>, env: Env): (r: Result<(string, Env), HwLibError>)
    ensures r.Failure? <==> lib.None? && BbsLibPath !in env && PlatformRoot !in env
    ensures lib.Some? ==> r == Success((lib.value, env[BbsLibPath := lib.value]))
    ensures lib.None? && r.Success? ==> r.value.1 == env
    ensures lib.None? && BbsLibPath in env ==>
      && r.value.0 <= env[BbsLibPath]
      && (forall k :: |r.value.0| <= k < |env[BbsLibPath]| ==> env[BbsLibPath][k] == '/')
      && (r.value.0 == "" || r.value.0[|r.value.0| - 1] != '/')
    ensures lib.None? && BbsLibPath !in env && PlatformRoot in env ==>
      && var root := RStrip(env[PlatformRoot], '/');
         r.value.0 == (if root == "" then "hw/lib" else root + "/hw/lib")
  {
    if lib.Some? then Success((lib.value, env[BbsLibPath := lib.value]))
    else if BbsLibPath in env then Success((RStrip(env[BbsLibPath], '/'), env))
    else if PlatformRoot in env then Success((PathJoin(RStrip(env[PlatformRoot], '/'), "hw/lib"), env))
    else Failure(NoHwLibSource)
  }

  /** OPAE_PLATFORM_ROOT="/" names the file-system root, yet `rstrip('/')`
      empties it and the hw/lib directory comes out as the relative path
      "hw/lib". */
  lemma RootSlashGivesRelativeDir()
    ensures HwLibDirAsWritten(None, map[PlatformRoot := "/"]) == Success(("hw/lib", map[PlatformRoot := "/"]))
  {
  }

  /** Trailing '/' removed, except that a path made only of '/' stays "/". */
  function TrimTrailingSlashes(p: string): (r: string)
    ensures IsAbsolute(p) ==> IsAbsolute(r)
    ensures p != "" && RStrip(p, '/') == "" ==> r == "/"
    ensures RStrip(p, '/') != "" || p == "" ==> r == RStrip(p, '/')
  {
    var s := RStrip(p, '/');
    if p != "" && s == "" then "/" else s
  }

  /** getHWLibPath with the trailing-slash removal corrected: the same
      choice of source, and an absolute source gives an absolute directory. */
  function HwLibDir(lib: Option<string>, env: Env): (r: Result<(string, Env), HwLibError>)
    ensures r.Failure? <==> lib.None? && BbsLibPath !in env && PlatformRoot !in env
    ensures lib.Some? ==> r == Success((lib.value, env[BbsLibPath := lib.value]))
    ensures lib.None? && r.Success? ==> r.value.1 == env
    ensures lib.None? && BbsLibPath in env && IsAbsolute(env[BbsLibPath]) ==> IsAbsolute(r.value.0)
    ensures lib.None? && BbsLibPath !in env && PlatformRoot in env && IsAbsolute(env[PlatformRoot]) ==>
      IsAbsolute(r.value.0)
  {
    if lib.Some? then Success((lib.value, env[BbsLibPath := lib.value]))
    else if BbsLibPath in env then Success((TrimTrailingSlashes(env[BbsLibPath]), env))
    else if PlatformRoot in env then Success((PathJoin(TrimTrailingSlashes(env[PlatformRoot]), "hw/lib"), env))
    else Failure(NoHwLibSource)
  }

  /** The corrected selection agrees with the source whenever the variable
      it reads is not made only of '/'. */
  lemma HwLibDirAgrees(lib: Option<string>, env: Env)
    requires BbsLibPath in env ==> RStrip(env[BbsLibPath], '/') != "" || env[BbsLibPath] == ""
    requires PlatformRoot in env ==> RStrip(env[PlatformRoot], '/') != "" || env[PlatformRoot] == ""
    ensures HwLibDir(lib, env) == HwLibDirAsWritten(lib, env)
  {
  }

  datatype SourcesError = NoAfuJson | MultipleAfuJson

  /** The AFU JSON file named by `rtl_src_config --json`: its output is
      stripped and split into lines; more than one line, or one empty line,
      is refused. (The source's test for zero lines can never fire, because
      splitting always yields at least one piece.) */
  function SelectAfuJson(output: string): (r: Result<string, SourcesError>)
    ensures r.Success? <==> Strip(output) != "" && '\n' !in Strip(output)
    ensures r == Failure(MultipleAfuJson) <==> '\n' in Strip(output)
    ensures r == Failure(NoAfuJson) <==> Strip(output) == ""
    ensures r.Success? ==> r.value == Strip(output)
    ensures r.Success? ==>
      && r.value != ""
      && '\n' !in r.value
      && !IsSpace(r.value[0]) && !IsSpace(r.value[|r.value| - 1])
      && IsInfix(r.value, output)
  {
    var stripped := Strip(output);
    var lines := Split(stripped, '\n');
    SplitSingleIff(stripped, '\n');
    if |lines| > 1 then Failure(MultipleAfuJson)
    else if |lines[0]| == 0 then Failure(NoAfuJson)
    else
      assert lines[0] == stripped;
      Success(lines[0])
  }
}
