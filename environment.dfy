/**
 * `extend_env_with_python_dylib`: a copy of the environment whose loader variable
 * also names the interpreter's library directories.
 */
module Environment {
  import opened Wrappers
  import opened PyText
  import opened Paths
  import opened Platforms
  import opened BuildErrors
  import opened Locations

  /** `os.pathsep.join([str(p) for p in paths])`. */
  function JoinedPaths(platform: Platform, paths: seq<Path>): string {
    JoinWith(seq(|paths|, k requires 0 <= k < |paths| => Str(FlavourOf(platform), paths[k])), PathListSep(platform))
  }

  /** `env[key] += text` when `key` is set, `env[key] = text` otherwise. */
  function Amended(env: map<string, string>, key: string, text: string): (r: map<string, string>)
    ensures r.Keys == env.Keys + {key}
    ensures forall k :: k in env && k != key ==> r[k] == env[k]
  {
    if key in env then env[key := env[key] + text] else env[key := text]
  }

  /** The environment `extend_env_with_python_dylib` returns, or the exception it raises. */
  function ExtendedEnv(env: map<string, string>, platform: Platform, exec: Path, home: Path): Result<map<string, string>, BuildError> {
    match LoaderVariable(platform)
    case None => Failure(UnknownSystem)
    case Some(amend) =>
      var paths :- LibPaths(platform, exec, home);
      Success(Amended(env, amend, JoinedPaths(platform, paths)))
  }

  /** `extend_env_with_python_dylib`; the caller's map is a value, so it is never changed. */
  method ExtendEnv(env: map<string, string>, platform: Platform, exec: Path, home: Path)
    returns (r: Result<map<string, string>, BuildError>)
    ensures r == ExtendedEnv(env, platform, exec, home)
  {
    var copy := env;
    var amend := LoaderVariable(platform);
    if amend.None? {
      return Failure(UnknownSystem);
    }
    var paths := LibPaths(platform, exec, home);
    if paths.Failure? {
      return Failure(paths.error);
    }
    var pathsStr := JoinedPaths(platform, paths.value);
    if amend.value in copy {
      copy := copy[amend.value := copy[amend.value] + pathsStr];
    } else {
      copy := copy[amend.value := pathsStr];
    }
    return Success(copy);
  }

  /*
   * Properties.
   */

  /**
   * The environment is extended on Linux and Windows only: `Other` has no loader
   * variable, and Darwin, which has one, has no library directory rule.
   */
  lemma {:induction false} ExtendedEnvOutcome(env: map<string, string>, platform: Platform, exec: Path, home: Path)
    ensures ExtendedEnv(env, platform, exec, home).Success? <==> platform == Linux || platform == Windows
    ensures platform == Darwin ==> ExtendedEnv(env, platform, exec, home) == Failure(NoDylibRule)
    ensures platform == Other ==> ExtendedEnv(env, platform, exec, home) == Failure(UnknownSystem)
  {
  }

  /**
   * The loader variable gets the old value with the new paths glued to its end, or
   * just the new paths when it was unset; no other variable changes.
   */
  lemma {:induction false} ExtendedEnvValue(env: map<string, string>, platform: Platform, exec: Path, home: Path)
    requires platform == Linux || platform == Windows
    ensures ExtendedEnv(env, platform, exec, home).Success?
    ensures ExtendedEnv(env, platform, exec, home).value.Keys == env.Keys + {LoaderVariable(platform).value}
    ensures forall k :: k in env && k != LoaderVariable(platform).value ==> ExtendedEnv(env, platform, exec, home).value[k] == env[k]
    ensures LoaderVariable(platform).value in env ==>
      ExtendedEnv(env, platform, exec, home).value[LoaderVariable(platform).value]
        == env[LoaderVariable(platform).value] + JoinedPaths(platform, LibPaths(platform, exec, home).value)
    ensures LoaderVariable(platform).value !in env ==>
      ExtendedEnv(env, platform, exec, home).value[LoaderVariable(platform).value]
        == JoinedPaths(platform, LibPaths(platform, exec, home).value)
  {
  }

  /** On Linux the only new entry is `lib` beside the interpreter's `bin` directory. */
  lemma {:induction false} LinuxJoinedPaths(exec: Path, home: Path)
    requires |exec.parts| >= 2
    ensures JoinedPaths(Linux, LibPaths(Linux, exec, home).value)
      == Str(PosixFlavour, Path(exec.anchor, exec.parts[..|exec.parts| - 2] + ["lib"]))
  {
    LinuxLibPaths(exec, home);
  }

  /** On Windows the new entries are `libs` and the interpreter's directory, separated by `;`. */
  lemma {:induction false} WindowsJoinedPaths(exec: Path, home: Path)
    requires exec.anchor == "" && |exec.parts| >= 1
    ensures JoinedPaths(Windows, LibPaths(Windows, exec, home).value)
      == Str(WindowsFlavour, Path(home.anchor, home.parts + exec.parts[..|exec.parts| - 1] + ["libs"])) + ";"
        + Str(WindowsFlavour, Path(home.anchor, home.parts + exec.parts[..|exec.parts| - 1]))
  {
    WindowsLibPaths(exec, home);
    var ps := LibPaths(Windows, exec, home).value;
    var ss := seq(|ps|, k requires 0 <= k < |ps| => Str(WindowsFlavour, ps[k]));
    assert ss == [Str(WindowsFlavour, ps[0]), Str(WindowsFlavour, ps[1])];
    JoinTwo(ss[0], ss[1], ";");
  }

  lemma {:induction false} JoinTwo(a: string, b: string, sep: string)
    ensures JoinWith([a, b], sep) == a + sep + b
  {
    assert [a, b][1..] == [b];
  }

  /** On Linux with `LD_LIBRARY_PATH` set, its new value is the old one followed directly by the `lib` directory. */
  lemma {:induction false} LinuxAppend(env: map<string, string>, exec: Path, home: Path)
    requires "LD_LIBRARY_PATH" in env && |exec.parts| >= 2
    ensures ExtendedEnv(env, Linux, exec, home) == Success(env["LD_LIBRARY_PATH" :=
      env["LD_LIBRARY_PATH"] + Str(PosixFlavour, Path(exec.anchor, exec.parts[..|exec.parts| - 2] + ["lib"]))])
  {
    LinuxJoinedPaths(exec, home);
  }

  /*
   * The separator the append leaves out.
   */

  /** The entries of a path list: `t.split(sep)`. */
  function Entries(t: string, sep: char): (r: seq<string>)
    ensures |r| >= 1
    decreases |t|
  {
    if t == [] then [""]
    else if t[0] == sep then [""] + Entries(t[1..], sep)
    else
      var rest := Entries(t[1..], sep);
      [[t[0]] + rest[0]] + rest[1..]
  }

  /** A separator between two lists keeps their entries apart. */
  lemma {:induction false} EntriesOfAppend(a: string, sep: char, b: string)
    ensures Entries(a + [sep] + b, sep) == Entries(a, sep) + Entries(b, sep)
    decreases |a|
  {
    if a == [] {
      assert a + [sep] + b == [sep] + b;
      assert ([sep] + b)[1..] == b;
    } else {
      assert (a + [sep] + b)[1..] == a[1..] + [sep] + b;
      EntriesOfAppend(a[1..], sep, b);
    }
  }

  /** `env[key] += os.pathsep + text`: the append with the separator. */
  function AmendedSeparated(env: map<string, string>, key: string, text: string, sep: char): (r: map<string, string>)
    ensures r.Keys == env.Keys + {key}
    ensures forall k :: k in env && k != key ==> r[k] == env[k]
  {
    if key in env then env[key := env[key] + [sep] + text] else env[key := text]
  }

  /** With the separator, the variable lists the old entries and then the new ones. */
  lemma {:induction false} SeparatedKeepsEntries(env: map<string, string>, key: string, text: string, sep: char)
    requires key in env
    ensures Entries(AmendedSeparated(env, key, text, sep)[key], sep) == Entries(env[key], sep) + Entries(text, sep)
  {
    EntriesOfAppend(env[key], sep, text);
  }

  /** `extend_env_with_python_dylib` with `os.pathsep` between the old value and the new paths. */
  function ExtendedEnvSeparated(env: map<string, string>, platform: Platform, exec: Path, home: Path): Result<map<string, string>, BuildError> {
    match LoaderVariable(platform)
    case None => Failure(UnknownSystem)
    case Some(amend) =>
      var paths :- LibPaths(platform, exec, home);
      Success(AmendedSeparated(env, amend, JoinedPaths(platform, paths), PathListSep(platform)[0]))
  }

  /**
   * With the separator, a set loader variable lists its old entries followed by the
   * library directories; the outcome is otherwise that of the environment as written.
   */
  lemma {:induction false} SeparatedExtendsEntries(env: map<string, string>, platform: Platform, exec: Path, home: Path)
    ensures ExtendedEnvSeparated(env, platform, exec, home).Success? <==> ExtendedEnv(env, platform, exec, home).Success?
    ensures ExtendedEnvSeparated(env, platform, exec, home).Success? ==>
      ExtendedEnvSeparated(env, platform, exec, home).value.Keys == ExtendedEnv(env, platform, exec, home).value.Keys
    ensures (platform == Linux || platform == Windows) && LoaderVariable(platform).value in env ==>
      Entries(ExtendedEnvSeparated(env, platform, exec, home).value[LoaderVariable(platform).value], PathListSep(platform)[0])
        == Entries(env[LoaderVariable(platform).value], PathListSep(platform)[0])
          + Entries(JoinedPaths(platform, LibPaths(platform, exec, home).value), PathListSep(platform)[0])
  {
    if (platform == Linux || platform == Windows) && LoaderVariable(platform).value in env {
      SeparatedKeepsEntries(env, LoaderVariable(platform).value,
        JoinedPaths(platform, LibPaths(platform, exec, home).value), PathListSep(platform)[0]);
    }
  }

  /**
   * As written, a set `LD_LIBRARY_PATH=/usr/lib` and an interpreter at
   * `/opt/py/bin/python3` give the single entry `/usr/lib/opt/py/lib`: neither
   * directory is on the list any more.
   */
  lemma {:induction false} FusedEntry()
    ensures ExtendedEnv(map["LD_LIBRARY_PATH" := "/usr/lib"], Linux, Path("/", ["opt", "py", "bin", "python3"]), Path("/", []))
      == Success(map["LD_LIBRARY_PATH" := "/usr/lib/opt/py/lib"])
    ensures Entries("/usr/lib/opt/py/lib", ':') == ["/usr/lib/opt/py/lib"]
  {
    FusedValue();
    EntriesWithoutSep("/usr/lib/opt/py/lib", ':');
  }

  lemma {:induction false} FusedValue()
    ensures ExtendedEnv(map["LD_LIBRARY_PATH" := "/usr/lib"], Linux, Path("/", ["opt", "py", "bin", "python3"]), Path("/", []))
      == Success(map["LD_LIBRARY_PATH" := "/usr/lib/opt/py/lib"])
  {
    var env := map["LD_LIBRARY_PATH" := "/usr/lib"];
    var exec := Path("/", ["opt", "py", "bin", "python3"]);
    LinuxAppend(env, exec, Path("/", []));
    assert exec.parts[..2] + ["lib"] == ["opt", "py", "lib"];
    OptPyLib();
    assert "/usr/lib" + "/opt/py/lib" == "/usr/lib/opt/py/lib";
    assert env["LD_LIBRARY_PATH" := "/usr/lib/opt/py/lib"] == map["LD_LIBRARY_PATH" := "/usr/lib/opt/py/lib"];
  }

  lemma {:induction false} OptPyLib()
    ensures Str(PosixFlavour, Path("/", ["opt", "py", "lib"])) == "/opt/py/lib"
  {
    JoinTwo("py", "lib", "/");
    assert ["opt", "py", "lib"][1..] == ["py", "lib"];
  }

  /** Text without the separator is a single entry. */
  lemma {:induction false} EntriesWithoutSep(t: string, sep: char)
    requires sep !in t
    ensures Entries(t, sep) == [t]
    decreases |t|
  {
    if t != [] {
      EntriesWithoutSep(t[1..], sep);
      assert [t[0]] + t[1..] == t;
    }
  }
}
