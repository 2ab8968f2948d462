/**
 * `python_exec_path`, `python_dylib_dir`, `find_python_lib_paths` and
 * `pyo3_config_path`: where the interpreter, its libraries and the generated
 * pyo3 configuration live. The running system, the home directory and the
 * working directory are parameters.
 */
module Locations {
  import opened Wrappers
  import opened PyText
  import opened Paths
  import opened Platforms
  import opened BuildErrors
  import opened Toolchain

  /** `python_exec_path`: the single matching toolchain's path, parsed as a path of the running system. */
  function PythonExecPath(platform: Platform, versionFile: string, listing: string): Result<Path, BuildError> {
    var found :- ChooseToolchain(versionFile, listing);
    Success(Parse(FlavourOf(platform), found))
  }

  /** `python_exec_path` with the pattern as the source compiles it. */
  function PythonExecPathAsWritten(platform: Platform, versionFile: string, listing: string): (r: Result<Path, BuildError>)
    ensures r.Success? <==> |FindMatchingAsWritten(listing, ReadPin(versionFile))| == 1
    ensures r.Success? ==> r.value == Parse(FlavourOf(platform), FindMatchingAsWritten(listing, ReadPin(versionFile))[0])
    ensures r.Failure? ==> r.error == NotSingleToolchain(|FindMatchingAsWritten(listing, ReadPin(versionFile))|)
  {
    var found :- ChooseToolchainAsWritten(versionFile, listing);
    Success(Parse(FlavourOf(platform), found))
  }

  /** `python_dylib_dir`. */
  function DylibDir(platform: Platform, exec: Path, home: Path): (r: Result<Path, BuildError>)
    ensures r.Failure? <==> platform == Darwin || platform == Other
    ensures r.Failure? ==> r.error == NoDylibRule
    ensures platform == Linux && |exec.parts| >= 2 ==>
      r == Success(Path(exec.anchor, exec.parts[..|exec.parts| - 2] + ["lib"]))
    ensures platform == Windows && exec.anchor == "" && |exec.parts| >= 1 ==>
      r == Success(Path(home.anchor, home.parts + exec.parts[..|exec.parts| - 1] + ["libs"]))
    ensures platform == Windows && exec.anchor != "" ==>
      r == Success(Path(exec.anchor, Parent(exec).parts + ["libs"]))
  {
    match platform
    case Linux =>
      assert |exec.parts| >= 2 ==> exec.parts[..|exec.parts| - 1][..|exec.parts| - 2] == exec.parts[..|exec.parts| - 2];
      Success(Join(Parent(Parent(exec)), Child("lib")))
    case Windows => Success(Join(Join(home, Parent(exec)), Child("libs")))
    case _ => Failure(NoDylibRule)
  }

  /** `find_python_lib_paths`. */
  function LibPaths(platform: Platform, exec: Path, home: Path): (r: Result<seq<Path>, BuildError>)
    ensures platform == Linux ==> r == Success([DylibDir(platform, exec, home).value])
    ensures platform == Windows ==>
      r == Success([DylibDir(platform, exec, home).value, Parent(DylibDir(platform, exec, home).value)])
    ensures r.Failure? <==> platform == Darwin || platform == Other
    ensures r.Failure? ==> r.error == NoDylibRule
  {
    var dylibDir :- DylibDir(platform, exec, home);
    if platform == Linux then Success([dylibDir])
    else if platform == Windows then Success([dylibDir, Parent(dylibDir)])
    else Failure(NoLibraryPathRule)
  }

  /** `str(python_dylib_dir(exec))`, the text `ensure_pyo3_config` puts after `lib_dir=`. */
  function LibDirText(platform: Platform, exec: Path, home: Path): Result<string, BuildError> {
    var dir :- DylibDir(platform, exec, home);
    Success(Str(FlavourOf(platform), dir))
  }

  /** `pyo3_config_path`: the file `pyo3_config` in the working directory. */
  function ConfigPath(cwd: Path): (r: Path)
    ensures r.anchor == cwd.anchor && r.parts == cwd.parts + ["pyo3_config"]
  {
    Join(cwd, Child("pyo3_config"))
  }

  /*
   * Properties.
   */

  /**
   * With a whitespace-free pin, the interpreter is found exactly when one line of the
   * listing qualifies, and its path is that line's second field.
   */
  lemma {:induction false} PythonExecPathSpec(platform: Platform, versionFile: string, listing: string)
    requires AllNonSpace(ReadPin(versionFile))
    ensures PythonExecPath(platform, versionFile, listing).Success? <==>
      |ListingMatches(Lines(listing), ReadPin(versionFile))| == 1
    ensures PythonExecPath(platform, versionFile, listing).Success? ==>
      PythonExecPath(platform, versionFile, listing).value
        == Parse(FlavourOf(platform), ListingMatches(Lines(listing), ReadPin(versionFile))[0])
  {
    var ms := ListingMatches(Lines(listing), ReadPin(versionFile));
    ChooseToolchainSpec(versionFile, listing, if |ms| == 1 then ms[0] else "");
  }

  /**
   * For a plain pin with no `.` and a listing with no lone tagged field before its
   * last line, `python_exec_path` as written finds the interpreter the corrected
   * matcher finds.
   */
  lemma {:induction false} PythonExecPathAsWrittenAgrees(platform: Platform, versionFile: string, listing: string)
    requires PlainPin(ReadPin(versionFile)) && '.' !in ReadPin(versionFile) && AllNonSpace(ReadPin(versionFile))
    requires NoDangling(Lines(listing), ReadPin(versionFile))
    ensures PythonExecPathAsWritten(platform, versionFile, listing) == PythonExecPath(platform, versionFile, listing)
  {
    ChooseAsWrittenAgrees(versionFile, listing);
  }

  /**
   * On Windows, for an interpreter path relative to the home directory, the library
   * directories are `libs` beside the interpreter and the interpreter's own directory.
   */
  lemma {:induction false} WindowsLibPaths(exec: Path, home: Path)
    requires exec.anchor == "" && |exec.parts| >= 1
    ensures LibPaths(Windows, exec, home) == Success([
      Path(home.anchor, home.parts + exec.parts[..|exec.parts| - 1] + ["libs"]),
      Path(home.anchor, home.parts + exec.parts[..|exec.parts| - 1])])
  {
    var dir := home.parts + exec.parts[..|exec.parts| - 1];
    assert (dir + ["libs"])[..|dir + ["libs"]| - 1] == dir;
  }

  /** On Linux, the library directory is `lib` beside the interpreter's `bin` directory. */
  lemma {:induction false} LinuxLibPaths(exec: Path, home: Path)
    requires |exec.parts| >= 2
    ensures LibPaths(Linux, exec, home) == Success([Path(exec.anchor, exec.parts[..|exec.parts| - 2] + ["lib"])])
    ensures Parent(Parent(exec)) == Parent(LibPaths(Linux, exec, home).value[0])
  {
    var ps := exec.parts[..|exec.parts| - 2];
    assert (ps + ["lib"])[..|ps + ["lib"]| - 1] == ps;
    assert exec.parts[..|exec.parts| - 1][..|exec.parts| - 2] == ps;
  }

  /**
   * For paths parsed on the running system, the text after `lib_dir=` names the library
   * directory: parsing it gives that directory back.
   */
  lemma {:induction false} LibDirTextParses(platform: Platform, exec: Path, home: Path)
    requires WellFormed(FlavourOf(platform), exec) && WellFormed(FlavourOf(platform), home)
    ensures LibDirText(platform, exec, home).Failure? <==> DylibDir(platform, exec, home).Failure?
    ensures LibDirText(platform, exec, home).Success? ==>
      Parse(FlavourOf(platform), LibDirText(platform, exec, home).value) == DylibDir(platform, exec, home).value
  {
    var f := FlavourOf(platform);
    ParentWellFormed(f, exec);
    if platform == Linux {
      ParentWellFormed(f, Parent(exec));
      assert ValidPart(f, "lib");
      JoinWellFormed(f, Parent(Parent(exec)), Child("lib"));
      ParseStr(f, DylibDir(platform, exec, home).value);
    } else if platform == Windows {
      JoinWellFormed(f, home, Parent(exec));
      assert ValidPart(f, "libs");
      JoinWellFormed(f, Join(home, Parent(exec)), Child("libs"));
      ParseStr(f, DylibDir(platform, exec, home).value);
    }
  }

  /** The configuration file lives directly in the working directory. */
  lemma {:induction false} ConfigPathParent(cwd: Path)
    ensures Parent(ConfigPath(cwd)) == cwd
  {
    ParentOfChild(cwd, "pyo3_config");
  }
}
