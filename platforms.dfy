/**
 * The value of `platform.system()` and what the build script derives from it:
 * the loader variable of `SYSTEM_TO_DYLIB_ENVVAR`, `os.pathsep` and the path flavour.
 */
module Platforms {
  import opened Wrappers
  import opened Paths

  /** `platform.system()`; every other answer is `Other`. */
  datatype Platform = Linux | Windows | Darwin | Other

  /** `SYSTEM_TO_DYLIB_ENVVAR`. */
  const DylibEnvVar: map<Platform, string> :=
    map[Linux := "LD_LIBRARY_PATH", Windows := "PATH", Darwin := "DYLD_FALLBACK_LIBRARY_PATH"]

  /** `SYSTEM_TO_DYLIB_ENVVAR.get(system)`. */
  function LoaderVariable(p: Platform): (r: Option<string>)
    ensures r.None? <==> p == Other
    ensures p == Linux ==> r == Some("LD_LIBRARY_PATH")
    ensures p == Windows ==> r == Some("PATH")
    ensures p == Darwin ==> r == Some("DYLD_FALLBACK_LIBRARY_PATH")
  {
    assert DylibEnvVar.Keys == {Linux, Windows, Darwin};
    if p in DylibEnvVar then Some(DylibEnvVar[p])
    else assert p != Linux && p != Windows && p != Darwin; None
  }

  /** `os.pathsep`. */
  function PathListSep(p: Platform): string {
    if p == Windows then ";" else ":"
  }

  /** `pathlib.Path` is a Windows path on Windows and a POSIX path elsewhere. */
  function FlavourOf(p: Platform): Flavour {
    if p == Windows then WindowsFlavour else PosixFlavour
  }
}
