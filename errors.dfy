/** The exceptions the build script raises, one constructor per `raise` or `assert`. */
module BuildErrors {

  datatype BuildError =
    /** `python_exec_path`: the listing did not give exactly one toolchain (`found` of them). */
    | NotSingleToolchain(found: nat)
    /** `python_dylib_dir`: no rule for the running system. */
    | NoDylibRule
    /** `find_python_lib_paths`: no rule for the running system. */
    | NoLibraryPathRule
    /** `ensure_pyo3_config`: the probe's stderr holds no configuration block. */
    | NoConfigInOutput
    /** `extend_env_with_python_dylib`: the system has no loader variable. */
    | UnknownSystem
}
