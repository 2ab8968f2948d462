# uv-pyo3 build script, modelled in Dafny

`build.py` wraps `cargo` so that a Rust crate using pyo3 builds and runs
against a Python interpreter managed by `uv`. This project models what the
script computes:

- **Choosing the interpreter.**
  - It reads the version pin from `.python-version`.
  - It scans the output of `uv python list` with the regular expression
    `^\S+-PIN\.\d+-\S+\s+(\S+-PIN\.\d+-\S+)` under `re.MULTILINE`.
  - It insists on exactly one match.
- **Locating the libraries.**
  - On Linux the library directory is `lib` beside the interpreter's `bin`
    directory.
  - On Windows it is `libs` under the home directory, beside the
    interpreter; the interpreter's own directory is also used.
- **Writing the pyo3 configuration file.**
  - It runs a probe build with `PYO3_PRINT_CONFIG=1`.
  - It cuts pyo3's configuration out of the probe's stderr, between the
    fixed prefix and suffix lines.
  - It strips each line and drops blank ones, replaces every `lib_dir=` line
    with the library directory, and writes the lines joined by `\n` to
    `pyo3_config` in the working directory, unless that file already exists.
- **Extending the environment.** It appends the library directories to the
  system's loader variable: `LD_LIBRARY_PATH`, `PATH` or
  `DYLD_FALLBACK_LIBRARY_PATH`.
- **The verbose flag**, read from the arguments.

The modules follow the script's structure:

- **Modules for the Python library calls the script uses.**
  - `PyText`: `str.split`, `splitlines`, `strip`, `find`, `removesuffix`,
    slicing with a negative end, and `join`.
  - `Regex`: a backtracking matcher for the regular expression subset the
    pattern uses. It has greedy `+` and Python's priority order, the
    multi-line `^`, and `findall` resuming after each match.
  - `Paths`: `pathlib` parsing, `str`, `.parent` and `/`, for POSIX and
    Windows paths.
- **One module per part of `build.py`.**
  - `Toolchain`, `ListingPattern` and `ListingCases` cover the pattern and the
    choice of interpreter.
  - `Locations` covers the library and configuration paths.
  - `Pyo3Config` covers the configuration file.
  - `Environment` covers the loader variable.
  - `Platforms`, `BuildErrors` and `Arguments` hold the supporting
    definitions.

Where the script mutates state, so does the model:

- `Pyo3Config.ConfigFile` is a class whose `content` field is the
  configuration file; the method `Ensure` writes it.
- `Pyo3Config.RebuildConfig` is the rebuild loop, proved against the function
  `Rebuilt`.
- `Arguments.IsVerbose` is the `any(...)` scan.

Each Python exception that escapes is a `Failure` of `BuildErrors.BuildError`.

For an interpreter at `/x/y/bin/python3` the Linux library directory is
`/x/y/lib`: two `.parent` steps lead from the interpreter to `/x/y`.

## Model

| member | source | states |
|---|---|---|
| Toolchain.FindMatchingSpec | build.py:22-28 | The matcher's result is, in line order, the second field of each line that starts with a field and whose first two fields both read `A-PIN.D-B` (D digits). Each line contributes at most one result. |
| Toolchain.TaggedIff | build.py:24 | A field matches the field pattern `\S+-PIN\.\d+-\S+` exactly when it is tagged `A-PIN.D-B`. |
| Toolchain.AsWrittenAgrees | build.py:24-26 | The pattern as compiled gives the same list as the corrected pattern, for a pin without `.`, whitespace or other regular expression syntax, on a listing where no line but the last holds a lone tagged field. |
| ListingPattern.MatchAtIsScan | build.py:24-25 | The backtracking match at a line start reads the first field, the whole separator run and the second field. It succeeds exactly when both fields are tagged, and then group 1 is the whole second field. |
| ListingPattern.AsWrittenLine | build.py:24-25 | At a line that is not a lone tagged field, `\s+` with a dot-free pin gives the same match as a separator that stops at newlines. |
| Regex.SeqCompSound | build.py:25-26 | A backtracking match of a capture-free prefix followed by the rest goes through a string in the prefix's language. |
| Regex.SeqCompComplete | build.py:25-26 | Any split into a prefix match and a match of the rest yields a match. |
| Toolchain.ReadPin | build.py:34 | The pin is the file's text with one final newline removed, or the text itself when it does not end in a newline. |
| Toolchain.ReadPinOfLine | build.py:34 | A file holding the pin and a newline gives the pin back. |
| Toolchain.SelectToolchain | build.py:39-41 | A toolchain is chosen exactly when there is one match, and it is that match. Otherwise the error records the number of matches. |
| Toolchain.ChooseToolchainAsWritten | build.py:31-41 | With the pattern as compiled, a toolchain is chosen exactly when that pattern gives one match, and it is that match. Otherwise the error records the number of matches. |
| Toolchain.ChooseAsWrittenAgrees | build.py:31-41 | Under the conditions of `AsWrittenAgrees`, the choice made with the pattern as compiled is the corrected choice. |
| Toolchain.ChooseToolchainSpec | build.py:31-41 | With the corrected matcher and a whitespace-free pin, the path chosen is the second field of the only qualifying listing line. The choice fails exactly when the number of qualifying lines is not one. |
| Locations.PythonExecPathAsWritten | build.py:31-41 | `python_exec_path` as written succeeds exactly when the compiled pattern gives one match. Its result is that match parsed as a path of the running system; otherwise the error records the number of matches. |
| Locations.PythonExecPathAsWrittenAgrees | build.py:31-41 | Under the conditions of `AsWrittenAgrees`, `python_exec_path` as written finds the interpreter the corrected one finds. |
| Locations.PythonExecPathSpec | build.py:31-41 | With the corrected matcher, `python_exec_path` succeeds exactly when one line qualifies. Its result is that line's second field, parsed as a path of the running system. |
| Locations.DylibDir | build.py:44-55 | On Linux the result is `lib` beside the parent of the interpreter's directory. On Windows it is `libs` in the home directory joined with the interpreter's directory. It fails on every other system. |
| Locations.LibPaths | build.py:58-70 | On Linux the result is the library directory alone. On Windows it is that directory and its parent. It fails with the library directory's error elsewhere. |
| Locations.LinuxLibPaths | build.py:58-64 | On Linux the only library path is `lib` beside `bin`, and its parent is the interpreter's grandparent. |
| Locations.WindowsLibPaths | build.py:58-66 | On Windows, with an interpreter path relative to home, the paths are `libs` beside the interpreter and the interpreter's directory. |
| Locations.LibDirTextParses | build.py:100 | The text written after `lib_dir=` parses back to the library directory. It fails exactly when that directory does. |
| Locations.ConfigPath | build.py:73-74 | The configuration path is the working directory with one more component, `pyo3_config`. |
| Locations.ConfigPathParent | build.py:73-74 | The configuration file lives directly in the working directory. |
| Paths.ParseStr | build.py:41 | Printing a well-formed path and parsing it again gives the same path. |
| Paths.ParentOfChild | build.py:49 | Joining one component and taking `.parent` gives the original path. |
| Paths.Join | build.py:51 | An anchored right operand replaces the left one. Otherwise the components are concatenated under the left anchor. |
| Platforms.LoaderVariable | build.py:10-14 | Exactly Linux, Windows and Darwin have a loader variable, and each has the one in the table. |
| Pyo3Config.ExtractConfig | build.py:89-91 | The extraction fails exactly when the prefix occurs nowhere in the stderr. |
| Pyo3Config.ExtractBetween | build.py:89-94 | With a prefix and a later suffix, the configuration is exactly the text between the first prefix and the first suffix after it. |
| Pyo3Config.ExtractUnterminated | build.py:93-94 | Without a suffix, `find`'s -1 cuts off the last character of the stderr. |
| Pyo3Config.RebuildConfig | build.py:96-103 | The loop's result is the function `Rebuilt` of the configuration's lines, including its failure. |
| Pyo3Config.RebuiltFailure | build.py:99-101 | `python_dylib_dir`'s exception escapes exactly when some stripped line starts with `lib_dir=`. |
| Pyo3Config.RebuiltLines | build.py:96-103 | The rebuilt lines are the stripped non-blank lines, in order, with every `lib_dir=` line replaced by the library directory. |
| Pyo3Config.RebuiltWithoutLibDir | build.py:96-103 | A configuration with no `lib_dir=` line is only stripped and compacted, whatever `python_dylib_dir` does. |
| Pyo3Config.RebuiltShape | build.py:96-103 | Every rebuilt line is non-empty and has no line break. |
| Pyo3Config.RebuiltFixpoint | build.py:96-103 | Rewriting the rebuilt lines again gives them back unchanged. |
| Pyo3Config.WrittenConfig | build.py:105-106 | The written text reads back, line by line, as the rebuilt lines. It has no empty line and no final newline, and rewriting it changes nothing. |
| Pyo3Config.ConfigFile.Ensure | build.py:77-111 | An existing file is left alone and nothing is run. Otherwise the probe runs with `PYO3_PRINT_CONFIG=1`, and the file then holds the joined rebuilt lines; on an error it stays absent and the error escapes. |
| PyText.SplitLinesOfJoin | build.py:97 | `splitlines` undoes a join by `\n` of non-empty lines without line breaks. |
| PyText.Strip | build.py:98 | `strip` removes leading and trailing whitespace only. The result is empty exactly when the line is all whitespace. |
| PyText.Find | build.py:89 | `find` gives the first occurrence at or after the start, or -1 when there is none. |
| PyText.PySlice | build.py:94 | A negative slice end counts from the end of the text. |
| Environment.ExtendEnv | build.py:114-135 | The method returns the environment `ExtendedEnv` describes, or its error. |
| Environment.ExtendedEnvOutcome | build.py:119-123 | The extension succeeds exactly on Linux and Windows. Darwin fails for want of a library directory, and any other system fails for want of a loader variable. |
| Environment.ExtendedEnvValue | build.py:130-133 | The loader variable becomes its old value followed directly by the joined paths, or just the joined paths when it was unset. No other variable changes. |
| Environment.LinuxJoinedPaths | build.py:125 | On Linux the appended text is the one `lib` directory. |
| Environment.WindowsJoinedPaths | build.py:125 | On Windows the appended text is the two directories separated by `;`. |
| Environment.LinuxAppend | build.py:131 | A set `LD_LIBRARY_PATH` gets the `lib` directory glued to its end. |
| Environment.FusedEntry | build.py:131 | `/usr/lib` extended with `/opt/py/lib` becomes the single entry `/usr/lib/opt/py/lib`. |
| Environment.SeparatedKeepsEntries | build.py:131 | With `os.pathsep` before the new paths, the entries are the old ones followed by the new ones. |
| Environment.SeparatedExtendsEntries | build.py:114-135 | The corrected extension succeeds exactly when the one as written does, and sets the same variables. A set loader variable then lists its old entries followed by the library directories. |
| Arguments.IsVerbose | build.py:142 | Verbose holds exactly when some argument is `-v` or `--verbose`. |
| ListingCases.LinuxListing | build.py:159-165 | The Linux listing with an installed interpreter gives the interpreter path under both patterns. |
| ListingCases.LinuxDownloadListing | build.py:167-174 | The Linux listing with `<download available>` gives nothing under both patterns. |
| ListingCases.WindowsListing | build.py:176-182 | The Windows listing with an installed interpreter gives the interpreter path under both patterns. |
| ListingCases.WindowsDownloadListing | build.py:184-191 | The Windows listing with `<download available>` gives nothing under both patterns. |
| ListingCases.CrossingAsWritten | build.py:24 | On a listing of one tagged field, a newline and two tagged fields, `\s+` crosses the newline and the first field of the second line is reported. |
| ListingCases.CrossingCorrected | build.py:24 | On the same listing, a separator that stops at the newline reports the second field of the second line. |
| ListingCases.NewlineCrossing | build.py:24 | The listing `a-3.1-b\nc-3.1-d e-3.1-f` with pin `3` gives `c-3.1-d` as written and `e-3.1-f` corrected. |
| ListingCases.WildcardAsWritten | build.py:24 | A listing tagged with a string the pin matches only with `.` as a wildcard is reported as written. |
| ListingCases.WildcardCorrected | build.py:24 | A listing whose first field never shows the pin gives nothing under the literal pin. |
| ListingCases.WildcardPin | build.py:24 | The pin `3.1` on toolchains tagged `301.2` reports a path as written and nothing corrected. |
| ListingCases.CrossingChoice | build.py:31-41 | The version file `3\n` with the listing `a-3.1-b\nc-3.1-d e-3.1-f` chooses `c-3.1-d` as written and `e-3.1-f` corrected. |
| ListingCases.WildcardChoice | build.py:31-41 | The version file `3.1\n` with the listing `a-301.2-bc c-301.2-de` chooses `c-301.2-de` as written and fails with no match corrected. |

## Left out

- Running `uv python list` and `cargo build`. Their output is a parameter: the listing text, and a function from the environment to the probe's stderr. The final `cargo` run in `main` is not modelled.
- Decoding bytes. The listing and stderr are already Python `str` values.
- The file system.
  - `.python-version` is given as the text `read()` returns, after text mode has turned `\r\n` and `\r` into `\n`; so a file holding `3.12\r\n` is the text `3.12\n`.
  - `path.exists()` is `ConfigFile.content` being `Some`.
  - Writing is assigning `content`. `content` is the text handed to `write`, before text mode turns each `\n` into `\r\n` on Windows.
  - Encodings and I/O errors are not modelled.
- `platform.system()`, `Path.home()` and `os.getcwd()` are parameters.
- The `print` calls under `verbose` have no effect on the results and are left out; only the flag itself is modelled.
- `main`'s mutation of `os.environ` and its assignment of `PYO3_CONFIG_FILE` are not modelled. Both are plain assignments to the process environment.
- `src/main.rs` and `hello.py` are not part of this model.
- The texts of exception messages are not modelled; each `raise` and the `assert` is one `BuildError` constructor. Running Python with `-O` would remove the `assert` at line 39; the model keeps it.
- The `ValueError` of `find_python_lib_paths` (lines 68-70) cannot be raised. `python_dylib_dir` fails first on every system but Linux and Windows, and `Locations.LibPaths` states this.
- Windows drive letters and UNC shares in `pathlib` are not modelled. A Windows anchor is a root separator only.
- Regex.In: `\d` is the ASCII digits only. Python's `str` patterns also accept other Unicode decimal digits.
- Toolchain.FindMatchingSpec: stated only for pins free of whitespace. A pin containing whitespace could split a field, and that case is not characterised.
- Toolchain.ChooseToolchainSpec: stated only for pins free of whitespace, for the same reason. It characterises the choice of the corrected matcher. The source's own choice is `Toolchain.ChooseToolchainAsWritten`, which differs on dotted pins and on listings with a lone tagged field: the version file `3\n` with the listing `a-3.1-b\nc-3.1-d e-3.1-f` gives `c-3.1-d` as written and `e-3.1-f` corrected, and the version file `3.1\n` with the listing `a-301.2-bc c-301.2-de` gives `c-301.2-de` as written and no match corrected (`ListingCases.CrossingChoice`, `ListingCases.WildcardChoice`).
- Locations.PythonExecPathSpec: stated only for pins free of whitespace, and for the corrected matcher, as for `Toolchain.ChooseToolchainSpec`. The source's `python_exec_path` is `Locations.PythonExecPathAsWritten`; its result on dotted pins and on listings with a lone tagged field before the last line is characterised only by the compiled pattern's matches, not line by line.
- Toolchain.AsWrittenAgrees: a sufficient condition for agreement (a plain pin without `.`, no lone tagged field before the last line), not an exact one. `Toolchain.ChooseAsWrittenAgrees` and `Locations.PythonExecPathAsWrittenAgrees` carry the same conditions.
- Toolchain.FindMatchingAsWritten: the pin's characters other than `.` are read literally. Python also reads `\ ^ $ * + ? { } [ ] | ( )` in the pin as syntax: the pin `3+` on `x-33.1-y z-33.1-w` gives `["z-33.1-w"]` in Python and `[]` here, and a pin such as `3(` makes `re.compile` raise `re.error`, which is not modelled. Results about the pattern as written are stated only for pins without these characters (`Toolchain.PlainPin`).
- Python's matcher is modelled only for the atoms the pattern uses: single-character classes, greedy `+` and one group. No other regular expression syntax is modelled.

## Findings

| source | as written | input that shows it | evidently intended | confidence | as-written member | corrected member |
|---|---|---|---|---|---|---|
| build.py:24 | `\s+` between the two fields also matches `\n`, so a line holding one tagged field pairs it with the first field of the next line | listing `a-3.1-b\nc-3.1-d e-3.1-f`, pin `3`: gives `["c-3.1-d"]`, a toolchain name taken as the interpreter path | fields are read within one line, giving `["e-3.1-f"]` | medium, not executed | ListingCases.NewlineCrossing | Toolchain.FindMatchingSpec |
| build.py:24 | the pin is put into the pattern unescaped, so each `.` of the version matches any character | listing `a-301.2-bc c-301.2-de`, pin `3.1`: gives `["c-301.2-de"]` | the pin taken literally (`re.escape`), giving `[]` | high, not executed | ListingCases.WildcardPin | Toolchain.FindMatchingSpec |
| build.py:131 | `env[amend] += paths_str` adds no `os.pathsep`, so the last old entry and the first new one fuse | `LD_LIBRARY_PATH=/usr/lib`, interpreter `/opt/py/bin/python3`: gives the single entry `/usr/lib/opt/py/lib` | `env[amend] += os.pathsep + paths_str`, keeping `/usr/lib` and adding `/opt/py/lib` | high, not executed | Environment.FusedEntry | Environment.SeparatedExtendsEntries |

How the corrections are used:

- The interpreter choice (`Toolchain.ChooseToolchain`, `Locations.PythonExecPath`) uses the corrected matcher `Toolchain.FindMatching`. The choice as written (`Toolchain.ChooseToolchainAsWritten`, `Locations.PythonExecPathAsWritten`) uses `Toolchain.FindMatchingAsWritten`.
- `Toolchain.FindMatchingAsWritten` is the pattern as compiled. `Toolchain.AsWrittenAgrees` states when the two give the same list.
- `Environment.ExtendedEnv` is the environment extension as written. `Environment.ExtendedEnvSeparated` is the corrected one, and `Environment.SeparatedExtendsEntries` relates the two.
