/**
 * `ensure_pyo3_config`: run a probe build with `PYO3_PRINT_CONFIG=1`, cut the
 * configuration pyo3 prints out of its stderr, rewrite it with the uv-managed
 * library directory and write it to the `pyo3_config` file, unless that file
 * already exists.
 */
module Pyo3Config {
  import opened Wrappers
  import opened PyText
  import opened Paths
  import opened Platforms
  import opened BuildErrors
  import opened Locations

  /** The line pyo3 prints before its configuration. */
  const PrintPrefix: string := "  -- PYO3_PRINT_CONFIG=1 is set, printing configuration and halting compile --\n"

  /** The note pyo3 prints after its configuration. */
  const PrintSuffix: string := "note: unset the PYO3_PRINT_CONFIG environment variable and retry to compile with the above config"

  const PrintConfigVar: string := "PYO3_PRINT_CONFIG"

  const LibDirKey: string := "lib_dir="

  /*
   * Cutting the configuration out of the probe's stderr.
   */

  /** The text after the first prefix up to the first suffix after it, with `find`'s -1 used as a slice end when there is none. */
  function ExtractConfig(stderr: string): (r: Result<string, BuildError>)
    ensures r.Failure? <==> forall i: nat :: !OccursAt(stderr, PrintPrefix, i)
    ensures r.Failure? ==> r.error == NoConfigInOutput
  {
    var from := Find(stderr, PrintPrefix, 0);
    if from == -1 then Failure(NoConfigInOutput)
    else
      var start := from + |PrintPrefix|;
      Success(PySlice(stderr, start, Find(stderr, PrintSuffix, start)))
  }

  /** `find` gives the first occurrence at or after `start`. */
  lemma {:induction false} FindFirst(s: string, sub: string, start: nat, j: nat)
    requires start <= j && OccursAt(s, sub, j)
    requires forall k :: start <= k < j ==> !OccursAt(s, sub, k)
    ensures Find(s, sub, start) == j
  {
  }

  /** A configuration between the first prefix and the first suffix after it is cut out exactly. */
  lemma {:induction false} ExtractBetween(stderr: string, i: nat, j: nat)
    requires OccursAt(stderr, PrintPrefix, i) && forall k :: 0 <= k < i ==> !OccursAt(stderr, PrintPrefix, k)
    requires i + |PrintPrefix| <= j && OccursAt(stderr, PrintSuffix, j)
    requires forall k :: i + |PrintPrefix| <= k < j ==> !OccursAt(stderr, PrintSuffix, k)
    ensures ExtractConfig(stderr) == Success(stderr[i + |PrintPrefix|..j])
  {
    FindFirst(stderr, PrintPrefix, 0, i);
    FindFirst(stderr, PrintSuffix, i + |PrintPrefix|, j);
  }

  /** Without a suffix, `find` gives -1 and the slice loses the last character of the stderr. */
  lemma {:induction false} ExtractUnterminated(stderr: string, i: nat)
    requires OccursAt(stderr, PrintPrefix, i) && forall k :: 0 <= k < i ==> !OccursAt(stderr, PrintPrefix, k)
    requires forall k :: i + |PrintPrefix| <= k ==> !OccursAt(stderr, PrintSuffix, k)
    ensures i + |PrintPrefix| < |stderr| ==> ExtractConfig(stderr) == Success(stderr[i + |PrintPrefix|..|stderr| - 1])
    ensures i + |PrintPrefix| == |stderr| ==> ExtractConfig(stderr) == Success("")
  {
    FindFirst(stderr, PrintPrefix, 0, i);
    assert Find(stderr, PrintSuffix, i + |PrintPrefix|) == -1;
  }

  /*
   * Rewriting the configuration.
   */

  /** A stripped line that sets the library directory. */
  predicate IsLibDirLine(line: string) {
    StartsWith(line, LibDirKey)
  }

  /**
   * The rebuilt lines of a configuration's `lines`, in order: each stripped,
   * blank ones dropped, `lib_dir=` ones set to the library directory. `libDir` is
   * what `str(python_dylib_dir(...))` gives; its failure escapes only when a
   * `lib_dir=` line needs it.
   */
  function Rebuilt(lines: seq<string>, libDir: Result<string, BuildError>): Result<seq<string>, BuildError>
    decreases |lines|
  {
    if lines == [] then Success([])
    else RebuildStep(Rebuilt(lines[..|lines| - 1], libDir), Strip(lines[|lines| - 1]), libDir)
  }

  /** One pass of the loop, for the stripped `line`. */
  function RebuildStep(acc: Result<seq<string>, BuildError>, line: string, libDir: Result<string, BuildError>): Result<seq<string>, BuildError> {
    var init :- acc;
    if IsLibDirLine(line) then
      var dir :- libDir;
      Success(init + [LibDirKey + dir])
    else if |line| > 0 then Success(init + [line])
    else Success(init)
  }

  lemma {:induction false} RebuiltSnoc(init: seq<string>, line: string, libDir: Result<string, BuildError>)
    ensures Rebuilt(init + [line], libDir) == RebuildStep(Rebuilt(init, libDir), Strip(line), libDir)
  {
    var lines := init + [line];
    assert lines[..|lines| - 1] == init && lines[|lines| - 1] == line;
  }

  lemma {:induction false} RebuiltNext(lines: seq<string>, i: nat, libDir: Result<string, BuildError>)
    requires i < |lines|
    ensures Rebuilt(lines[..i + 1], libDir) == RebuildStep(Rebuilt(lines[..i], libDir), Strip(lines[i]), libDir)
  {
    assert lines[..i + 1] == lines[..i] + [lines[i]];
    RebuiltSnoc(lines[..i], lines[i], libDir);
  }

  /** The rebuild loop of `ensure_pyo3_config`. */
  method RebuildConfig(config: string, libDir: Result<string, BuildError>) returns (r: Result<seq<string>, BuildError>)
    ensures r == Rebuilt(SplitLines(config), libDir)
  {
    var lines := SplitLines(config);
    var rebuilt: seq<string> := [];
    for i := 0 to |lines|
      invariant Rebuilt(lines[..i], libDir) == Success(rebuilt)
    {
      var line := Strip(lines[i]);
      RebuiltNext(lines, i, libDir);
      if StartsWith(line, LibDirKey) {
        if libDir.Failure? {
          RebuiltKeepsFailure(lines, i + 1, libDir);
          return Failure(libDir.error);
        }
        rebuilt := rebuilt + [LibDirKey + libDir.value];
      } else if |line| > 0 {
        rebuilt := rebuilt + [line];
      }
    }
    assert lines[..|lines|] == lines;
    return Success(rebuilt);
  }

  /** Once a prefix of the lines fails, so do all the lines. */
  lemma {:induction false} RebuiltKeepsFailure(lines: seq<string>, n: nat, libDir: Result<string, BuildError>)
    requires n <= |lines| && Rebuilt(lines[..n], libDir).Failure?
    ensures Rebuilt(lines, libDir) == Rebuilt(lines[..n], libDir)
    decreases |lines| - n
  {
    if n < |lines| {
      var init := lines[..|lines| - 1];
      assert init[..n] == lines[..n];
      RebuiltKeepsFailure(init, n, libDir);
    } else {
      assert lines[..n] == lines;
    }
  }

  /*
   * A reference definition of the rewrite: strip every line, keep the non-blank ones,
   * then set the library directory.
   */

  function StripAll(lines: seq<string>): (r: seq<string>)
    ensures |r| == |lines|
  {
    seq(|lines|, k requires 0 <= k < |lines| => Strip(lines[k]))
  }

  function NonBlank(lines: seq<string>): seq<string> {
    if lines == [] then [] else (if lines[0] == [] then [] else [lines[0]]) + NonBlank(lines[1..])
  }

  function WithLibDir(lines: seq<string>, dir: string): (r: seq<string>)
    ensures |r| == |lines|
  {
    seq(|lines|, k requires 0 <= k < |lines| => if IsLibDirLine(lines[k]) then LibDirKey + dir else lines[k])
  }

  /** Some stripped line sets the library directory. */
  predicate MentionsLibDir(lines: seq<string>) {
    exists k :: 0 <= k < |lines| && IsLibDirLine(Strip(lines[k]))
  }

  lemma {:induction false} NonBlankSnoc(lines: seq<string>, line: string)
    ensures NonBlank(lines + [line]) == NonBlank(lines) + (if line == [] then [] else [line])
    decreases |lines|
  {
    if lines != [] {
      assert (lines + [line])[1..] == lines[1..] + [line];
      NonBlankSnoc(lines[1..], line);
    } else {
      assert [line][1..] == [];
    }
  }

  lemma {:induction false} StripAllSnoc(init: seq<string>, last: string)
    ensures StripAll(init + [last]) == StripAll(init) + [Strip(last)]
  {
    var lines := init + [last];
    forall k | 0 <= k < |lines|
      ensures StripAll(lines)[k] == (StripAll(init) + [Strip(last)])[k]
    {
      if k < |init| {
        assert lines[k] == init[k];
      }
    }
  }

  lemma {:induction false} WithLibDirSnoc(lines: seq<string>, line: string, dir: string)
    ensures WithLibDir(lines + [line], dir) == WithLibDir(lines, dir) + [if IsLibDirLine(line) then LibDirKey + dir else line]
  {
  }

  /** The failure of `python_dylib_dir` escapes exactly when some stripped line sets `lib_dir=`. */
  lemma {:induction false} RebuiltFailure(lines: seq<string>, libDir: Result<string, BuildError>)
    ensures Rebuilt(lines, libDir).Failure? <==> libDir.Failure? && MentionsLibDir(lines)
    ensures Rebuilt(lines, libDir).Failure? ==> Rebuilt(lines, libDir).error == libDir.error
    decreases |lines|
  {
    if lines != [] {
      var init := lines[..|lines| - 1];
      var last := lines[|lines| - 1];
      assert lines == init + [last];
      RebuiltFailure(init, libDir);
      RebuiltSnoc(init, last, libDir);
      MentionsSnoc(init, last);
    }
  }

  /** The rebuilt lines are the stripped non-blank lines, with every `lib_dir=` line set to the library directory. */
  lemma {:induction false} RebuiltLines(lines: seq<string>, dir: string)
    ensures Rebuilt(lines, Success(dir)) == Success(WithLibDir(NonBlank(StripAll(lines)), dir))
    decreases |lines|
  {
    if lines != [] {
      var init := lines[..|lines| - 1];
      var last := lines[|lines| - 1];
      assert lines == init + [last];
      var line := Strip(last);
      var kept := NonBlank(StripAll(init));
      var w := WithLibDir(kept, dir);
      RebuiltLines(init, dir);
      RebuiltSnoc(init, last, Success(dir));
      assert Rebuilt(lines, Success(dir)) == RebuildStep(Success(w), line, Success(dir));
      StripAllSnoc(init, last);
      NonBlankSnoc(StripAll(init), line);
      if line != [] {
        WithLibDirSnoc(kept, line, dir);
        assert NonBlank(StripAll(lines)) == kept + [line];
      } else {
        assert NonBlank(StripAll(lines)) == kept;
      }
    }
  }

  /** A configuration that never sets `lib_dir=` is only stripped and compacted, whatever `python_dylib_dir` does. */
  lemma {:induction false} RebuiltWithoutLibDir(lines: seq<string>, libDir: Result<string, BuildError>)
    requires !MentionsLibDir(lines)
    ensures Rebuilt(lines, libDir) == Success(NonBlank(StripAll(lines)))
    decreases |lines|
  {
    if lines != [] {
      var init := lines[..|lines| - 1];
      var last := lines[|lines| - 1];
      assert lines == init + [last];
      var line := Strip(last);
      var kept := NonBlank(StripAll(init));
      MentionsSnoc(init, last);
      RebuiltWithoutLibDir(init, libDir);
      RebuiltSnoc(init, last, libDir);
      assert Rebuilt(lines, libDir) == RebuildStep(Success(kept), line, libDir);
      StripAllSnoc(init, last);
      NonBlankSnoc(StripAll(init), line);
      if line != [] {
        assert NonBlank(StripAll(lines)) == kept + [line];
      } else {
        assert NonBlank(StripAll(lines)) == kept;
      }
    }
  }

  lemma {:induction false} MentionsSnoc(init: seq<string>, last: string)
    ensures MentionsLibDir(init + [last]) <==> MentionsLibDir(init) || IsLibDirLine(Strip(last))
  {
    var lines := init + [last];
    if IsLibDirLine(Strip(last)) {
      assert lines[|init|] == last;
    }
    if MentionsLibDir(init) {
      var k :| 0 <= k < |init| && IsLibDirLine(Strip(init[k]));
      assert lines[k] == init[k];
    }
    if MentionsLibDir(lines) {
      var k :| 0 <= k < |lines| && IsLibDirLine(Strip(lines[k]));
      if k < |init| {
        assert lines[k] == init[k];
      }
    }
  }

  /*
   * The written file.
   */

  /** `"\n".join(rebuilt)` for the probe's stderr, or the exception that stops the write. */
  function ConfigText(stderr: string, libDir: Result<string, BuildError>): Result<string, BuildError> {
    var block :- ExtractConfig(stderr);
    var lines :- Rebuilt(SplitLines(block), libDir);
    Success(JoinWith(lines, "\n"))
  }

  predicate NoLineBreak(t: string) {
    forall m :: 0 <= m < |t| ==> !IsLineBreak(t[m])
  }

  /** What the loop appends for one line, when the library directory is `dir`. */
  function Appended(line: string, dir: string): seq<string> {
    var s := Strip(line);
    if IsLibDirLine(s) then [LibDirKey + dir] else if |s| > 0 then [s] else []
  }

  lemma {:induction false} StepAppends(acc: seq<string>, line: string, dir: string)
    ensures RebuildStep(Success(acc), Strip(line), Success(dir)) == Success(acc + Appended(line, dir))
  {
    if Appended(line, dir) == [] {
      assert acc + [] == acc;
    }
  }

  /** An appended line is non-empty, has no line break, and is appended unchanged when rewritten again. */
  lemma {:induction false} AppendedShape(line: string, dir: string)
    requires NoLineBreak(line) && NoLineBreak(dir)
    ensures |Appended(line, dir)| <= 1
    ensures forall y :: y in Appended(line, dir) ==> y != [] && NoLineBreak(y) && Appended(y, dir) == [y]
  {
    var s := Strip(line);
    StripNoBreak(line);
    if IsLibDirLine(s) {
      LibDirLineStable(dir);
      assert Appended(line, dir) == [LibDirKey + dir];
    } else if |s| > 0 {
      StrippedLineStable(s, dir);
      assert Appended(line, dir) == [s];
    }
  }

  lemma {:induction false} LibDirLineStable(dir: string)
    requires NoLineBreak(dir)
    ensures NoLineBreak(LibDirKey + dir)
    ensures Appended(LibDirKey + dir, dir) == [LibDirKey + dir]
  {
    var y := LibDirKey + dir;
    StripKeepsPrefix(y, LibDirKey);
    assert forall m :: 0 <= m < |y| ==> y[m] == if m < |LibDirKey| then LibDirKey[m] else dir[m - |LibDirKey|];
  }

  lemma {:induction false} StrippedLineStable(s: string, dir: string)
    requires s != [] && !IsSpace(s[0]) && !IsSpace(s[|s| - 1]) && !IsLibDirLine(s)
    ensures Appended(s, dir) == [s]
  {
    StripOfStripped(s);
  }

  lemma {:induction false} RebuiltSnocDir(init: seq<string>, line: string, dir: string)
    requires Rebuilt(init, Success(dir)).Success?
    ensures Rebuilt(init + [line], Success(dir)) == Success(Rebuilt(init, Success(dir)).value + Appended(line, dir))
  {
    RebuiltSnoc(init, line, Success(dir));
    StepAppends(Rebuilt(init, Success(dir)).value, line, dir);
  }

  /** With a library directory, every rebuilt line is non-empty and has no line break. */
  lemma {:induction false} RebuiltShape(lines: seq<string>, dir: string)
    requires forall k :: 0 <= k < |lines| ==> NoLineBreak(lines[k])
    requires NoLineBreak(dir)
    ensures Rebuilt(lines, Success(dir)).Success?
    ensures forall k :: 0 <= k < |Rebuilt(lines, Success(dir)).value| ==>
      Rebuilt(lines, Success(dir)).value[k] != [] && NoLineBreak(Rebuilt(lines, Success(dir)).value[k])
    decreases |lines|
  {
    if lines != [] {
      var init := lines[..|lines| - 1];
      var last := lines[|lines| - 1];
      assert lines == init + [last];
      RebuiltShape(init, dir);
      RebuiltFailure(init, Success(dir));
      RebuiltSnocDir(init, last, dir);
      AppendedShape(last, dir);
      var out := Rebuilt(init, Success(dir)).value;
      var a := Appended(last, dir);
      forall k | 0 <= k < |out + a|
        ensures (out + a)[k] != [] && NoLineBreak((out + a)[k])
      {
        if k >= |out| {
          assert (out + a)[k] in a;
        }
      }
    }
  }

  /** Rewriting the rebuilt lines again gives them back unchanged. */
  lemma {:induction false} RebuiltFixpoint(lines: seq<string>, dir: string)
    requires forall k :: 0 <= k < |lines| ==> NoLineBreak(lines[k])
    requires NoLineBreak(dir)
    ensures Rebuilt(lines, Success(dir)).Success?
    ensures Rebuilt(Rebuilt(lines, Success(dir)).value, Success(dir)) == Rebuilt(lines, Success(dir))
    decreases |lines|
  {
    if lines != [] {
      var init := lines[..|lines| - 1];
      var last := lines[|lines| - 1];
      RebuiltFixpoint(init, dir);
      assert lines == init + [last];
      RebuiltSnocDir(init, last, dir);
      AppendedShape(last, dir);
      FixpointStep(Rebuilt(init, Success(dir)).value, Appended(last, dir), dir);
    }
  }

  /** Appending lines that rebuild to themselves keeps a fixpoint of the rewrite. */
  lemma {:induction false} FixpointStep(out: seq<string>, a: seq<string>, dir: string)
    requires Rebuilt(out, Success(dir)) == Success(out)
    requires |a| <= 1 && forall y :: y in a ==> Appended(y, dir) == [y]
    ensures Rebuilt(out + a, Success(dir)) == Success(out + a)
  {
    if a != [] {
      assert a == [a[0]];
      RebuiltSnocDir(out, a[0], dir);
    } else {
      assert out + a == out;
    }
  }

  /**
   * The written file has no empty line and no final newline, it reads back as the
   * rebuilt lines, and rewriting it changes nothing, provided the library directory's
   * text has no line break.
   */
  lemma {:induction false} WrittenConfig(stderr: string, dir: string, text: string)
    requires NoLineBreak(dir)
    requires ConfigText(stderr, Success(dir)) == Success(text)
    ensures SplitLines(text) == Rebuilt(SplitLines(ExtractConfig(stderr).value), Success(dir)).value
    ensures forall k :: 0 <= k < |SplitLines(text)| ==> SplitLines(text)[k] != []
    ensures text == [] || text[|text| - 1] != '\n'
    ensures Rebuilt(SplitLines(text), Success(dir)) == Success(SplitLines(text))
  {
    var lines := SplitLines(ExtractConfig(stderr).value);
    RebuiltShape(lines, dir);
    RebuiltFixpoint(lines, dir);
    var out := Rebuilt(lines, Success(dir)).value;
    assert text == JoinWith(out, "\n");
    SplitLinesOfJoin(out);
    if out != [] {
      JoinLast(out);
    }
  }

  /** A join of non-empty lines ends with the last line's last character. */
  lemma {:induction false} JoinLast(parts: seq<string>)
    requires |parts| >= 1 && parts[|parts| - 1] != []
    ensures |JoinWith(parts, "\n")| > 0
    ensures JoinWith(parts, "\n")[|JoinWith(parts, "\n")| - 1] == parts[|parts| - 1][|parts[|parts| - 1]| - 1]
    decreases |parts|
  {
    if |parts| > 1 {
      JoinLast(parts[1..]);
      assert parts[1..][|parts[1..]| - 1] == parts[|parts| - 1];
    }
  }

  /** The pyo3 configuration file: the text it holds, or `None` while it does not exist. */
  class ConfigFile {
    var content: Option<string>

    constructor(content: Option<string>)
      ensures this.content == content
    {
      this.content := content;
    }

    /**
     * `ensure_pyo3_config`. `probe` stands for the `cargo build` run: it maps the environment
     * it is given to the stderr it prints. `probed` is that environment, or `None` when the
     * file already exists and nothing is run.
     */
    method Ensure(env: map<string, string>, probe: map<string, string> -> string, platform: Platform, exec: Path, home: Path)
      returns (probed: Option<map<string, string>>, r: Result<(), BuildError>)
      modifies this
      ensures old(content).Some? ==> content == old(content) && probed == None && r == Success(())
      ensures old(content).None? ==> probed == Some(env[PrintConfigVar := "1"])
      ensures old(content).None? ==>
        match ConfigText(probe(env[PrintConfigVar := "1"]), LibDirText(platform, exec, home))
        case Success(text) => content == Some(text) && r == Success(())
        case Failure(e) => content == None && r == Failure(e)
    {
      if content.Some? {
        return None, Success(());
      }
      var probeEnv := env;
      probeEnv := probeEnv[PrintConfigVar := "1"];
      probed := Some(probeEnv);
      var stderr := probe(probeEnv);
      var from := Find(stderr, PrintPrefix, 0);
      if from == -1 {
        assert ConfigText(stderr, LibDirText(platform, exec, home)) == Failure(NoConfigInOutput);
        return probed, Failure(NoConfigInOutput);
      }
      from := from + |PrintPrefix|;
      var to := Find(stderr, PrintSuffix, from);
      var config := PySlice(stderr, from, to);
      assert ExtractConfig(stderr) == Success(config);
      var rebuilt := RebuildConfig(config, LibDirText(platform, exec, home));
      if rebuilt.Failure? {
        assert ConfigText(stderr, LibDirText(platform, exec, home)) == Failure(rebuilt.error);
        return probed, Failure(rebuilt.error);
      }
      assert ConfigText(stderr, LibDirText(platform, exec, home)) == Success(JoinWith(rebuilt.value, "\n"));
      content := Some(JoinWith(rebuilt.value, "\n"));
      r := Success(());
    }
  }
}
